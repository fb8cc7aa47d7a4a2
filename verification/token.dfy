/**
 * The producer's OpenSky access token: the global `token_info` dict, `get_token`
 * and the refresh check at the top of `get_events`. Clock readings and the reply
 * of the auth server are parameters; time is a real number of seconds.
 */
module Token {
  import opened StateVectors

  /** `expires_in` as the auth server's JSON body gives it. */
  datatype ExpiresIn =
    | ExpiresInAbsent             // key missing: `.get('expires_in', 1800)`
    | ExpiresInNumber(seconds: real)
    | ExpiresInNotNumber          // null, a string, ...: `* 0.8` raises TypeError

  /** Outcome of the POST to the token endpoint. */
  datatype AuthReply =
    | AuthFailed                  // network error, a body that is not a JSON object
    | Granted(accessToken: Value, expiresIn: ExpiresIn)

  /** Result of `get_token`: the new token state, or `SystemExit(1)`. */
  datatype Acquisition = Acquired(token: Value, expiresAt: real) | Exit

  const DefaultExpiresIn: real := 1800.0
  const SafetyMargin: real := 0.8

  /** Whether `get_events` asks for a new token: none is held or the clock is strictly
      past the recorded expiry. */
  predicate NeedsRefresh(token: Value, expiresAt: real, now: real)
  {
    token == Null || now > expiresAt
  }

  /** `get_token` at clock reading `now`. */
  function Acquire(now: real, reply: AuthReply): (r: Acquisition)
    ensures r.Exit? <==> reply.AuthFailed? || reply.expiresIn.ExpiresInNotNumber?
    ensures r.Acquired? ==> r.token == reply.accessToken
    ensures r.Acquired? && reply.expiresIn.ExpiresInAbsent? ==> r.expiresAt == now + 1440.0
    ensures r.Acquired? && reply.expiresIn.ExpiresInNumber? ==>
      r.expiresAt == now + reply.expiresIn.seconds * 8.0 / 10.0
  {
    match reply
    case AuthFailed => Exit
    case Granted(token, expiresIn) =>
      match expiresIn
      case ExpiresInAbsent => Acquired(token, now + DefaultExpiresIn * SafetyMargin)
      case ExpiresInNumber(seconds) => Acquired(token, now + seconds * SafetyMargin)
      case ExpiresInNotNumber => Exit
  }

  /** Before the first request no token is held, so the first `get_events` always
      asks for one, whatever the clock says. */
  lemma FirstCallRefreshes(now: real)
    ensures NeedsRefresh(Null, 0.0, now)
  {
  }

  /** After a token is issued at t with lifetime ttl, a refresh is requested exactly
      when the clock is strictly past t + 0.8 * ttl (1440 s when the server gives no
      lifetime). A null token is requested again at once. */
  lemma RefreshAfterMargin(t: real, token: Value, expiresIn: ExpiresIn, now: real)
    requires !expiresIn.ExpiresInNotNumber?
    ensures var a := Acquire(t, Granted(token, expiresIn));
      var lifetime := if expiresIn.ExpiresInNumber? then expiresIn.seconds else DefaultExpiresIn;
      a.Acquired? &&
      (token != Null ==> (NeedsRefresh(a.token, a.expiresAt, now) <==> now > t + lifetime * 8.0 / 10.0)) &&
      (token == Null ==> NeedsRefresh(a.token, a.expiresAt, now))
  {
  }

  /** With `expires_in = 100` issued at t: no refresh at t + 80, a refresh at any later
      instant. */
  lemma HundredSecondToken(t: real, token: Value)
    requires token != Null
    ensures var a := Acquire(t, Granted(token, ExpiresInNumber(100.0)));
      a == Acquired(token, t + 80.0) &&
      !NeedsRefresh(a.token, a.expiresAt, t + 80.0) &&
      forall now :: now > t + 80.0 ==> NeedsRefresh(a.token, a.expiresAt, now)
  {
  }

  /** The global `token_info` dict. */
  class TokenInfo {
    var accessToken: Value
    var expiresAt: real

    /** The state at the start of the script: no token, expiry 0. */
    constructor ()
      ensures accessToken == Null && expiresAt == 0.0
    {
      accessToken := Null;
      expiresAt := 0.0;
    }

    /** `get_token`: on success both fields are overwritten; on failure the process
        exits (`exit`). The token field is written before the expiry arithmetic, so a
        reply whose `expires_in` is not a number leaves the new token stored beside
        the old expiry as the process exits. */
    method GetToken(now: real, reply: AuthReply) returns (exit: bool)
      modifies this
      ensures exit <==> Acquire(now, reply).Exit?
      ensures !exit ==> Acquired(accessToken, expiresAt) == Acquire(now, reply)
      ensures exit ==> expiresAt == old(expiresAt)
      ensures exit && reply.AuthFailed? ==> accessToken == old(accessToken)
      ensures exit && reply.Granted? ==> accessToken == reply.accessToken
    {
      match reply {
        case AuthFailed =>
          exit := true;
        case Granted(token, expiresIn) =>
          accessToken := token;
          match expiresIn {
            case ExpiresInAbsent =>
              expiresAt := now + DefaultExpiresIn * SafetyMargin;
              exit := false;
            case ExpiresInNumber(seconds) =>
              expiresAt := now + seconds * SafetyMargin;
              exit := false;
            case ExpiresInNotNumber =>
              exit := true;
          }
      }
    }

    /** The refresh check of `get_events`: the clock is read at `checkTime`; if a
        refresh is due, `get_token` reads it again at `issueTime`. */
    method EnsureToken(checkTime: real, issueTime: real, reply: AuthReply) returns (exit: bool)
      modifies this
      ensures !NeedsRefresh(old(accessToken), old(expiresAt), checkTime) ==>
        !exit && accessToken == old(accessToken) && expiresAt == old(expiresAt)
      ensures NeedsRefresh(old(accessToken), old(expiresAt), checkTime) ==>
        (exit <==> Acquire(issueTime, reply).Exit?) &&
        (!exit ==> Acquired(accessToken, expiresAt) == Acquire(issueTime, reply))
    {
      exit := false;
      if accessToken == Null || checkTime > expiresAt {
        exit := GetToken(issueTime, reply);
      }
    }
  }
}
