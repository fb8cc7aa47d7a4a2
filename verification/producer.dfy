/**
 * The producer's `main` loop: each tick ensures a token, polls the state-vector
 * API, turns every state vector into a keyed record, hands it to Kafka with the key
 * `ICAO_<icao24>`, and flushes. Kafka's producer is an outbox of messages plus a
 * count of how many of them a flush has pushed out.
 */
module Producer {
  import opened StateVectors
  import opened Token

  /** Seconds slept between ticks. */
  const PollInterval: real := 22.0
  /** OpenSky's daily quota of API calls. */
  const DailyCallLimit: nat := 4000
  const SecondsPerDay: real := 86400.0
  /** ceil(86400 / 22). */
  const MaxPollsPerDay: nat := 3928

  /** What `get_events` returns: None after a failed request, otherwise the JSON body,
      of which only `states` is read (None when the key is missing or null). */
  datatype PollResult = PollFailed | Polled(states: Option<seq<StateVector>>)

  /** One `producer.produce` call: the UTF-8 key and the JSON-encoded record, JSON
      encoding being taken as the identity on the record. */
  datatype Message = Message(key: string, value: Record)

  /** The inputs of one tick: the two clock readings of the token check, the auth
      server's reply should a token be requested, and the API's answer. */
  datatype TickInput = TickInput(checkTime: real, issueTime: real, auth: AuthReply, poll: PollResult)

  datatype TickOutcome =
    | Slept          // the tick completed and the loop sleeps `poll_interval`
    | AuthExit       // `get_token` raised SystemExit(1)
    | KeyErrorCrash  // an empty state vector has no 'icao24': KeyError ends the process

  function DecimalDigits(n: nat): string
  {
    if n < 10 then [(48 + n) as char] else DecimalDigits(n / 10) + [(48 + n % 10) as char]
  }

  /** Python's `str()` of a JSON value, as an f-string formats it. */
  function PyStr(v: Value): string
  {
    match v
    case Null => "None"
    case Bool(b) => if b then "True" else "False"
    case Int(i) => if i < 0 then "-" + DecimalDigits(-i) else DecimalDigits(i)
    case Str(s) => s
    case Opaque(text) => text
  }

  /** `f"ICAO_{icao24}"`. */
  function KeyString(icao24: Value): string
  {
    "ICAO_" + PyStr(icao24)
  }

  /** The message key of a keyed record, `keyed_state_vector['icao24']` formatted. */
  function MessageKey(record: Record): string
    requires "icao24" in record
  {
    KeyString(record["icao24"])
  }

  /** The message published for one non-empty state vector. */
  function MessageFor(sv: StateVector): (m: Message)
    requires |sv| > 0
    ensures "icao24" in m.value && m.key == MessageKey(m.value)
  {
    KeyedAt(sv, 0);
    Message(MessageKey(Keyed(sv)), Keyed(sv))
  }

  /** `events['states']` when `events and events.get('states')` holds, else nothing. */
  function StatesToPublish(poll: PollResult): seq<StateVector>
  {
    match poll
    case PollFailed => []
    case Polled(None) => []
    case Polled(Some(states)) => states
  }

  /** Index of the first empty state vector, the one whose lookup of 'icao24' raises,
      or the length when there is none. */
  function FirstEmpty(svs: seq<StateVector>): (r: nat)
    ensures r <= |svs|
    ensures forall i :: 0 <= i < r ==> |svs[i]| > 0
    ensures r < |svs| ==> |svs[r]| == 0
  {
    if |svs| == 0 then 0
    else if |svs[0]| == 0 then 0
    else 1 + FirstEmpty(svs[1..])
  }

  /** The messages a tick hands to `producer.produce`, in input order, up to the
      first state vector that crashes the loop. */
  function TickMessages(poll: PollResult): seq<Message>
  {
    var svs := StatesToPublish(poll);
    MessagesFor(svs[..FirstEmpty(svs)])
  }

  /** One message per state vector, in order. */
  function MessagesFor(svs: seq<StateVector>): (ms: seq<Message>)
    requires forall i :: 0 <= i < |svs| ==> |svs[i]| > 0
  {
    seq(|svs|, i requires 0 <= i < |svs| => MessageFor(svs[i]))
  }

  /** The messages of consecutive ticks, in order. */
  function MessagesOf(ticks: seq<TickInput>): seq<Message>
  {
    if ticks == [] then [] else TickMessages(ticks[0].poll) + MessagesOf(ticks[1..])
  }

  /** The tick's `states` hold an empty state vector, so the key lookup raises. */
  predicate Crashes(poll: PollResult)
  {
    exists i :: 0 <= i < |StatesToPublish(poll)| && |StatesToPublish(poll)[i]| == 0
  }

  /** A tick crashes exactly when the loop reaches an empty state vector. */
  lemma CrashesAtFirstEmpty(poll: PollResult)
    ensures Crashes(poll) <==> FirstEmpty(StatesToPublish(poll)) < |StatesToPublish(poll)|
  {
    var svs := StatesToPublish(poll);
    if FirstEmpty(svs) < |svs| {
      assert |svs[FirstEmpty(svs)]| == 0;
    }
  }

  /** The token state after the refresh check of one tick, or Exit when that check
      asks for a token and `get_token` fails. */
  function TokenStep(a: Acquisition, input: TickInput): Acquisition
  {
    match a
    case Exit => Exit
    case Acquired(token, expiresAt) =>
      if NeedsRefresh(token, expiresAt, input.checkTime) then Acquire(input.issueTime, input.auth) else a
  }

  /** The token state after the refresh checks of consecutive ticks. */
  function TokenFold(a: Acquisition, ticks: seq<TickInput>): Acquisition
    decreases |ticks|
  {
    if ticks == [] then a else TokenFold(TokenStep(a, ticks[0]), ticks[1..])
  }

  /** How a run of the main loop ends. */
  datatype RunEnd = RunEnd(outcome: TickOutcome, ticks: nat, token: Acquisition)

  /** The main loop resumed at tick `k` with token state `a`: the outcome of the tick
      that ends it (Slept when the given ticks run out), the number of ticks run by
      then counted from 0, and the last token state. A tick whose due refresh fails
      exits; a tick that keeps a token and polls an empty state vector crashes. */
  function Resume(a: Acquisition, inputs: seq<TickInput>, k: nat): (r: RunEnd)
    requires k <= |inputs|
    decreases |inputs| - k
    ensures k <= r.ticks <= |inputs|
    ensures r.outcome.Slept? ==> r.ticks == |inputs|
    ensures !r.outcome.Slept? ==> k < r.ticks
  {
    if k == |inputs| then RunEnd(Slept, k, a)
    else
      var next := TokenStep(a, inputs[k]);
      if next.Exit? then RunEnd(AuthExit, k + 1, next)
      else if Crashes(inputs[k].poll) then RunEnd(KeyErrorCrash, k + 1, next)
      else Resume(next, inputs, k + 1)
  }

  /** The messages of two runs of ticks one after the other are those of the first
      followed by those of the second. */
  lemma {:induction false} MessagesOfConcat(s: seq<TickInput>, t: seq<TickInput>)
    ensures MessagesOf(s + t) == MessagesOf(s) + MessagesOf(t)
    decreases |s|
  {
    if s != [] {
      assert (s + t)[0] == s[0] && (s + t)[1..] == s[1..] + t;
      MessagesOfConcat(s[1..], t);
      AppendAssoc(TickMessages(s[0].poll), MessagesOf(s[1..]), MessagesOf(t));
    } else {
      assert s + t == t;
    }
  }

  /** One more tick adds its messages at the end. */
  lemma MessagesOfSnoc(inputs: seq<TickInput>, t: nat)
    requires t < |inputs|
    ensures MessagesOf(inputs[..t + 1]) == MessagesOf(inputs[..t]) + TickMessages(inputs[t].poll)
  {
    assert inputs[..t + 1] == inputs[..t] + [inputs[t]];
    MessagesOfConcat(inputs[..t], [inputs[t]]);
    assert MessagesOf([inputs[t]]) == TickMessages(inputs[t].poll) + MessagesOf([]);
  }

  lemma TokenFoldFrom(a: Acquisition, inputs: seq<TickInput>, k: nat, end: nat)
    requires k < end <= |inputs|
    ensures TokenFold(a, inputs[k..end]) == TokenFold(TokenStep(a, inputs[k]), inputs[k + 1..end])
  {
    assert inputs[k..end][0] == inputs[k] && inputs[k..end][1..] == inputs[k + 1..end];
  }

  /** A run stops at a crash only at its last tick: every tick before it, and every
      tick of a run that sleeps to the end, polled no empty state vector. */
  lemma {:induction false} ResumeCrashes(a: Acquisition, inputs: seq<TickInput>, k: nat)
    requires k <= |inputs|
    ensures var r := Resume(a, inputs, k);
      (forall j :: k <= j < r.ticks - 1 ==> !Crashes(inputs[j].poll)) &&
      (r.outcome.Slept? ==> forall j :: k <= j < |inputs| ==> !Crashes(inputs[j].poll)) &&
      (r.outcome.KeyErrorCrash? ==> Crashes(inputs[r.ticks - 1].poll))
    decreases |inputs| - k
  {
    if k < |inputs| {
      var next := TokenStep(a, inputs[k]);
      if next.Acquired? && !Crashes(inputs[k].poll) {
        ResumeCrashes(next, inputs, k + 1);
      }
    }
  }

  /** The run exits for want of a token exactly when the refresh checks of the ticks
      it ran, folded from the starting token state, end in Exit; until its last tick
      no refresh check had ended in Exit (the token held may still be None, stored
      from an error reply), and when it does not exit it ends with the token state
      the checks produced. */
  lemma {:induction false} ResumeToken(a: Acquisition, inputs: seq<TickInput>, k: nat)
    requires k <= |inputs| && a.Acquired?
    ensures var r := Resume(a, inputs, k);
      (r.outcome.AuthExit? <==> TokenFold(a, inputs[k..r.ticks]).Exit?) &&
      (!r.outcome.AuthExit? ==> r.token == TokenFold(a, inputs[k..r.ticks])) &&
      (!r.outcome.Slept? ==> TokenFold(a, inputs[k..r.ticks - 1]).Acquired?)
    decreases |inputs| - k
  {
    var r := Resume(a, inputs, k);
    if k < |inputs| {
      var next := TokenStep(a, inputs[k]);
      TokenFoldFrom(a, inputs, k, r.ticks);
      if next.Acquired? && !Crashes(inputs[k].poll) {
        ResumeToken(next, inputs, k + 1);
        if !r.outcome.Slept? {
          TokenFoldFrom(a, inputs, k, r.ticks - 1);
        }
      } else {
        assert inputs[k + 1..r.ticks] == [];
      }
    }
  }

  lemma MessagesForStep(svs: seq<StateVector>, i: nat)
    requires i < |svs| && forall j :: 0 <= j <= i ==> |svs[j]| > 0
    ensures MessagesFor(svs[..i + 1]) == MessagesFor(svs[..i]) + [MessageFor(svs[i])]
  {
  }

  /** The message key is `ICAO_` followed by the state vector's first element, so two
      records with the same icao24 get the same key, and a null icao24 gives
      `ICAO_None`. */
  lemma {:induction false} MessageKeyOfStateVector(sv: StateVector)
    requires |sv| > 0
    ensures "icao24" in Keyed(sv) && MessageKey(Keyed(sv)) == "ICAO_" + PyStr(sv[0])
    ensures sv[0] == Null ==> MessageKey(Keyed(sv)) == "ICAO_None"
  {
    KeyedAt(sv, 0);
  }

  /** The key depends only on icao24: equal identifiers, equal keys. */
  lemma SameIcaoSameKey(a: StateVector, b: StateVector)
    requires |a| > 0 && |b| > 0 && a[0] == b[0]
    ensures MessageFor(a).key == MessageFor(b).key
  {
    MessageKeyOfStateVector(a);
    MessageKeyOfStateVector(b);
  }

  /** Distinct string identifiers get distinct keys: the prefix loses nothing. A null
      identifier and the string "None" share a key. */
  lemma KeyStringDistinguishes(x: string, y: string)
    ensures KeyString(Str(x)) == KeyString(Str(y)) <==> x == y
    ensures KeyString(Null) == KeyString(Str("None"))
  {
    if KeyString(Str(x)) == KeyString(Str(y)) {
      assert x == KeyString(Str(x))[5..];
      assert y == KeyString(Str(y))[5..];
    }
  }

  /** A tick publishes nothing after a failed poll or a missing or empty `states`;
      otherwise one message per state vector, in order, each keyed by its icao24 and
      carrying `dict(zip(keys, sv))`, until an empty state vector (if any). */
  lemma TickMessagesSpec(poll: PollResult)
    ensures poll.PollFailed? || poll.states.None? || poll.states.value == [] ==> TickMessages(poll) == []
    ensures var svs := StatesToPublish(poll);
      |TickMessages(poll)| == FirstEmpty(svs) &&
      (FirstEmpty(svs) == |svs| <==> forall i :: 0 <= i < |svs| ==> |svs[i]| > 0) &&
      forall i :: 0 <= i < FirstEmpty(svs) ==>
        TickMessages(poll)[i].key == "ICAO_" + PyStr(svs[i][0]) &&
        TickMessages(poll)[i].value == Keyed(svs[i])
  {
    var svs := StatesToPublish(poll);
    forall i | 0 <= i < FirstEmpty(svs)
      ensures TickMessages(poll)[i].key == "ICAO_" + PyStr(svs[i][0])
    {
      MessageKeyOfStateVector(svs[i]);
    }
  }

  /** Tick start times at least `poll_interval` apart span (count - 1) intervals. */
  lemma {:induction false} TickSpacing(starts: seq<real>)
    requires |starts| > 0
    requires forall i :: 0 < i < |starts| ==> starts[i] >= starts[i - 1] + PollInterval
    ensures starts[|starts| - 1] >= starts[0] + (|starts| - 1) as real * PollInterval
  {
    if |starts| > 1 {
      TickSpacing(starts[..|starts| - 1]);
    }
  }

  /** Sleeping 22 s after every tick keeps the polls of any one day (86400 s) to at
      most ceil(86400 / 22) = 3928, within the quota of 4000 calls. */
  lemma PollsPerDay(starts: seq<real>, dayStart: real)
    requires forall i :: 0 < i < |starts| ==> starts[i] >= starts[i - 1] + PollInterval
    requires forall i :: 0 <= i < |starts| ==> dayStart <= starts[i] < dayStart + SecondsPerDay
    ensures (MaxPollsPerDay - 1) as real * PollInterval < SecondsPerDay <= MaxPollsPerDay as real * PollInterval
    ensures |starts| <= MaxPollsPerDay <= DailyCallLimit
  {
    if |starts| > 0 {
      TickSpacing(starts);
    }
  }

  /** Kafka's producer: the messages handed to `produce`, in order, and how many of
      them the last `flush` pushed to the brokers. */
  class Outbox {
    var produced: seq<Message>
    var flushed: nat

    constructor ()
      ensures produced == [] && flushed == 0
    {
      produced := [];
      flushed := 0;
    }

    method Produce(m: Message)
      modifies this
      ensures produced == old(produced) + [m] && flushed == old(flushed)
    {
      produced := produced + [m];
    }

    /** Blocks until every produced message is delivered. */
    method Flush()
      modifies this
      ensures produced == old(produced) && flushed == |produced|
    {
      flushed := |produced|;
    }
  }

  /** The `for state_vector in state_vectors` loop and the flush after it. An empty
      state vector raises KeyError at the key lookup, before the flush. */
  method Publish(outbox: Outbox, svs: seq<StateVector>) returns (crashed: bool)
    modifies outbox
    ensures outbox.produced == old(outbox.produced) + MessagesFor(svs[..FirstEmpty(svs)])
    ensures crashed <==> FirstEmpty(svs) < |svs|
    ensures outbox.flushed == if crashed then old(outbox.flushed) else |outbox.produced|
  {
    var i := 0;
    while i < |svs|
      invariant 0 <= i <= |svs|
      invariant forall j :: 0 <= j < i ==> |svs[j]| > 0
      invariant outbox.produced == old(outbox.produced) + MessagesFor(svs[..i])
      invariant outbox.flushed == old(outbox.flushed)
    {
      if |svs[i]| == 0 {
        assert FirstEmpty(svs) == i;
        return true;
      }
      var record := Keyed(svs[i]);
      KeyedAt(svs[i], 0);
      var key := KeyString(record["icao24"]);
      outbox.Produce(Message(key, record));
      MessagesForStep(svs, i);
      i := i + 1;
    }
    assert FirstEmpty(svs) == |svs| && svs[..|svs|] == svs;
    outbox.Flush();
    crashed := false;
  }

  /** One iteration of the producer's `while True` loop, sleep excluded: ensure a
      token, poll, and publish when `events and events.get('states')`. */
  method Tick(token: TokenInfo, outbox: Outbox, input: TickInput) returns (outcome: TickOutcome)
    modifies token, outbox
    ensures outcome.AuthExit? <==> TokenStep(old(Acquired(token.accessToken, token.expiresAt)), input).Exit?
    ensures !outcome.AuthExit? ==>
      Acquired(token.accessToken, token.expiresAt) == TokenStep(old(Acquired(token.accessToken, token.expiresAt)), input)
    ensures outcome.AuthExit? ==> outbox.produced == old(outbox.produced) && outbox.flushed == old(outbox.flushed)
    ensures !outcome.AuthExit? ==> outbox.produced == old(outbox.produced) + TickMessages(input.poll)
    ensures !outcome.AuthExit? ==>
      (outcome.KeyErrorCrash? <==> Crashes(input.poll))
    ensures if outcome.Slept? && StatesToPublish(input.poll) != [] then outbox.flushed == |outbox.produced|
      else outbox.flushed == old(outbox.flushed)
  {
    var exit := token.EnsureToken(input.checkTime, input.issueTime, input.auth);
    if exit {
      return AuthExit;
    }
    CrashesAtFirstEmpty(input.poll);
    var svs := StatesToPublish(input.poll);
    outcome := Slept;
    if svs != [] {
      var crashed := Publish(outbox, svs);
      if crashed {
        outcome := KeyErrorCrash;
      }
    }
  }

  /** The producer's `while True` loop over the given ticks, until one of them ends
      the process: it ends as `Resume` from tick 0 says, whose lemmas give why it
      stops, having produced the messages of every tick it ran whose token check
      passed. While it runs, every tick's messages are flushed before the next tick
      starts. */
  method Run(token: TokenInfo, outbox: Outbox, inputs: seq<TickInput>) returns (outcome: TickOutcome, ticks: nat)
    modifies token, outbox
    ensures var r := Resume(old(Acquired(token.accessToken, token.expiresAt)), inputs, 0);
      outcome == r.outcome && ticks == r.ticks &&
      (!outcome.AuthExit? ==> Acquired(token.accessToken, token.expiresAt) == r.token)
    ensures outbox.produced ==
      old(outbox.produced) + MessagesOf(inputs[..if outcome.AuthExit? then ticks - 1 else ticks])
    ensures outcome.Slept? && old(outbox.flushed) == |old(outbox.produced)| ==> outbox.flushed == |outbox.produced|
  {
    ghost var start := Acquired(token.accessToken, token.expiresAt);
    ghost var base := outbox.produced;
    ghost var sent: seq<Message> := [];
    ghost var allFlushed := outbox.flushed == |outbox.produced|;
    outcome, ticks := Slept, 0;
    while ticks < |inputs| && outcome.Slept?
      invariant ticks <= |inputs|
      invariant outbox.produced == base + sent
      invariant outcome.AuthExit? ==> 0 < ticks
      invariant sent == MessagesOf(inputs[..if outcome.AuthExit? then ticks - 1 else ticks])
      invariant outcome.Slept? && allFlushed ==> outbox.flushed == |outbox.produced|
      invariant outcome.Slept? ==>
        Resume(start, inputs, 0) == Resume(Acquired(token.accessToken, token.expiresAt), inputs, ticks)
      invariant !outcome.Slept? ==>
        var r := Resume(start, inputs, 0);
        outcome == r.outcome && ticks == r.ticks &&
        (!outcome.AuthExit? ==> Acquired(token.accessToken, token.expiresAt) == r.token)
    {
      outcome := Tick(token, outbox, inputs[ticks]);
      if !outcome.AuthExit? {
        MessagesOfSnoc(inputs, ticks);
        AppendAssoc(base, sent, TickMessages(inputs[ticks].poll));
        sent := sent + TickMessages(inputs[ticks].poll);
      }
      ticks := ticks + 1;
    }
  }
}
