/**
 * State vectors as they travel through the pipeline: a positional array from the
 * OpenSky API, a keyed record (the JSON object the producer publishes), and the
 * 17-column row the consumer inserts into DuckDB.
 */
module StateVectors {

  datatype Option<T> = None | Some(value: T)

  /** A JSON value. Only strings and integers matter to the pipeline (the `icao24`
      identifier and the `last_contact` timestamp); floats, arrays such as
      `sensors`, and anything else are carried along as Opaque, holding the text
      Python's `str()` gives them. */
  datatype Value = Null | Bool(b: bool) | Int(i: int) | Str(s: string) | Opaque(text: string)

  /** One positional array of the API's `states` list. */
  type StateVector = seq<Value>

  /** A Python dict from field name to value. */
  type Record = map<string, Value>

  /** The tuple handed to DuckDB. */
  type Row = seq<Value>

  /** Field names of a state vector, in the API's positional order. The optional
      18th field (category) has no name here. */
  const StateVectorKeys: seq<string> := [
    "icao24", "callsign", "origin_country", "time_position", "last_contact",
    "longitude", "latitude", "baro_altitude", "on_ground", "velocity",
    "true_track", "vertical_rate", "sensors", "geo_altitude", "squawk",
    "spi", "position_source"
  ]

  const FieldCount: nat := 17

  function Min(a: int, b: int): int { if a <= b then a else b }

  /** Python's `zip`: pairs up elements and stops at the shorter input. */
  function Zip<A, B>(xs: seq<A>, ys: seq<B>): seq<(A, B)>
  {
    seq(Min(|xs|, |ys|), i requires 0 <= i < Min(|xs|, |ys|) => (xs[i], ys[i]))
  }

  /** Python's `dict(pairs)`: pairs are entered in order, a later pair overwrites an
      earlier one with the same key. */
  function DictOf(pairs: seq<(string, Value)>): Record
  {
    if |pairs| == 0 then map[]
    else
      var last := pairs[|pairs| - 1];
      DictOf(pairs[..|pairs| - 1])[last.0 := last.1]
  }

  /** `dict(zip(state_vector_keys, sv))`: the keyed record the producer publishes. */
  function Keyed(sv: StateVector): Record
  {
    DictOf(Zip(StateVectorKeys, sv))
  }

  /** `tuple(data.get(key) for key in state_vector_keys)`: the consumer's row, with
      None for a missing key. */
  function RowOf(data: Record): (r: Row)
    ensures |r| == |StateVectorKeys| == FieldCount
  {
    seq(|StateVectorKeys|, i requires 0 <= i < |StateVectorKeys| =>
      if StateVectorKeys[i] in data then data[StateVectorKeys[i]] else Null)
  }

  ghost predicate DistinctFirsts(pairs: seq<(string, Value)>)
  {
    forall i, j :: 0 <= i < j < |pairs| ==> pairs[i].0 != pairs[j].0
  }

  /** No field name is repeated, so no field of a state vector is lost to an
      overwrite in `dict(zip(...))`. */
  lemma KeysDistinct()
    ensures |StateVectorKeys| == FieldCount
    ensures forall i, j :: 0 <= i < j < |StateVectorKeys| ==> StateVectorKeys[i] != StateVectorKeys[j]
  {
  }

  /** `dict(pairs)` has a key exactly when some pair carries it. */
  lemma {:induction false} DictOfDomain(pairs: seq<(string, Value)>, k: string)
    ensures k in DictOf(pairs) <==> exists i :: 0 <= i < |pairs| && pairs[i].0 == k
  {
    if pairs != [] {
      var n := |pairs| - 1;
      DictOfDomain(pairs[..n], k);
      if k in DictOf(pairs[..n]) {
        var i :| 0 <= i < n && pairs[..n][i].0 == k;
        assert pairs[i].0 == k;
      }
      if exists i :: 0 <= i < |pairs| && pairs[i].0 == k {
        var i :| 0 <= i < |pairs| && pairs[i].0 == k;
        if i < n { assert pairs[..n][i].0 == k; }
      }
    }
  }

  /** With distinct keys, every pair survives in `dict(pairs)` with its own value. */
  lemma {:induction false} DictOfLookup(pairs: seq<(string, Value)>, i: nat)
    requires DistinctFirsts(pairs)
    requires i < |pairs|
    ensures pairs[i].0 in DictOf(pairs) && DictOf(pairs)[pairs[i].0] == pairs[i].1
  {
    var n := |pairs| - 1;
    if i < n {
      var init := pairs[..n];
      assert DistinctFirsts(init);
      assert init[i] == pairs[i];
      DictOfLookup(init, i);
      assert pairs[n].0 != pairs[i].0;
    }
  }

  /** With distinct keys, `dict(pairs)` has one entry per pair. */
  lemma {:induction false} DictOfSize(pairs: seq<(string, Value)>)
    requires DistinctFirsts(pairs)
    ensures |DictOf(pairs)| == |pairs|
  {
    if pairs != [] {
      var n := |pairs| - 1;
      var init := pairs[..n];
      assert DistinctFirsts(init);
      DictOfSize(init);
      assert forall i :: 0 <= i < n ==> init[i].0 != pairs[n].0;
      DictOfDomain(init, pairs[n].0);
    }
  }

  /** Zipping the field names with any state vector gives pairs with distinct keys. */
  lemma ZippedKeysDistinct(sv: StateVector)
    ensures DistinctFirsts(Zip(StateVectorKeys, sv))
  {
    KeysDistinct();
  }

  /** The i-th field name is in the keyed record exactly when the state vector has an
      i-th element, and then it maps to that element. */
  lemma KeyedAt(sv: StateVector, i: nat)
    requires i < FieldCount
    ensures StateVectorKeys[i] in Keyed(sv) <==> i < |sv|
    ensures i < |sv| ==> Keyed(sv)[StateVectorKeys[i]] == sv[i]
  {
    var pairs := Zip(StateVectorKeys, sv);
    ZippedKeysDistinct(sv);
    if i < |sv| {
      DictOfLookup(pairs, i);
    } else {
      KeysDistinct();
      assert forall j :: 0 <= j < |pairs| ==> pairs[j].0 != StateVectorKeys[i];
      DictOfDomain(pairs, StateVectorKeys[i]);
    }
  }

  /** The keyed record has exactly `min(len(sv), 17)` entries, and the i-th field name
      maps to `sv[i]`; any element past the 17th (the category) is dropped. */
  lemma KeyedEntries(sv: StateVector)
    ensures |Keyed(sv)| == Min(|sv|, FieldCount)
    ensures forall i :: 0 <= i < Min(|sv|, FieldCount) ==>
      StateVectorKeys[i] in Keyed(sv) && Keyed(sv)[StateVectorKeys[i]] == sv[i]
    ensures forall k :: k in Keyed(sv) ==> exists i :: 0 <= i < Min(|sv|, FieldCount) && StateVectorKeys[i] == k
  {
    var pairs := Zip(StateVectorKeys, sv);
    ZippedKeysDistinct(sv);
    DictOfSize(pairs);
    forall i | 0 <= i < Min(|sv|, FieldCount)
      ensures StateVectorKeys[i] in Keyed(sv) && Keyed(sv)[StateVectorKeys[i]] == sv[i]
    {
      KeyedAt(sv, i);
    }
    forall k | k in Keyed(sv) ensures exists i :: 0 <= i < Min(|sv|, FieldCount) && StateVectorKeys[i] == k {
      DictOfDomain(pairs, k);
      var i :| 0 <= i < |pairs| && pairs[i].0 == k;
      assert StateVectorKeys[i] == k;
    }
  }

  /** Consumer row of a producer record: position i holds `sv[i]` when the state
      vector has it and None otherwise. A 17-field state vector comes back unchanged,
      an 18-field one loses its category. */
  lemma RoundTrip(sv: StateVector)
    ensures forall i :: 0 <= i < FieldCount ==> RowOf(Keyed(sv))[i] == (if i < |sv| then sv[i] else Null)
    ensures |sv| == FieldCount ==> RowOf(Keyed(sv)) == sv
    ensures |sv| > FieldCount ==> RowOf(Keyed(sv)) == sv[..FieldCount]
  {
    var row := RowOf(Keyed(sv));
    forall i | 0 <= i < FieldCount ensures row[i] == (if i < |sv| then sv[i] else Null) {
      KeyedAt(sv, i);
    }
  }

  /** Regrouping a concatenation, kept apart so that larger proofs call it instead of
      rediscovering it among their other facts. */
  lemma AppendAssoc<T>(a: seq<T>, b: seq<T>, c: seq<T>)
    ensures a + b + c == a + (b + c)
  {
  }
}
