/**
 * Producer and consumer joined through the `airspace-events` topic: a published
 * message's value is `json.dumps` of the keyed record, which the consumer's
 * `json.loads` turns back into the same object.
 */
module Pipeline {
  import opened StateVectors
  import opened Store
  import opened Producer
  import opened Consumer

  /** The delivery the consumer polls for a published message. */
  function Deliver(m: Message): (d: Delivery)
    ensures Carries(d) && d.payload.doc.fields == m.value
  {
    Received(Parsed(Object(m.value)))
  }

  /** Published messages in topic order, each polled in an iteration whose DuckDB
      write (if any) would see the store as `storeUp` says. */
  function Deliveries(ms: seq<Message>, storeUp: bool): (events: seq<Event>)
    ensures |events| == |ms|
    ensures forall i :: 0 <= i < |ms| ==> events[i].delivery == Deliver(ms[i])
  {
    seq(|ms|, i requires 0 <= i < |ms| => Event(Deliver(ms[i]), storeUp))
  }

  /** State vectors with all 17 fields that the table accepts as rows. */
  predicate AllComplete(svs: seq<StateVector>)
  {
    forall i :: 0 <= i < |svs| ==> |svs[i]| == FieldCount && Admissible(svs[i])
  }

  /** The consumer rows of one tick's messages are the polled state vectors themselves,
      whatever they hold, a null icao24 included. */
  lemma RowsOfPublished(svs: seq<StateVector>, storeUp: bool)
    requires forall i :: 0 <= i < |svs| ==> |svs[i]| == FieldCount
    ensures Appended(Deliveries(MessagesFor(svs), storeUp)) == svs
  {
    var events := Deliveries(MessagesFor(svs), storeUp);
    AppendedRows(events);
    forall i | 0 <= i < |svs| ensures Appended(events)[i] == svs[i] {
      RoundTrip(svs[i]);
    }
  }

  /** Each message is keyed by `ICAO_` and its aircraft's icao24, whenever that icao24
      is a string. */
  lemma PublishedKeys(svs: seq<StateVector>)
    requires forall i :: 0 <= i < |svs| ==> |svs[i]| > 0 && svs[i][IcaoColumn].Str?
    ensures forall i :: 0 <= i < |svs| ==> MessagesFor(svs)[i].key == "ICAO_" + svs[i][IcaoColumn].s
  {
    forall i | 0 <= i < |svs| ensures MessagesFor(svs)[i].key == "ICAO_" + svs[i][IcaoColumn].s {
      MessageKeyOfStateVector(svs[i]);
    }
  }

  /** A batch of fewer than 2000 complete state vectors, published and then consumed by
      a freshly started consumer that is stopped afterwards: no write happens in the
      loop, and the shutdown write hands DuckDB exactly the polled state vectors, in
      order, once. */
  lemma EndToEnd(existing: Table, svs: seq<StateVector>, storeUp: bool, finalStoreUp: bool)
    requires 0 < |svs| < FlushThreshold
    requires AllComplete(svs)
    ensures Insertable(svs)
    ensures var r := Consumer.Run(Initial(existing), Deliveries(MessagesFor(svs), storeUp), finalStoreUp);
      r.attempts == [Attempt(svs, finalStoreUp)] &&
      r.processed == (if finalStoreUp then |svs| else 0) &&
      r.table == (if finalStoreUp then Upsert(existing, svs) else existing)
  {
    var events := Deliveries(MessagesFor(svs), storeUp);
    RowsOfPublished(svs, storeUp);
    assert Insertable(svs);
    SingleFinalWrite(existing, events, finalStoreUp);
  }

  /** An aircraft reported twice with the same last_contact, and another report with a
      different key in between: both reports of the first share one message key, and
      after shutdown the table holds one row per (icao24, last_contact), the later
      report having replaced the earlier one. */
  lemma RepeatedReportReplaced(first: StateVector, other: StateVector, again: StateVector)
    requires |first| == |other| == |again| == FieldCount
    requires Admissible(first) && Admissible(other) && Admissible(again)
    requires KeyOf(again) == KeyOf(first) != KeyOf(other)
    ensures var ms := MessagesFor([first, other, again]);
      ms[0].key == ms[2].key
    ensures var r := Consumer.Run(Initial(map[]), Deliveries(MessagesFor([first, other, again]), true), true);
      r.processed == 3 &&
      r.table == map[KeyOf(again).value := again, KeyOf(other).value := other]
  {
    var svs := [first, other, again];
    assert AllComplete(svs);
    PublishedKeys(svs);
    EndToEnd(map[], svs, true, true);
    var kf, ko := KeyOf(first).value, KeyOf(other).value;
    assert svs[..2][..1] == [first] && [first][..0] == [];
    assert Upsert(map[], [first]) == map[kf := first];
    assert Upsert(map[], svs[..2]) == map[kf := first, ko := other];
    assert Upsert(map[], svs) == map[kf := first, ko := other][kf := again];
    assert map[kf := first, ko := other][kf := again] == map[kf := again, ko := other];
  }
}
