/**
 * The consumer's `main` loop: every good Kafka message becomes a 17-column row
 * appended to `events_to_insert`; once the buffer holds 2000 rows it is written to
 * DuckDB in one `executemany` and, on success, counted in `messages_processed` and
 * emptied; the `finally` block gives a non-empty buffer one last write.
 *
 * The specification is a set of functions on ConsumerState; the class
 * ConsumerLoop is the imperative loop, proved to follow them. The outcome of each
 * DuckDB write is a parameter (`storeUp`); the ghost log `attempts` records every
 * `executemany` call and whether it was committed.
 */
module Consumer {
  import opened StateVectors
  import opened Store

  /** `len(events_to_insert) >= 2000` triggers a write. */
  const FlushThreshold: nat := 2000

  /** What `json.loads` yields for a message value. */
  datatype Document = Object(fields: Record) | NotObject   // NotObject: a list, string, ...

  datatype Payload = Parsed(doc: Document) | Unparsable    // Unparsable: not UTF-8 JSON

  /** One `consumer.poll(timeout = 1)`. */
  datatype Delivery = NoMessage | DeliveryError | Received(payload: Payload)

  /** One iteration's input: the delivery, and whether a DuckDB write made in that
      iteration would go through. */
  datatype Event = Event(delivery: Delivery, storeUp: bool)

  /** One `executemany` call: the rows it was given and whether it was committed. */
  datatype Attempt = Attempt(rows: seq<Row>, committed: bool)

  datatype ConsumerState = ConsumerState(buffer: seq<Row>, processed: nat, table: Table, attempts: seq<Attempt>)

  /** A consumer that has just connected to a table holding `existing`. */
  function Initial(existing: Table): ConsumerState
  {
    ConsumerState([], 0, existing, [])
  }

  /** `executemany` followed by `commit` goes through when the store is up and every
      row meets the table's NOT NULL and primary-key constraints. When it does not,
      the table is taken to be left as it was. */
  predicate WriteSucceeds(rows: seq<Row>, storeUp: bool)
  {
    storeUp && Insertable(rows)
  }

  /** A delivery carrying a JSON object: the only kind that yields a row. */
  predicate Carries(d: Delivery)
  {
    d.Received? && d.payload.Parsed? && d.payload.doc.Object?
  }

  /** `json.loads` at the top of the branch sits outside the inner `try`: a value that
      does not parse ends the loop (through the `finally` block). */
  predicate Escapes(d: Delivery)
  {
    d.Received? && d.payload.Unparsable?
  }

  /** The rows a delivery appends to the buffer. */
  function RowsOf(d: Delivery): seq<Row>
  {
    if Carries(d) then [RowOf(d.payload.doc.fields)] else []
  }

  /** Rows of all committed write attempts, in commit order. */
  function Committed(attempts: seq<Attempt>): seq<Row>
  {
    if |attempts| == 0 then []
    else
      var n := |attempts| - 1;
      Committed(attempts[..n]) + (if attempts[n].committed then attempts[n].rows else [])
  }

  /** One iteration of the `while True` loop. No message, a delivery error, a JSON
      value that is not an object (whose `.get` raises inside the inner `try`) and an
      unparsable value (which ends the loop) change nothing. */
  function Step(s: ConsumerState, d: Delivery, storeUp: bool): (r: ConsumerState)
    ensures !Carries(d) ==> r == s
  {
    if !Carries(d) then s
    else
      var buffer := s.buffer + [RowOf(d.payload.doc.fields)];
      if |buffer| < FlushThreshold then s.(buffer := buffer)
      else if WriteSucceeds(buffer, storeUp) then
        ConsumerState([], s.processed + |buffer|, Upsert(s.table, buffer), s.attempts + [Attempt(buffer, true)])
      else
        s.(buffer := buffer, attempts := s.attempts + [Attempt(buffer, false)])
  }

  /** The `finally` block: one write of a non-empty buffer. The buffer itself is not
      cleared there. */
  function FinalFlush(s: ConsumerState, storeUp: bool): ConsumerState
  {
    if |s.buffer| == 0 then s
    else if WriteSucceeds(s.buffer, storeUp) then
      s.(processed := s.processed + |s.buffer|, table := Upsert(s.table, s.buffer),
         attempts := s.attempts + [Attempt(s.buffer, true)])
    else
      s.(attempts := s.attempts + [Attempt(s.buffer, false)])
  }

  /** The loop over the given events, up to an unparsable message or the interrupt
      that follows the last event. */
  function Loop(s: ConsumerState, events: seq<Event>): ConsumerState
    decreases |events|
  {
    if |events| == 0 || Escapes(events[0].delivery) then s
    else Loop(Step(s, events[0].delivery, events[0].storeUp), events[1..])
  }

  /** `main` from the loop on: the loop, then the `finally` block. */
  function Run(s: ConsumerState, events: seq<Event>, finalStoreUp: bool): ConsumerState
  {
    FinalFlush(Loop(s, events), finalStoreUp)
  }

  /** The rows the loop appends, in order, before it ends. */
  function Appended(events: seq<Event>): seq<Row>
    decreases |events|
  {
    if |events| == 0 || Escapes(events[0].delivery) then []
    else RowsOf(events[0].delivery) + Appended(events[1..])
  }

  /** `messages_processed` counts exactly the rows of committed batches, and the table
      is the starting table with those batches upserted in order. */
  ghost predicate Accounted(s: ConsumerState, existing: Table)
  {
    s.processed == |Committed(s.attempts)| &&
    Insertable(Committed(s.attempts)) &&
    s.table == Upsert(existing, Committed(s.attempts))
  }

  lemma CommittedSnoc(attempts: seq<Attempt>, a: Attempt)
    ensures Committed(attempts + [a]) == Committed(attempts) + (if a.committed then a.rows else [])
  {
    assert (attempts + [a])[..|attempts|] == attempts;
  }

  /** A successful write at the 2000th row empties the buffer, so with writes that go
      through the buffer stays below the threshold after every iteration. */
  lemma BufferBelowThreshold(s: ConsumerState, d: Delivery, storeUp: bool)
    requires |s.buffer| < FlushThreshold
    requires WriteSucceeds(s.buffer + RowsOf(d), storeUp)
    ensures |Step(s, d, storeUp).buffer| < FlushThreshold
  {
  }

  /** Each iteration preserves the accounting of committed rows. */
  lemma StepAccounted(s: ConsumerState, d: Delivery, storeUp: bool, existing: Table)
    requires Accounted(s, existing)
    ensures Accounted(Step(s, d, storeUp), existing)
  {
    if Carries(d) {
      var buffer := s.buffer + [RowOf(d.payload.doc.fields)];
      if |buffer| >= FlushThreshold {
        var ok := WriteSucceeds(buffer, storeUp);
        CommittedSnoc(s.attempts, Attempt(buffer, ok));
        if ok {
          UpsertConcat(existing, Committed(s.attempts), buffer);
          assert Committed(s.attempts + [Attempt(buffer, ok)]) == Committed(s.attempts) + buffer;
        } else {
          assert Committed(s.attempts + [Attempt(buffer, ok)]) == Committed(s.attempts);
        }
      }
    }
  }

  /** The final write preserves the accounting of committed rows. */
  lemma FinalFlushAccounted(s: ConsumerState, storeUp: bool, existing: Table)
    requires Accounted(s, existing)
    ensures Accounted(FinalFlush(s, storeUp), existing)
  {
    if |s.buffer| > 0 {
      var ok := WriteSucceeds(s.buffer, storeUp);
      CommittedSnoc(s.attempts, Attempt(s.buffer, ok));
      if ok {
        UpsertConcat(existing, Committed(s.attempts), s.buffer);
        assert Committed(s.attempts + [Attempt(s.buffer, ok)]) == Committed(s.attempts) + s.buffer;
      } else {
        assert Committed(s.attempts + [Attempt(s.buffer, ok)]) == Committed(s.attempts);
      }
    }
  }

  lemma {:induction false} LoopAccounted(s: ConsumerState, events: seq<Event>, existing: Table)
    requires Accounted(s, existing)
    ensures Accounted(Loop(s, events), existing)
    decreases |events|
  {
    if |events| > 0 && !Escapes(events[0].delivery) {
      StepAccounted(s, events[0].delivery, events[0].storeUp, existing);
      LoopAccounted(Step(s, events[0].delivery, events[0].storeUp), events[1..], existing);
    }
  }

  /** Over a whole run, from startup to shutdown, `messages_processed` equals the
      number of rows in committed batches and the table holds the existing rows with
      those batches upserted in commit order. */
  lemma RunAccounted(existing: Table, events: seq<Event>, finalStoreUp: bool)
    ensures Accounted(Run(Initial(existing), events, finalStoreUp), existing)
  {
    LoopAccounted(Initial(existing), events, existing);
    FinalFlushAccounted(Loop(Initial(existing), events), finalStoreUp, existing);
  }

  /** One iteration loses and duplicates no row: committed rows followed by the
      buffer grow by exactly the rows the delivery carries. */
  lemma StepConserves(s: ConsumerState, d: Delivery, storeUp: bool)
    ensures var r := Step(s, d, storeUp);
      Committed(r.attempts) + r.buffer == Committed(s.attempts) + s.buffer + RowsOf(d)
  {
    if Carries(d) {
      var buffer := s.buffer + [RowOf(d.payload.doc.fields)];
      if |buffer| >= FlushThreshold {
        CommittedSnoc(s.attempts, Attempt(buffer, WriteSucceeds(buffer, storeUp)));
      }
    }
  }

  /** No row is lost or duplicated by the loop: committed rows followed by the buffer
      are the rows received, in order. */
  lemma {:induction false} LoopConserves(s: ConsumerState, events: seq<Event>)
    ensures var r := Loop(s, events);
      Committed(r.attempts) + r.buffer == Committed(s.attempts) + s.buffer + Appended(events)
    decreases |events|
  {
    if |events| == 0 || Escapes(events[0].delivery) {
      assert Appended(events) == [];
    } else {
      var d := events[0].delivery;
      var s' := Step(s, d, events[0].storeUp);
      StepConserves(s, d, events[0].storeUp);
      LoopConserves(s', events[1..]);
      var before := Committed(s.attempts) + s.buffer;
      assert Appended(events) == RowsOf(d) + Appended(events[1..]);
      AppendAssoc(before, RowsOf(d), Appended(events[1..]));
    }
  }

  /** Fewer than 2000 rows in all trigger no write, however many empty polls,
      delivery errors and non-object values come between them: the loop only
      appends. */
  lemma {:induction false} NoWriteBelowThreshold(s: ConsumerState, events: seq<Event>)
    requires |s.buffer| + |Appended(events)| < FlushThreshold
    ensures Loop(s, events) == s.(buffer := s.buffer + Appended(events))
    decreases |events|
  {
    if |events| == 0 || Escapes(events[0].delivery) {
      assert s.buffer + Appended(events) == s.buffer;
    } else {
      var s' := Step(s, events[0].delivery, events[0].storeUp);
      assert Appended(events) == RowsOf(events[0].delivery) + Appended(events[1..]);
      NoWriteBelowThreshold(s', events[1..]);
      assert s.buffer + Appended(events) == s'.buffer + Appended(events[1..]);
    }
  }

  /** When every delivery carries an object, the loop appends one row per delivery,
      each the row of that delivery's record. */
  lemma {:induction false} AppendedRows(events: seq<Event>)
    requires forall i :: 0 <= i < |events| ==> Carries(events[i].delivery)
    ensures |Appended(events)| == |events|
    ensures forall i :: 0 <= i < |events| ==>
      Carries(events[i].delivery) && Appended(events)[i] == RowOf(events[i].delivery.payload.doc.fields)
    decreases |events|
  {
    if |events| > 0 {
      AppendedRows(events[1..]);
      assert forall i :: 0 < i < |events| ==> events[1..][i - 1] == events[i];
    }
  }

  /** From an empty buffer, the first 1999 rows cause no write, whatever other
      deliveries come between them; the message carrying the 2000th row causes
      exactly one write of all 2000 rows, after which the buffer is empty. */
  lemma ThresholdFlush(existing: Table, events: seq<Event>)
    requires |events| > 0
    requires forall i :: 0 <= i < |events| ==> !Escapes(events[i].delivery)
    requires Carries(events[|events| - 1].delivery)
    requires |Appended(events)| == FlushThreshold
    requires WriteSucceeds(Appended(events), events[|events| - 1].storeUp)
    ensures var early := Loop(Initial(existing), events[..|events| - 1]);
      early.attempts == [] && early.processed == 0 && early.table == existing &&
      early.buffer == Appended(events[..|events| - 1]) && |early.buffer| == FlushThreshold - 1
    ensures Loop(Initial(existing), events) ==
      ConsumerState([], FlushThreshold, Upsert(existing, Appended(events)), [Attempt(Appended(events), true)])
  {
    var n := |events| - 1;
    var first := events[..n];
    var last := events[n..];
    var s0 := Initial(existing);
    assert first + last == events;
    AppendedSplit(first, last);
    assert last[1..] == [];
    assert Appended(last) == [RowOf(events[n].delivery.payload.doc.fields)];
    NoWriteBelowThreshold(s0, first);
    var early := Loop(s0, first);
    LoopSplit(s0, first, last);
    assert Loop(early, last) == Step(early, events[n].delivery, events[n].storeUp);
    assert early.buffer + Appended(last) == Appended(events);
  }

  lemma {:induction false} LoopSplit(s: ConsumerState, a: seq<Event>, b: seq<Event>)
    requires forall i :: 0 <= i < |a| ==> !Escapes(a[i].delivery)
    ensures Loop(s, a + b) == Loop(Loop(s, a), b)
    decreases |a|
  {
    if |a| > 0 {
      assert (a + b)[0] == a[0] && (a + b)[1..] == a[1..] + b;
      LoopSplit(Step(s, a[0].delivery, a[0].storeUp), a[1..], b);
    } else {
      assert a + b == b;
    }
  }

  lemma {:induction false} AppendedSplit(a: seq<Event>, b: seq<Event>)
    requires forall i :: 0 <= i < |a| ==> !Escapes(a[i].delivery)
    ensures Appended(a + b) == Appended(a) + Appended(b)
    decreases |a|
  {
    if |a| > 0 {
      assert (a + b)[0] == a[0] && (a + b)[1..] == a[1..] + b;
      AppendedSplit(a[1..], b);
    } else {
      assert a + b == b;
    }
  }

  /** A run that receives fewer than 2000 rows in all, from startup to shutdown, makes
      exactly one write, however many polls come up empty: the `finally` block's, of every row received, in order. */
  lemma SingleFinalWrite(existing: Table, events: seq<Event>, finalStoreUp: bool)
    requires 0 < |Appended(events)| < FlushThreshold
    ensures var r := Run(Initial(existing), events, finalStoreUp);
      var rows := Appended(events);
      r.buffer == rows &&
      r.attempts == [Attempt(rows, WriteSucceeds(rows, finalStoreUp))] &&
      r.processed == (if WriteSucceeds(rows, finalStoreUp) then |rows| else 0) &&
      r.table == (if WriteSucceeds(rows, finalStoreUp) then Upsert(existing, rows) else existing)
  {
    NoWriteBelowThreshold(Initial(existing), events);
    assert [] + Appended(events) == Appended(events);
  }

  /** A failed write leaves the buffer (with the new row), the counter and the table
      as they were; the next good message retries with the whole, larger buffer. */
  lemma FailedWriteRetained(s: ConsumerState, d: Delivery, storeUp: bool, next: Delivery, nextStoreUp: bool)
    requires Carries(d) && Carries(next)
    requires |s.buffer| + 1 >= FlushThreshold
    requires !WriteSucceeds(s.buffer + RowsOf(d), storeUp)
    ensures var r := Step(s, d, storeUp);
      r.buffer == s.buffer + RowsOf(d) && r.processed == s.processed && r.table == s.table &&
      r.attempts == s.attempts + [Attempt(r.buffer, false)] &&
      Step(r, next, nextStoreUp).attempts ==
        r.attempts + [Attempt(s.buffer + RowsOf(d) + RowsOf(next), WriteSucceeds(s.buffer + RowsOf(d) + RowsOf(next), nextStoreUp))]
  {
  }

  /** On shutdown a non-empty buffer of n rows gets exactly one write of those n rows;
      if it goes through, `messages_processed` grows by n and the table takes the
      rows, and if not, only the attempt is recorded. The buffer is not cleared. An
      empty buffer is not written. */
  lemma FinalFlushOnce(s: ConsumerState, storeUp: bool)
    ensures |s.buffer| == 0 ==> FinalFlush(s, storeUp) == s
    ensures var r := FinalFlush(s, storeUp);
      |s.buffer| > 0 ==>
        r.attempts == s.attempts + [Attempt(s.buffer, WriteSucceeds(s.buffer, storeUp))] &&
        r.processed == s.processed + (if WriteSucceeds(s.buffer, storeUp) then |s.buffer| else 0) &&
        Committed(r.attempts) == Committed(s.attempts) + (if WriteSucceeds(s.buffer, storeUp) then s.buffer else []) &&
        r.buffer == s.buffer &&
        r.table == (if WriteSucceeds(s.buffer, storeUp) then Upsert(s.table, s.buffer) else s.table)
  {
    if |s.buffer| > 0 {
      CommittedSnoc(s.attempts, Attempt(s.buffer, WriteSucceeds(s.buffer, storeUp)));
    }
  }

  /** A row the table rejects (a null icao24, which the producer publishes as
      `ICAO_None`, or a missing last_contact, on_ground or spi) never leaves the
      buffer: from then on no write commits, neither in the loop nor at shutdown. */
  lemma {:induction false} PoisonedBufferNeverCommits(s: ConsumerState, events: seq<Event>, finalStoreUp: bool)
    requires !Insertable(s.buffer)
    ensures var r := Run(s, events, finalStoreUp);
      Committed(r.attempts) == Committed(s.attempts) && r.processed == s.processed && r.table == s.table
    decreases |events|
  {
    if |events| == 0 || Escapes(events[0].delivery) {
      if |s.buffer| > 0 {
        CommittedSnoc(s.attempts, Attempt(s.buffer, false));
      }
    } else {
      var d := events[0].delivery;
      var s' := Step(s, d, events[0].storeUp);
      assert !Insertable(s'.buffer) && Committed(s'.attempts) == Committed(s.attempts) by {
        if Carries(d) {
          var buffer := s.buffer + [RowOf(d.payload.doc.fields)];
          var i :| 0 <= i < |s.buffer| && !Admissible(s.buffer[i]);
          assert buffer[i] == s.buffer[i];
          if |buffer| >= FlushThreshold {
            CommittedSnoc(s.attempts, Attempt(buffer, false));
          }
        }
      }
      PoisonedBufferNeverCommits(s', events[1..], finalStoreUp);
    }
  }

  /** The consumer process: `events_to_insert`, `messages_processed` and the DuckDB
      table, with the ghost log of write attempts. */
  class ConsumerLoop {
    var eventsToInsert: seq<Row>
    var messagesProcessed: nat
    var table: Table
    ghost var attempts: seq<Attempt>

    ghost function Model(): ConsumerState
      reads this
    {
      ConsumerState(eventsToInsert, messagesProcessed, table, attempts)
    }

    /** Connected to DuckDB, with the `airspace` table holding `existing`. */
    constructor (existing: Table)
      ensures Model() == Initial(existing)
    {
      eventsToInsert := [];
      messagesProcessed := 0;
      table := existing;
      attempts := [];
    }

    /** `con.executemany(insert_query, rows)` then `con.commit()`: one INSERT OR REPLACE
        per row, in order, into a staged copy that the commit installs. */
    method WriteBatch(rows: seq<Row>, storeUp: bool) returns (ok: bool)
      modifies this
      ensures ok == WriteSucceeds(rows, storeUp)
      ensures table == if ok then Upsert(old(table), rows) else old(table)
      ensures attempts == old(attempts) + [Attempt(rows, ok)]
      ensures eventsToInsert == old(eventsToInsert) && messagesProcessed == old(messagesProcessed)
    {
      var staged := table;
      var i := 0;
      ok := storeUp;
      while ok && i < |rows|
        invariant 0 <= i <= |rows|
        invariant Insertable(rows[..i])
        invariant ok ==> staged == Upsert(table, rows[..i])
        invariant !ok ==> !WriteSucceeds(rows, storeUp)
      {
        if Admissible(rows[i]) {
          assert rows[..i + 1][..i] == rows[..i];
          staged := staged[KeyOf(rows[i]).value := rows[i]];
          i := i + 1;
        } else {
          ok := false;
        }
      }
      if ok {
        assert rows[..i] == rows;
        table := staged;
      }
      attempts := attempts + [Attempt(rows, ok)];
    }

    /** The body of the `while True` loop for one polled delivery; `escaped` when the
        outer `json.loads` raises. */
    method Receive(d: Delivery, storeUp: bool) returns (escaped: bool)
      modifies this
      ensures escaped == Escapes(d)
      ensures Model() == Step(old(Model()), d, storeUp)
    {
      escaped := false;
      match d {
        case NoMessage =>
        case DeliveryError =>
        case Received(payload) =>
          match payload {
            case Unparsable =>
              escaped := true;
            case Parsed(doc) =>
              match doc {
                case NotObject =>
                case Object(fields) =>
                  eventsToInsert := eventsToInsert + [RowOf(fields)];
                  if |eventsToInsert| >= FlushThreshold {
                    var ok := WriteBatch(eventsToInsert, storeUp);
                    if ok {
                      messagesProcessed := messagesProcessed + |eventsToInsert|;
                      eventsToInsert := [];
                    }
                  }
              }
          }
      }
    }

    /** The `finally` block's write of a non-empty buffer. */
    method Close(storeUp: bool)
      modifies this
      ensures Model() == FinalFlush(old(Model()), storeUp)
    {
      if |eventsToInsert| > 0 {
        var ok := WriteBatch(eventsToInsert, storeUp);
        if ok {
          messagesProcessed := messagesProcessed + |eventsToInsert|;
        }
      }
    }

    /** `main` from `events_to_insert = []` on: the loop until an unparsable message
        or the interrupt after the last event, then the `finally` block. */
    method Serve(events: seq<Event>, finalStoreUp: bool) returns (consumed: nat)
      modifies this
      ensures Model() == Run(old(Model()), events, finalStoreUp)
      ensures consumed <= |events|
      ensures forall i :: 0 <= i < consumed ==> !Escapes(events[i].delivery)
      ensures consumed < |events| ==> Escapes(events[consumed].delivery)
    {
      consumed := 0;
      while consumed < |events|
        invariant consumed <= |events|
        invariant Loop(old(Model()), events) == Loop(Model(), events[consumed..])
        invariant forall i :: 0 <= i < consumed ==> !Escapes(events[i].delivery)
      {
        var escaped := Receive(events[consumed].delivery, events[consumed].storeUp);
        if escaped {
          break;
        }
        assert events[consumed..][1..] == events[consumed + 1..];
        consumed := consumed + 1;
      }
      Close(finalStoreUp);
    }
  }
}
