/**
 * The DuckDB table `airspace`, keyed by (icao24, last_contact), and the consumer's
 * bulk write `executemany("INSERT OR REPLACE ...", rows)`, taken as one
 * INSERT OR REPLACE per row, in order.
 */
module Store {
  import opened StateVectors

  /** Primary key (icao24, last_contact). */
  type Key = (string, int)

  type Table = map<Key, Row>

  /** Column positions of the key fields in a row. */
  const IcaoColumn: nat := 0
  const LastContactColumn: nat := 4

  /** Column positions of the other NOT NULL columns. */
  const OnGroundColumn: nat := 8
  const SpiColumn: nat := 15

  /** The primary key of a row, or None when the row cannot be inserted: the table
      declares both key columns NOT NULL, and the model takes icao24 to be a string
      and last_contact an integer. */
  function KeyOf(row: Row): Option<Key>
  {
    if |row| > LastContactColumn && row[IcaoColumn].Str? && row[LastContactColumn].Int? then
      Some((row[IcaoColumn].s, row[LastContactColumn].i))
    else None
  }

  /** The row has a primary key and a value in every other NOT NULL column
      (on_ground and spi). */
  predicate Admissible(row: Row)
  {
    KeyOf(row).Some? && |row| > SpiColumn && row[OnGroundColumn] != Null && row[SpiColumn] != Null
  }

  /** Every row of the batch can be inserted. */
  predicate Insertable(rows: seq<Row>)
  {
    forall i :: 0 <= i < |rows| ==> Admissible(rows[i])
  }

  /** The keys a batch writes. */
  function KeysOf(rows: seq<Row>): (ks: set<Key>)
    ensures forall k :: k in ks <==> exists i :: 0 <= i < |rows| && KeyOf(rows[i]) == Some(k)
  {
    if |rows| == 0 then {}
    else
      var n := |rows| - 1;
      var ks := KeysOf(rows[..n]);
      assert forall i :: 0 <= i < n ==> rows[..n][i] == rows[i];
      match KeyOf(rows[n])
      case Some(k) => ks + {k}
      case None => ks
  }

  /** Sequential INSERT OR REPLACE of every row of the batch. */
  function Upsert(t: Table, rows: seq<Row>): Table
    requires Insertable(rows)
  {
    if |rows| == 0 then t
    else
      var n := |rows| - 1;
      Upsert(t, rows[..n])[KeyOf(rows[n]).value := rows[n]]
  }

  /** Index of the last row of the batch with key k. */
  function LastWith(rows: seq<Row>, k: Key): (j: nat)
    requires k in KeysOf(rows)
    ensures j < |rows| && KeyOf(rows[j]) == Some(k)
    ensures forall j' :: j < j' < |rows| ==> KeyOf(rows[j']) != Some(k)
  {
    LastBefore(rows, k, |rows|)
  }

  function LastBefore(rows: seq<Row>, k: Key, n: nat): (j: nat)
    requires n <= |rows|
    requires exists i :: 0 <= i < n && KeyOf(rows[i]) == Some(k)
    ensures j < n && KeyOf(rows[j]) == Some(k)
    ensures forall j' :: j < j' < n ==> KeyOf(rows[j']) != Some(k)
  {
    if KeyOf(rows[n - 1]) == Some(k) then n - 1 else LastBefore(rows, k, n - 1)
  }

  /** After a batch, a key the batch writes holds the batch's last row with that
      key; every other key is as it was. */
  lemma {:induction false} UpsertAt(t: Table, rows: seq<Row>, k: Key)
    requires Insertable(rows)
    ensures k in Upsert(t, rows) <==> k in t || k in KeysOf(rows)
    ensures k in KeysOf(rows) ==> Upsert(t, rows)[k] == rows[LastWith(rows, k)]
    ensures k !in KeysOf(rows) && k in t ==> Upsert(t, rows)[k] == t[k]
  {
    if rows != [] {
      var n := |rows| - 1;
      assert Insertable(rows[..n]) by {
        assert forall i :: 0 <= i < n ==> rows[..n][i] == rows[i];
      }
      UpsertAt(t, rows[..n], k);
      assert Upsert(t, rows) == Upsert(t, rows[..n])[KeyOf(rows[n]).value := rows[n]];
      assert KeysOf(rows) == KeysOf(rows[..n]) + {KeyOf(rows[n]).value};
      if KeyOf(rows[n]) != Some(k) && k in KeysOf(rows) {
        var j := LastWith(rows, k);
        assert rows[..n][j] == rows[j];
        assert j == LastWith(rows[..n], k);
      }
    }
  }

  /** Writing a batch after a partial or earlier write whose keys the batch covers
      gives the same table as writing the batch alone. */
  lemma UpsertSupersedes(t: Table, earlier: seq<Row>, rows: seq<Row>)
    requires Insertable(earlier) && Insertable(rows)
    requires KeysOf(earlier) <= KeysOf(rows)
    ensures Upsert(Upsert(t, earlier), rows) == Upsert(t, rows)
  {
    var a := Upsert(Upsert(t, earlier), rows);
    var b := Upsert(t, rows);
    forall k ensures (k in a <==> k in b) && (k in a ==> a[k] == b[k]) {
      UpsertAt(Upsert(t, earlier), rows, k);
      UpsertAt(t, rows, k);
      UpsertAt(t, earlier, k);
    }
  }

  /** Applying the same batch twice yields the same table as applying it once. */
  lemma UpsertIdempotent(t: Table, rows: seq<Row>)
    requires Insertable(rows)
    ensures Upsert(Upsert(t, rows), rows) == Upsert(t, rows)
  {
    UpsertSupersedes(t, rows, rows);
  }

  /** Writing two batches in turn is writing their concatenation. */
  lemma {:induction false} UpsertConcat(t: Table, a: seq<Row>, b: seq<Row>)
    requires Insertable(a) && Insertable(b)
    ensures Insertable(a + b)
    ensures Upsert(t, a + b) == Upsert(Upsert(t, a), b)
  {
    if b == [] {
      assert a + b == a;
    } else {
      var n := |b| - 1;
      assert Insertable(b[..n]) by {
        assert forall i :: 0 <= i < n ==> b[..n][i] == b[i];
      }
      UpsertConcat(t, a, b[..n]);
      assert (a + b)[..|a + b| - 1] == a + b[..n];
    }
  }
}
