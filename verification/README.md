# OpenSky airspace ingestion pipeline, modelled in Dafny

The system polls the OpenSky Network state-vector API for a fixed bounding box every
22 seconds and publishes each aircraft's state vector to the Kafka topic
`airspace-events`. A consumer reads that topic and stores the records in the DuckDB
table `airspace`, keyed by (icao24, last_contact).

This project models the two halves of that pipeline and the record shaping between
them:

- **`state_vectors.dfy`** (module `StateVectors`) covers state vectors and the two
  shapes they take. The first is the producer's record `dict(zip(state_vector_keys, sv))`,
  built from Python's `zip` and `dict` as written. The second is the consumer's 17-column
  row. It also holds the round trip from one to the other.
- **`store.dfy`** (module `Store`) models the `airspace` table as a map from
  (icao24, last_contact) to a row. A bulk `executemany` of `INSERT OR REPLACE` is one
  upsert per row, in order. The module also defines which rows the table accepts: those
  with a primary key and values in the NOT NULL columns.
- **`token.dfy`** (module `Token`) models the global `token_info` dict. The class
  `TokenInfo` holds `get_token` and the refresh check of `get_events`. Both clock
  readings and the auth server's reply are parameters.
- **`producer.dfy`** (module `Producer`) models one producer tick and the `while True`
  loop. A tick checks the token, turns the poll result into keyed messages, calls
  `produce` per state vector, then `flush`. Kafka's producer is the class `Outbox`.
  The module also covers the daily poll budget.
- **`consumer.dfy`** (module `Consumer`) models the consumer's loop. It works in three
  parts:
  - The loop is specified by functions on a `ConsumerState` value: the `events_to_insert`
    buffer, `messages_processed`, the table, and a log of write attempts.
  - The class `ConsumerLoop` implements the loop imperatively and is proved to follow
    those functions.
  - The final write in the `finally` block runs when the loop ends.
- **`pipeline.dfy`** (module `Pipeline`) joins the two halves. Messages the producer
  publishes are delivered to the consumer, and the rows that reach DuckDB are the polled
  state vectors.

Inputs the code takes from the outside world are parameters of the model:
- the clock (`time.time()`, read once for the refresh check and once more inside
  `get_token`);
- the auth server's reply and the API's answer;
- what `consumer.poll` delivers;
- whether a DuckDB write goes through.

A failed write is modelled from that parameter, and from the table's NOT NULL and
primary-key constraints.

### Behaviour of the code worth knowing

- **Null icao24.** Records with a null `icao24` are published like any other, with
  the key `ICAO_None`.
  - The consumer turns such a record into a row the table rejects (icao24 is NOT NULL).
  - A failed write keeps the buffer, so that row stays in it.
  - Consequence: no later write commits (`Consumer.PoisonedBufferNeverCommits`).
- **Malformed messages.** The first `json.loads` (consumer.py:91) sits outside the
  inner `try`. A message value that is not valid JSON therefore ends the loop; the
  `finally` block makes its final write, and the consumer stops.
- **Token failures.** A token request ends the process only when the request raises,
  when the body is not a JSON object, or when `expires_in` is not a number.
  - There is no `raise_for_status`, so an error response whose JSON object lacks
    `access_token` stores a `None` token.
  - That token is requested again on the next tick.
- **Partial token update.** `token_info['access_token']` is assigned before the expiry
  arithmetic that can raise, so the token can change before the process exits
  (`Token.TokenInfo.GetToken`).
- **Offset commits.** The code never commits offsets itself.
- **Buffer size.** The buffer has no cap. While writes fail, it grows by one row per
  message.

## Model

| member | source | states |
|---|---|---|
| StateVectors.RowOf | consumer.py:95-96 | The consumer's row always has 17 columns, one per name in `state_vector_keys` and so one per `?` placeholder. |
| StateVectors.KeysDistinct | producer.py:37-42 | The 17 field names are pairwise distinct, so `dict(zip(...))` never overwrites a field. |
| StateVectors.DictOfDomain | producer.py:153 | `dict(pairs)` has a key exactly when some pair carries it. |
| StateVectors.DictOfLookup | producer.py:153 | When the keys are distinct, every pair survives in `dict(pairs)` with its own value. |
| StateVectors.DictOfSize | producer.py:153 | When the keys are distinct, `dict(pairs)` has one entry per pair. |
| StateVectors.ZippedKeysDistinct | producer.py:153 | The field names zipped with any state vector give pairs with distinct keys. |
| StateVectors.KeyedAt | producer.py:153 | The i-th field name is in the record exactly when the state vector has an i-th element, and it maps to that element. |
| StateVectors.KeyedEntries | producer.py:153 | The record has exactly min(len(sv), 17) entries, the i-th name maps to sv[i], and there are no other keys. An 18th element (category) is dropped. |
| StateVectors.RoundTrip | consumer.py:95-96 | The consumer's row of the producer's record holds sv[i] at position i, or None where sv is shorter. A 17-field vector comes back unchanged; a longer one comes back truncated to its first 17 fields. |
| Store.KeysOf | consumer.py:72 | A key is written by a batch exactly when some row of the batch has that (icao24, last_contact). |
| Store.UpsertAt | consumer.py:101 | After INSERT OR REPLACE of a batch, each key in the batch maps to the batch's last row with that key. Other keys keep their rows, and no other key appears. |
| Store.UpsertSupersedes | consumer.py:101 | Writing a batch after an earlier or partial write whose keys it covers gives the same table as writing the batch alone. |
| Store.UpsertIdempotent | consumer.py:101 | Applying the same batch twice yields the same table as applying it once. |
| Store.UpsertConcat | consumer.py:101 | Two batches written in turn give the table of their concatenation. |
| Token.Acquire | producer.py:63-79 | `get_token` exits exactly when the request fails or `expires_in` is not a number. Otherwise it keeps the reply's token and sets `expires_at = now + 0.8 * expires_in`, or now + 1440 when `expires_in` is absent. |
| Token.FirstCallRefreshes | producer.py:86-87 | With the initial null token and expiry 0, the first `get_events` always requests a token. |
| Token.RefreshAfterMargin | producer.py:74-86 | After a token is issued at t with lifetime ttl (default 1800), a refresh is requested exactly when now > t + 0.8·ttl (strict). A null token is requested again at once. |
| Token.HundredSecondToken | producer.py:74-86 | With `expires_in = 100` issued at t: no refresh at t + 80, and a refresh at every later instant. |
| Token.TokenInfo.constructor | producer.py:31-34 | The script starts with no token and `expires_at = 0`. |
| Token.TokenInfo.GetToken | producer.py:51-79 | On success both fields hold `Acquire`'s result. On exit the expiry is unchanged; the token is unchanged after a failed request and is already overwritten when only `expires_in` is bad. |
| Token.TokenInfo.EnsureToken | producer.py:85-87 | Without a due refresh the token state is untouched and there is no exit. With one, it behaves as `get_token` at the second clock reading. |
| Producer.MessageFor | producer.py:153-168 | A non-empty state vector yields a message whose value has an `icao24` entry and whose key is formatted from it. |
| Producer.FirstEmpty | producer.py:151-161 | Gives the index of the first empty state vector, whose `['icao24']` lookup raises KeyError: all before it are non-empty. |
| Producer.MessageKeyOfStateVector | producer.py:161 | The key is `ICAO_` followed by `str(sv[0])`, and a null icao24 gives `ICAO_None`. |
| Producer.SameIcaoSameKey | producer.py:161-166 | Two state vectors with the same icao24 get the same message key. |
| Producer.KeyStringDistinguishes | producer.py:161 | Distinct string identifiers get distinct keys. A null identifier collides with the string "None". |
| Producer.TickMessagesSpec | producer.py:144-168 | A failed poll or a missing or empty `states` publishes nothing. Otherwise one message per state vector is published in order, each with key `ICAO_<icao24>` and value `dict(zip(keys, sv))`, up to the first empty state vector. |
| Producer.CrashesAtFirstEmpty | producer.py:151-161 | A tick's `states` holds an empty state vector exactly when the publishing loop reaches one before running out. |
| Producer.Resume | producer.py:138-174 | The loop resumed at a tick ends within the given ticks: it sleeps only when they run out, and otherwise stops at a later tick. |
| Producer.ResumeCrashes | producer.py:138-174 | A run stops with KeyError only at its last tick, whose `states` holds an empty state vector. No earlier tick holds one, and neither does any tick of a run that sleeps to the end. |
| Producer.ResumeToken | producer.py:85-87 | A run exits exactly when the refresh checks of the ticks it ran, folded from the starting token state, end in Exit. Until its last tick no refresh check had ended in Exit, though the token held may be None (see Token failures). When it does not exit it ends with the token state those checks produced. |
| Producer.MessagesOfConcat | producer.py:151-171 | The messages of two runs of ticks, one after the other, are the first run's messages followed by the second's. |
| Producer.TickSpacing | producer.py:174 | Ticks at least 22 s apart span at least (count − 1)·22 seconds. |
| Producer.PollsPerDay | producer.py:44-45 | Polls spaced by 22 s fit at most ceil(86400/22) = 3928 times in a day, within the 4000-call quota. |
| Producer.Outbox.constructor | producer.py:133 | A fresh producer has produced and flushed nothing. |
| Producer.Outbox.Produce | producer.py:164-168 | `produce` appends exactly one message and does not flush. |
| Producer.Outbox.Flush | producer.py:171 | After `flush` every produced message has been delivered. |
| Producer.Publish | producer.py:151-171 | Appends the messages of the state vectors before the first empty one, in order. It crashes exactly when there is an empty one, and otherwise flushes everything. |
| Producer.Tick | producer.py:138-174 | One tick exits exactly when the refresh check, applied to the token state, yields Exit (a due refresh failed); otherwise the token state becomes that check's result. Without an exit it appends exactly the tick's messages, crashes exactly when `states` holds an empty state vector, and flushes once when `states` is non-empty. |
| Producer.Run | producer.py:138-174 | The loop ends with the outcome and tick count `Resume` gives from tick 0 and the initial token, and, unless it exits, with the token state `Resume` gives. The outbox receives, in order, the messages of every tick whose token check passed. When it sleeps to the end, everything produced has been flushed. |
| Consumer.Step | consumer.py:87-112 | No message, a delivery error and a value that is not a JSON object leave the buffer, the counter and the table unchanged. |
| Consumer.BufferBelowThreshold | consumer.py:98-107 | With writes that go through, the buffer holds fewer than 2000 rows after every iteration. |
| Consumer.StepAccounted | consumer.py:100-107 | Each iteration keeps `messages_processed` equal to the rows of committed batches, and keeps the table equal to the starting table upserted with those batches in order. |
| Consumer.FinalFlushAccounted | consumer.py:115-123 | The final write keeps the same accounting. |
| Consumer.LoopAccounted | consumer.py:86-112 | The whole loop keeps the same accounting. |
| Consumer.RunAccounted | consumer.py:83-123 | From startup to shutdown, `messages_processed` is the number of rows in committed batches, and the table is the existing table with those batches upserted in commit order. |
| Consumer.StepConserves | consumer.py:98-107 | One iteration neither loses nor duplicates rows: committed rows followed by the buffer grow by exactly the delivered row. |
| Consumer.LoopConserves | consumer.py:86-112 | Over the loop, committed rows followed by the buffer are exactly the rows received, in order. |
| Consumer.NoWriteBelowThreshold | consumer.py:98-100 | When fewer than 2000 rows arrive in all, there is no write, however many empty polls, delivery errors and non-object values come between them. The loop only appends. |
| Consumer.AppendedRows | consumer.py:94-98 | Every delivered JSON object appends exactly one row, the row of that object. |
| Consumer.ThresholdFlush | consumer.py:98-107 | From an empty buffer, with any empty polls or errors between the rows: the first 1999 rows cause no write. The message carrying the 2000th causes exactly one write of all 2000 rows, in order. After a successful write the buffer is empty, the counter is 2000 and the table is the upsert of those rows. |
| Consumer.SingleFinalWrite | consumer.py:83-123 | A run with between 1 and 1999 rows in all makes exactly one write, however many polls carry no row: the shutdown write of every row, in order. The buffer is not cleared. |
| Consumer.FailedWriteRetained | consumer.py:100-109 | A failed write leaves the buffer (with the new row), the counter and the table unchanged. The next message retries with the whole, larger buffer. |
| Consumer.FinalFlushOnce | consumer.py:115-123 | An empty buffer is not written at shutdown. A non-empty one gets exactly one write of those n rows; on success the counter grows by n and the table takes the rows in order, while a failure only records the attempt, leaving counter and table as they were. The buffer is kept either way. |
| Consumer.PoisonedBufferNeverCommits | consumer.py:100-123 | Once the buffer holds a row the table rejects, no later write commits: the counter and the table stay as they are through the loop and the shutdown write. |
| Consumer.ConsumerLoop.constructor | consumer.py:83-84 | The loop starts with an empty buffer, a zero counter and the existing table. |
| Consumer.ConsumerLoop.WriteBatch | consumer.py:101-102 | The write commits exactly when the store is up and every row is admissible. The table becomes the row-by-row upsert of the batch on success and stays unchanged otherwise. |
| Consumer.ConsumerLoop.Receive | consumer.py:87-112 | One iteration changes the state exactly as `Step` says. It reports an escape exactly for a value that is not valid JSON. |
| Consumer.ConsumerLoop.Close | consumer.py:115-123 | The `finally` write changes the state exactly as `FinalFlush` says. |
| Consumer.ConsumerLoop.Serve | consumer.py:83-123 | The loop and the `finally` block together change the state as `Run` says. The loop stops at the first unparsable message or after the last event. |
| Pipeline.RowsOfPublished | consumer.py:95-96 | For any 17-field state vectors, a null icao24 included, the consumer's rows of a tick's published messages are those state vectors themselves. |
| Pipeline.PublishedKeys | producer.py:161 | For non-empty state vectors whose icao24 is a string, each published message is keyed `ICAO_` plus that icao24. |
| Pipeline.EndToEnd | consumer.py:83-123 | Fewer than 2000 complete state vectors, published and then consumed by a fresh consumer that is then stopped, reach DuckDB in one write of exactly those vectors in order. The counter and table reflect whether that write committed. |
| Pipeline.RepeatedReportReplaced | consumer.py:72-81 | An aircraft reported twice with the same last_contact gets the same message key both times. After shutdown the table holds one row per (icao24, last_contact), the later report replacing the earlier. |

## Left out

- Network I/O is not modelled: the HTTP requests, the Kafka client and the DuckDB
  connection become parameters of the model. The `airspace-events` topic is a
  sequence of deliveries, and the outcome of each DuckDB write is a boolean.
- Consumer.ConsumerLoop.WriteBatch: a failed `executemany`/`commit` is taken to leave
  the table as it was. The code does not say whether DuckDB applies part of a failed
  batch. `Store.UpsertSupersedes` shows that a partial write is overwritten once the
  retained buffer is written successfully.
- Store.KeyOf: the model accepts a row only when icao24 is a string and last_contact
  an integer. DuckDB's implicit casts, the VARCHAR lengths and the 32-bit range of
  INTEGER columns are not modelled.
- Startup is not modelled: connecting to DuckDB, creating the table and creating the
  topic happen before the loops and end the process on failure. The same goes for
  closing the connection and the consumer.
- Producer.Tick: the API's JSON body is taken to be an object whose `states` is a
  list or absent. A body that is a JSON list, or a `states` value that is not a list,
  is not modelled.
- Kafka's own failures are not modelled: a full local queue in `produce`, delivery
  errors reported by `flush`, partitioning, and ordering across partitions.
- JSON encoding is taken as the identity on records. Float fields and the `sensors`
  array are carried as opaque values.
- `time.sleep` is not modelled. The 22 s pause after a tick and the consumer's 5 s
  pause after an empty poll only space out iterations; `Producer.PollsPerDay` covers
  the consequence of the 22 s pause.
- `KeyboardInterrupt` is not modelled as such. It is taken to arrive between
  iterations, as the end of the event sequence; an interrupt inside a write is not
  modelled.
- Logging is not modelled, including the one-time log of the first record
  (producer.py:154-156).
- app.py (the Streamlit dashboard) is not part of this model.
