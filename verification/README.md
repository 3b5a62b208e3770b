# Kline backfill of the crypto monitor, modelled in Dafny

The monitor keeps one PostgreSQL table of one-minute candles (klines) per
trading symbol, ETHUSDT and BTCUSDT. At start-up it brings each table up to
date before it begins live monitoring. The backfill works like this:

- It reads the newest stored row of the symbol's table. It resumes from that
  row's close time, or from 2023-02-01 00:00:00 when the table is empty.
- It walks from there to the current time in steps of 1000 minutes, using a
  timestamp generator.
- For each step it asks the exchange for up to 1000 klines starting at that
  time.
- It turns each answered kline into one `INSERT` statement.
- It sends each page's statements to the database as one transaction.

When both symbols are done, the start-up deletes from each table the rows
with the greatest open time. Those rows belong to klines that have not
closed yet.

The model has six modules:

- `Options` holds the optional-value type used by the parser and the pager.
- `Candles` holds klines and rows, and the millisecond-to-second conversion.
- `Queries` covers `generate_queries`. It has the statement rendered as text
  (`Sql`) and a parser (`ParseInsert`) that reads the text back.
- `Pager` covers `timestamp_generator`. It has the sequence of values the
  generator yields (`PageStarts`) and a cursor class (`TimestampPager`)
  whose `Next` plays the role of Python's `next`.
- `Store` models the database as a class holding a map from table name to
  row list. It covers the batch `execute`, the latest-row `SELECT` and the
  trailing-row `DELETE`.
- `Monitor` covers `update_database` and the start-up part of `main`. The
  exchange is a function parameter, `fetch`.

How the code stores candles:

- Rows are stored with plain `INSERT` (monitor.py:52). There is no upsert,
  and the model's tables keep no key, so the model claims no idempotence.
- The backfill resumes from the latest row's close time, column 6
  (monitor.py:66).
- The unclosed trailing candle is removed by a `DELETE` of the rows with
  the greatest open time, after both backfills (monitor.py:119-122).
- monitor.py calls the asynchronous `execute` of db_config.py without
  awaiting it (monitor.py:62, 97, 121). The model treats storage as a
  synchronous store, which is what the surrounding code evidently means.

## Model

| member | source | states |
|---|---|---|
| Candles.Seconds | monitor.py:42-43 | the stored second of a millisecond time is the whole second it falls in: `s*1000 <= ms < s*1000 + 1000` |
| Candles.RowOf | monitor.py:41-50 | a kline's row carries the whole seconds of its open and close times and fields 1-5 verbatim |
| Queries.LowerChar | monitor.py:52 | `lower()` on one ASCII character: upper-case letters map to the corresponding lower-case letter, everything else is unchanged |
| Queries.Lower | monitor.py:52 | the table name has the symbol's length and no upper-case letter; upper-case letters are shifted by 32, every other character is kept |
| Queries.Sql | monitor.py:52 | the statement text of the format string: it opens with `INSERT INTO `, the table and the column list, and closes with `);`; its values are given back by Queries.SqlRoundTrip |
| Queries.SqlRoundTrip | monitor.py:52 | reading back the text of a statement gives its table, the two rendered times and fields 1-5 in column order, provided no value text contains a comma and the table name has no blank |
| Queries.GenerateQueries | monitor.py:36-55 | one statement per kline, in page order, each into the lowercased symbol's table, carrying that kline's row |
| Pager.PageStarts | monitor.py:24-31 | the values the generator yields, in order; empty exactly when `start >= end` |
| Pager.PageStartsBounds | monitor.py:24-31 | the generator yields nothing iff `start >= end`; otherwise it starts at `start`, every value lies in `[start, end)`, consecutive values are one step apart, values strictly increase, and it stops once the next value would reach `end` |
| Pager.PageStartAt | monitor.py:27-31 | the `i`-th yielded value is `start + i*step` |
| Pager.PageCount | monitor.py:27-31 | with a positive step, the generator yields `ceil((end - start) / step)` values when `start < end` and none otherwise |
| Pager.TimestampPager.constructor | monitor.py:24-27 | the cursor starts at `start` with a step of `interval` minutes in seconds |
| Pager.TimestampPager.Next | monitor.py:29-31 | yields the current value and advances one step while it is below `end`, else signals the end; the values still to come lose exactly their first element |
| Store.MaxOpentime | monitor.py:63 | the greatest open time of a non-empty table is an upper bound that some row attains |
| Store.WithoutOpentime | monitor.py:121-122 | the rows kept are exactly the stored rows of other open times |
| Store.WithoutOpentimeCount | monitor.py:121-122 | removing an open time keeps every other row as often as it was stored and drops all rows of that open time |
| Store.WithoutOpentimeShrinks | monitor.py:121-122 | removing an open time that occurs shortens the table |
| Store.TrimLatest | monitor.py:121-122 | the table after the trailing-row delete: no longer than before and holding only stored rows; Store.TrimLatestSpec says which rows |
| Store.TrimLatestSpec | monitor.py:119-122 | the trailing-row delete keeps an empty table empty, shortens a non-empty one, removes exactly the rows that could be the latest row, and keeps every other row's multiplicity |
| Store.ApplyInserts | db_config.py:35-37 | running a batch of inserts creates and drops no table |
| Store.ApplyInsertsRows | db_config.py:35-37 | a batch appends to each table exactly the rows aimed at it, in statement order, after the rows already there |
| Store.ApplyToOneTable | db_config.py:35-37 | a batch aimed at one existing table appends all its rows there in order and leaves every other table unchanged |
| Store.Database.ExecuteInserts | db_config.py:23-47 | one call is one transaction: all statements take effect in order, or, when one names a missing table, none does and the error is swallowed |
| Store.Database.SelectLatest | monitor.py:62-63 | `ORDER BY opentime DESC LIMIT 1` returns no row for an empty or missing table, otherwise exactly one row with the greatest open time |
| Store.Database.DeleteLatest | monitor.py:121-122 | the new table is the old one without every row of the greatest open time; a missing table is left as it is |
| Monitor.PageRowsAppend | monitor.py:83-100 | the rows and kline count of a run of pages split over any division of the run |
| Monitor.PageRowsLength | monitor.py:95-100 | a run of pages stores exactly one row per kline answered |
| Monitor.BackfillRequests | monitor.py:69-93 | the exchange calls of one backfill: `ceil((end - start) / 1000 min)` of them, the first at `start`, 60,000,000 ms apart, strictly ascending, inside `[start, end)`, each for the symbol with limit 1000 |
| Monitor.Synced | monitor.py:83-100 | the tables after one symbol's backfill: the symbol's table, if it exists, followed by the rows of every page fetched from the resume point to `end`; the set of tables and every other table unchanged |
| Monitor.SyncedGrowth | monitor.py:83-100 | a backfill keeps every stored row in place, grows the symbol's table by exactly the number of klines answered, touches no other table, and never lowers the greatest stored open time |
| Monitor.TrimAfterSync | monitor.py:114-122 | after backfill and trailing delete, the table is strictly shorter (unless empty) and holds exactly the backfilled rows older than the newest open time |
| Monitor.FirstBackfillPages | monitor.py:69-74 | an empty table backfilled to 2500 minutes after 2023-02-01 takes exactly three calls: at the anchor, 1000 and 2000 minutes later, each for 1000 klines |
| Monitor.ResumeFrom | monitor.py:62-69 | the backfill resumes at the close time of a latest stored row, or at the anchor for an empty or missing table |
| Monitor.BackfillPage | monitor.py:86-100 | one page: fetch 1000 klines from the timestamp's whole seconds in ms, append their rows to the symbol's table as one batch, and count one query per kline |
| Monitor.UpdateDatabase | monitor.py:58-107 | the calls made are one per pager value from the resume point to `end`, `queries_num` is the total number of klines answered, and the symbol's table grows by exactly those pages' rows in order |
| Monitor.Startup | monitor.py:112-122 | backfill ETHUSDT and then BTCUSDT up to the same time, then strip each table's latest rows |

## Left out

- The exchange client, `get_keys` and the API key file are left out. The kline endpoint is the function parameter `fetch`. The kline interval argument is implicit in `fetch`.
- Local time formatting is left out. `strftime` of a local `datetime` is the parameter `timeText`. Stored times are identified with the epoch second they denote. Time zone and daylight-saving shifts are not modelled, and the 2023-02-01 anchor is taken in UTC (1675209600).
- The end time `datetime.now()` is taken as a whole second, rounded up. For whole-second pager values, `current < end` is unchanged by that rounding.
- `int(timestamp.timestamp())` is the identity in the model, because pager values are whole seconds.
- Monitor.UpdateDatabase: the `while generator` test is always true for a generator object. Only the `StopIteration` exit is modelled.
- Pager.PageStarts: a generator with a step that is not positive and `start < end` never stops. The model requires a finite run. The caller always passes 1000 minutes.
- Queries.Lower: it lowercases ASCII letters only. Python's Unicode case mapping is not modelled.
- Klines with fewer than seven fields are not modelled. The source would raise an `IndexError` on them.
- Price and volume fields stay as the decimal text the exchange sends. Numeric conversion by the database is not modelled.
- Store.Database.SelectLatest: which row is returned among rows with the same greatest open time is left open, as the query leaves it.
- Store.Database.ExecuteInserts: a table keyed on opentime, as the table-creation statement printed by `monitor async.py` declares, rolls back a whole batch that repeats a stored or repeated opentime; the model has no key and appends such rows instead, so Monitor.SyncedGrowth's growth by one row per kline assumes that no such key rejects them.
- Monitor.Startup: errors raised by the exchange call (monitor.py:92-93), by creating the client (monitor.py:78) or by `get_keys` when the key file is missing (monitor.py:13-21) are not modelled. In the source they abort start-up, keep the pages already stored, and skip the remaining pages, the second symbol and both trailing `DELETE`s; the model's `fetch` always answers.
- Failures other than a missing table, such as a lost connection or a rejected value, are not modelled.
- The connection handling, printing and interactive `main` of db_config.py are left out.
- The `SELECT` result fetching of db_config.py is reduced to the latest-row query.
- The live monitoring loop after start-up is left out.
- analysis.py and `monitor async.py` are not part of this model.
- The missing `await` on `execute` is not modelled.
