/**
 The backfill of monitor.py: `update_database` catches one symbol's table up
 to a given time, page by page, and the start-up sequence of `main` runs it
 for both symbols and then strips the trailing rows, which belong to klines
 that have not closed yet.

 The exchange is the function parameter `fetch`: it maps a request (symbol,
 startTime in ms, limit) to the klines the exchange answers. Times are whole
 seconds since the epoch.
 */
module Monitor {
  import opened Candles
  import opened Queries
  import opened Pager
  import opened Store

  /** `datetime(2023, 2, 1)`: the backfill start of an empty table
      (2023-02-01 00:00:00, with the local time zone taken as UTC). */
  const Anchor := 1675209600

  /** One minute per kline times 1000 klines per response. */
  const PageMinutes := 1 * 1000
  const PageSeconds := PageMinutes * 60
  const PageLimit := 1000

  const Symbols := ["ETHUSDT", "BTCUSDT"]

  /** The kline endpoint: (symbol, startTime in ms, limit) to the answer. */
  type Fetch = (string, int, int) -> seq<Kline>

  /** One call of the kline endpoint. */
  datatype Request = Request(symbol: string, startMs: int, limit: int)

  /** The calls the page loop makes for the pager values `starts`: the
      timestamp's whole seconds times 1000, and the page limit. */
  function RequestsFor(symbol: string, starts: seq<int>): seq<Request> {
    seq(|starts|, i requires 0 <= i < |starts| => Request(symbol, starts[i] * 1000, PageLimit))
  }

  /** The answer to one call. */
  function Answer(req: Request, fetch: Fetch): seq<Kline> {
    fetch(req.symbol, req.startMs, req.limit)
  }

  /** The rows the answers to `requests` hold, page after page. */
  function PageRows(requests: seq<Request>, fetch: Fetch): seq<Row> {
    if requests == [] then []
    else
      PageRows(requests[..|requests| - 1], fetch) + RowsOf(Answer(requests[|requests| - 1], fetch))
  }

  /** How many klines the answers to `requests` hold together. */
  function KlineCount(requests: seq<Request>, fetch: Fetch): nat {
    if requests == [] then 0
    else KlineCount(requests[..|requests| - 1], fetch) + |Answer(requests[|requests| - 1], fetch)|
  }

  /** The pages concatenate: the rows of a run of requests are the rows of
      its first part followed by the rows of its second part. */
  lemma {:induction false} PageRowsAppend(first: seq<Request>, second: seq<Request>, fetch: Fetch)
    ensures PageRows(first + second, fetch) == PageRows(first, fetch) + PageRows(second, fetch)
    ensures KlineCount(first + second, fetch) == KlineCount(first, fetch) + KlineCount(second, fetch)
    decreases |second|
  {
    if second != [] {
      var init := second[..|second| - 1];
      assert (first + second)[..|first + second| - 1] == first + init;
      PageRowsAppend(first, init, fetch);
    } else {
      assert first + second == first;
    }
  }

  /** One more call extends the requests of the first `k` pager values. */
  lemma RequestsForNext(symbol: string, starts: seq<int>, k: nat)
    requires k < |starts|
    ensures RequestsFor(symbol, starts[..k + 1]) == RequestsFor(symbol, starts[..k]) + [Request(symbol, starts[k] * 1000, PageLimit)]
  {
  }

  /** One more page adds its klines to the count and its rows to the run. */
  lemma PageRowsNext(requests: seq<Request>, req: Request, fetch: Fetch)
    ensures PageRows(requests + [req], fetch) == PageRows(requests, fetch) + RowsOf(Answer(req, fetch))
    ensures KlineCount(requests + [req], fetch) == KlineCount(requests, fetch) + |Answer(req, fetch)|
  {
    PageRowsAppend(requests, [req], fetch);
    assert [req][..0] == [];
  }

  /** The rows stored by a run of requests are as many as the klines answered. */
  lemma {:induction false} PageRowsLength(requests: seq<Request>, fetch: Fetch)
    ensures |PageRows(requests, fetch)| == KlineCount(requests, fetch)
  {
    if requests != [] {
      PageRowsLength(requests[..|requests| - 1], fetch);
    }
  }

  /** The calls of one backfill from `start` to `end`: one per pager value,
      in ascending order of start time, 1000 minutes (60,000,000 ms) apart,
      each asking for 1000 klines, all starting in `[start, end)`, and
      `ceil((end - start) / 1000 minutes)` of them. */
  lemma BackfillRequests(symbol: string, start: int, end: int)
    ensures var reqs := RequestsFor(symbol, PageStarts(start, end, PageSeconds));
      && |reqs| == (if start < end then CeilDiv(end - start, PageSeconds) else 0)
      && (start < end ==> reqs[0].startMs == start * 1000)
      && (forall i :: 0 <= i < |reqs| ==>
            reqs[i].symbol == symbol && reqs[i].limit == 1000
            && start * 1000 <= reqs[i].startMs < end * 1000)
      && (forall i, j :: 0 <= i && j == i + 1 < |reqs| ==> reqs[j].startMs == reqs[i].startMs + 60000000)
      && (forall i, j :: 0 <= i < j < |reqs| ==> reqs[i].startMs < reqs[j].startMs)
  {
    var starts := PageStarts(start, end, PageSeconds);
    PageStartsBounds(start, end, PageSeconds);
    PageCount(start, end, PageSeconds);
    var reqs := RequestsFor(symbol, starts);
    forall i, j | 0 <= i < j < |reqs| ensures reqs[i].startMs < reqs[j].startMs {
      assert starts[i] < starts[j];
    }
  }

  /** Where the backfill of `symbol` resumes: the closetime of a latest row
      of its table, or the anchor when the table is empty (or missing). */
  ghost predicate ResumePoint(m: Tables, symbol: string, resumeAt: int) {
    var rows := TableRows(m, Lower(symbol));
    && (rows == [] ==> resumeAt == Anchor)
    && (rows != [] ==> exists r :: IsLatest(rows, r) && r.closetime == resumeAt)
  }

  /** Table `name`, if it exists, with `rows` appended. */
  function Appended(m: Tables, name: string, rows: seq<Row>): Tables {
    if name in m then m[name := m[name] + rows] else m
  }

  /** The tables after backfilling `symbol` from `resumeAt` up to `end`: the
      symbol's table, if it exists, grows by the pages' rows. */
  function Synced(m: Tables, symbol: string, resumeAt: int, end: int, fetch: Fetch): (m': Tables)
    ensures m'.Keys == m.Keys
    ensures forall n :: n in m && n != Lower(symbol) ==> m'[n] == m[n]
  {
    Appended(m, Lower(symbol), PageRows(RequestsFor(symbol, PageStarts(resumeAt, end, PageSeconds)), fetch))
  }

  /** Appending twice to the same table appends the concatenation. */
  lemma AppendedTwice(m: Tables, name: string, first: seq<Row>, second: seq<Row>)
    ensures Appended(Appended(m, name, first), name, second) == Appended(m, name, first + second)
  {
    if name in m {
      assert m[name] + first + second == m[name] + (first + second);
    }
  }

  /** A backfill keeps every stored row in place, adds exactly one row per
      kline answered, touches no other table, and never lowers the
      greatest stored opentime. */
  lemma SyncedGrowth(m: Tables, symbol: string, resumeAt: int, end: int, fetch: Fetch)
    ensures var after := Synced(m, symbol, resumeAt, end, fetch);
      var name := Lower(symbol);
      var reqs := RequestsFor(symbol, PageStarts(resumeAt, end, PageSeconds));
      && after.Keys == m.Keys
      && (forall n :: n in m && n != name ==> after[n] == m[n])
      && (name in m ==>
            && after[name][..|m[name]|] == m[name]
            && |after[name]| == |m[name]| + KlineCount(reqs, fetch)
            && (m[name] != [] ==> MaxOpentime(m[name]) <= MaxOpentime(after[name])))
  {
    var reqs := RequestsFor(symbol, PageStarts(resumeAt, end, PageSeconds));
    PageRowsLength(reqs, fetch);
    var name := Lower(symbol);
    if name in m && m[name] != [] {
      var after := Synced(m, symbol, resumeAt, end, fetch)[name];
      var t := MaxOpentime(m[name]);
      var x :| x in m[name] && x.opentime == t;
      assert after == m[name] + PageRows(reqs, fetch);
      assert x in after;
    }
  }

  /** After the trailing-row DELETE that follows a backfill, the symbol's
      table holds exactly the backfilled rows that are not latest ones:
      every remaining row is strictly older than the newest row stored. */
  lemma TrimAfterSync(m: Tables, symbol: string, resumeAt: int, end: int, fetch: Fetch)
    requires Lower(symbol) in m
    ensures var synced := Synced(m, symbol, resumeAt, end, fetch)[Lower(symbol)];
      var trimmed := Trimmed(Synced(m, symbol, resumeAt, end, fetch), Lower(symbol))[Lower(symbol)];
      && (synced != [] ==> |trimmed| < |synced|)
      && (forall x :: x in trimmed ==> x in synced && x.opentime < MaxOpentime(synced))
      && (forall x :: x in synced && x.opentime < MaxOpentime(synced) ==> x in trimmed)
  {
    var synced := Synced(m, symbol, resumeAt, end, fetch)[Lower(symbol)];
    TrimLatestSpec(synced);
  }

  /** Lines 62-69 of `update_database`: where the backfill of `symbol` starts. */
  method ResumeFrom(db: Database, symbol: string) returns (start: int)
    ensures ResumePoint(db.tables, symbol, start)
  {
    var lastRow := db.SelectLatest(Lower(symbol));
    if lastRow != [] {
      start := lastRow[0].closetime;
    } else {
      start := Anchor;
    }
  }

  /** Lines 88-100 of `update_database`: fetch the page of klines starting
      at `timestamp`, insert it as one batch, and count its queries. The
      symbol's table grows by exactly that page; a missing table stays
      missing (the batch rolls back) while its queries are still counted. */
  method BackfillPage(db: Database, symbol: string, timestamp: int, fetch: Fetch) returns (queryCount: nat)
    modifies db
    ensures queryCount == |Answer(Request(symbol, timestamp * 1000, PageLimit), fetch)|
    ensures db.tables == Appended(old(db.tables), Lower(symbol), RowsOf(Answer(Request(symbol, timestamp * 1000, PageLimit), fetch)))
  {
    var timestampMs := timestamp * 1000;
    var klines := fetch(symbol, timestampMs, PageLimit);
    var queries := GenerateQueries(klines, symbol);
    var name := Lower(symbol);
    ghost var before := db.tables;
    assert BatchRows(queries) == RowsOf(klines);
    if name in before {
      ApplyToOneTable(before, queries, name);
    } else if queries != [] {
      assert queries[0].table == name;
      assert !Targets(before, queries);
    }
    db.ExecuteInserts(queries);
    queryCount := |queries|;
  }

  /** `update_database(symbol, end_timestamp)`. `end` is the end time in
      whole seconds, rounded up (an integer timestamp is below a time
      exactly when it is below that time's ceiling). Returns `queries_num`;
      the ghost results record the resume point and the exchange calls. */
  method UpdateDatabase(db: Database, symbol: string, end: int, fetch: Fetch)
    returns (queriesNum: nat, ghost resumeAt: int, ghost requests: seq<Request>)
    modifies db
    ensures ResumePoint(old(db.tables), symbol, resumeAt)
    ensures requests == RequestsFor(symbol, PageStarts(resumeAt, end, PageSeconds))
    ensures queriesNum == KlineCount(requests, fetch)
    ensures db.tables == Synced(old(db.tables), symbol, resumeAt, end, fetch)
  {
    var start := ResumeFrom(db, symbol);
    resumeAt := start;
    var generator := new TimestampPager(start, end, PageMinutes);
    ghost var all := PageStarts(start, end, PageSeconds);
    ghost var base := db.tables;
    ghost var done := 0;
    queriesNum := 0;
    requests := [];
    assert Appended(base, Lower(symbol), PageRows(requests, fetch)) == base by {
      if Lower(symbol) in base {
        assert base[Lower(symbol)] + [] == base[Lower(symbol)];
      }
    }
    while true
      invariant generator.end == end && generator.step == PageSeconds && generator.Finite()
      invariant 0 <= done <= |all| && generator.Remaining() == all[done..]
      invariant requests == RequestsFor(symbol, all[..done])
      invariant queriesNum == KlineCount(requests, fetch)
      invariant db.tables == Appended(base, Lower(symbol), PageRows(requests, fetch))
      decreases |generator.Remaining()|
    {
      var timestamp := generator.Next();
      if timestamp.None? {
        break;
      }
      assert timestamp.value == all[done] && generator.Remaining() == all[done + 1..];
      ghost var next := generator.current;
      ghost var req := Request(symbol, timestamp.value * 1000, PageLimit);
      ghost var before := db.tables;
      var queryCount := BackfillPage(db, symbol, timestamp.value, fetch);
      assert generator.current == next;
      queriesNum := queriesNum + queryCount;
      RequestsForNext(symbol, all, done);
      PageRowsNext(requests, req, fetch);
      AppendedTwice(base, Lower(symbol), PageRows(requests, fetch), RowsOf(Answer(req, fetch)));
      requests := requests + [req];
      done := done + 1;
    }
    assert all[..done] == all;
  }

  /** Lines 112-122 of `main`: backfill both symbols up to `now`, then strip
      each table's trailing rows. The ghost results record each backfill's
      resume point and the tables between the two phases. */
  method Startup(db: Database, now: int, fetch: Fetch)
    returns (ghost resumeEth: int, ghost resumeBtc: int, ghost synced: Tables)
    modifies db
    ensures ResumePoint(old(db.tables), Symbols[0], resumeEth)
    ensures ResumePoint(Synced(old(db.tables), Symbols[0], resumeEth, now, fetch), Symbols[1], resumeBtc)
    ensures synced == Synced(Synced(old(db.tables), Symbols[0], resumeEth, now, fetch), Symbols[1], resumeBtc, now, fetch)
    ensures db.tables == Trimmed(Trimmed(synced, Lower(Symbols[0])), Lower(Symbols[1]))
  {
    var _, r0, _ := UpdateDatabase(db, Symbols[0], now, fetch);
    var _, r1, _ := UpdateDatabase(db, Symbols[1], now, fetch);
    resumeEth, resumeBtc, synced := r0, r1, db.tables;
    db.DeleteLatest(Lower(Symbols[0]));
    db.DeleteLatest(Lower(Symbols[1]));
  }

  /** A first backfill of an empty table 2500 minutes before `now` takes
      exactly three pages, starting at the anchor and 1000 and 2000
      minutes after it. */
  lemma FirstBackfillPages(symbol: string)
    ensures var reqs := RequestsFor(symbol, PageStarts(Anchor, Anchor + 2500 * 60, PageSeconds));
      reqs == [Request(symbol, Anchor * 1000, 1000),
               Request(symbol, (Anchor + 60000) * 1000, 1000),
               Request(symbol, (Anchor + 120000) * 1000, 1000)]
  {
    var starts := PageStarts(Anchor, Anchor + 2500 * 60, PageSeconds);
    PageCount(Anchor, Anchor + 2500 * 60, PageSeconds);
    assert |starts| == 3;
    PageStartAt(Anchor, Anchor + 2500 * 60, PageSeconds, 1);
    PageStartAt(Anchor, Anchor + 2500 * 60, PageSeconds, 2);
    PageStartsBounds(Anchor, Anchor + 2500 * 60, PageSeconds);
  }
}
