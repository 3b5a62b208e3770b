/**
 The database the monitor writes to: one table of rows per lowercased symbol.
 Each call of `execute` with a list of statements runs them in one
 transaction (db_config.py), so a batch of INSERTs lands completely or not at
 all; a failing statement (here: an INSERT into a table that does not exist)
 rolls the batch back, and the error is swallowed.
 Tables are plain row lists with no uniqueness constraint: an INSERT always
 appends, even when a row with the same opentime is already stored.
 */
module Store {
  import opened Candles
  import opened Queries

  type Tables = map<string, seq<Row>>

  /** The rows a SELECT on table `name` sees; a missing table reads as no rows
      because the failing SELECT is caught and an empty result returned. */
  function TableRows(m: Tables, name: string): seq<Row> {
    if name in m then m[name] else []
  }

  // ---------------------------------------------------------------------
  // The latest row

  /** `r` is a row that `ORDER BY opentime DESC LIMIT 1` may return. */
  ghost predicate IsLatest(rows: seq<Row>, r: Row) {
    r in rows && forall x :: x in rows ==> x.opentime <= r.opentime
  }

  /** The greatest opentime in a non-empty table. */
  function MaxOpentime(rows: seq<Row>): (t: int)
    requires rows != []
    ensures forall x :: x in rows ==> x.opentime <= t
    ensures exists x :: x in rows && x.opentime == t
  {
    if |rows| == 1 then rows[0].opentime
    else
      var init := rows[..|rows| - 1];
      var last := rows[|rows| - 1];
      assert rows == init + [last];
      var t := MaxOpentime(init);
      if last.opentime > t then last.opentime else t
  }

  /** Every row the latest-row query may return has the greatest opentime. */
  lemma LatestIsMax(rows: seq<Row>, r: Row)
    requires IsLatest(rows, r)
    ensures r.opentime == MaxOpentime(rows)
  {
  }

  // ---------------------------------------------------------------------
  // Deleting the rows of one opentime

  /** The rows whose opentime differs from `t`, in their stored order. */
  function WithoutOpentime(rows: seq<Row>, t: int): (kept: seq<Row>)
    ensures |kept| <= |rows|
    ensures forall x :: x in kept <==> x in rows && x.opentime != t
  {
    if rows == [] then []
    else
      var init := rows[..|rows| - 1];
      var last := rows[|rows| - 1];
      assert rows == init + [last];
      var kept := WithoutOpentime(init, t);
      if last.opentime == t then kept else kept + [last]
  }

  /** Rows of other opentimes keep their multiplicity; rows of opentime `t` are all gone. */
  lemma {:induction false} WithoutOpentimeCount(rows: seq<Row>, t: int, x: Row)
    ensures multiset(WithoutOpentime(rows, t))[x] == if x.opentime == t then 0 else multiset(rows)[x]
  {
    if rows != [] {
      var init := rows[..|rows| - 1];
      var last := rows[|rows| - 1];
      assert rows == init + [last];
      WithoutOpentimeCount(init, t, x);
    }
  }

  /** Removing an opentime that occurs shortens the table. */
  lemma {:induction false} WithoutOpentimeShrinks(rows: seq<Row>, t: int)
    requires exists x :: x in rows && x.opentime == t
    ensures |WithoutOpentime(rows, t)| < |rows|
  {
    var init := rows[..|rows| - 1];
    var last := rows[|rows| - 1];
    assert rows == init + [last];
    if last.opentime != t {
      var x :| x in rows && x.opentime == t;
      assert x in init;
      WithoutOpentimeShrinks(init, t);
    }
  }

  /** The table after the trailing-row DELETE: every row whose opentime is
      the greatest one is removed; an empty table stays empty. */
  function TrimLatest(rows: seq<Row>): (kept: seq<Row>)
    ensures |kept| <= |rows|
    ensures forall x :: x in kept ==> x in rows
  {
    if rows == [] then [] else WithoutOpentime(rows, MaxOpentime(rows))
  }

  /** The DELETE removes exactly the rows that could be the latest row, at
      least one of them, and keeps every other row as often as it was stored. */
  lemma TrimLatestSpec(rows: seq<Row>)
    ensures rows == [] ==> TrimLatest(rows) == []
    ensures rows != [] ==> |TrimLatest(rows)| < |rows|
    ensures forall x :: x in TrimLatest(rows) <==> x in rows && !IsLatest(rows, x)
    ensures forall x :: x in rows && !IsLatest(rows, x) ==> multiset(TrimLatest(rows))[x] == multiset(rows)[x]
  {
    if rows != [] {
      var t := MaxOpentime(rows);
      WithoutOpentimeShrinks(rows, t);
      forall x | x in rows && !IsLatest(rows, x)
        ensures multiset(TrimLatest(rows))[x] == multiset(rows)[x]
      {
        WithoutOpentimeCount(rows, t, x);
      }
    }
  }

  // ---------------------------------------------------------------------
  // Applying a batch of INSERTs

  /** Every statement of the batch names an existing table. */
  predicate Targets(m: Tables, batch: seq<Insert>) {
    forall i :: 0 <= i < |batch| ==> batch[i].table in m
  }

  /** The tables after the statements of a batch ran one after another. */
  function ApplyInserts(m: Tables, batch: seq<Insert>): (m': Tables)
    requires Targets(m, batch)
    ensures m'.Keys == m.Keys
  {
    if batch == [] then m
    else
      var q := batch[|batch| - 1];
      var prev := ApplyInserts(m, batch[..|batch| - 1]);
      prev[q.table := prev[q.table] + [q.row]]
  }

  /** The rows the batch inserts into table `name`, in statement order. */
  function RowsFor(batch: seq<Insert>, name: string): seq<Row> {
    if batch == [] then []
    else
      var q := batch[|batch| - 1];
      RowsFor(batch[..|batch| - 1], name) + (if q.table == name then [q.row] else [])
  }

  /** A batch appends to each table exactly the rows aimed at it, in order,
      and leaves the existing rows of every table as they were. */
  lemma {:induction false} ApplyInsertsRows(m: Tables, batch: seq<Insert>, name: string)
    requires Targets(m, batch) && name in m
    ensures ApplyInserts(m, batch)[name] == m[name] + RowsFor(batch, name)
  {
    if batch != [] {
      ApplyInsertsRows(m, batch[..|batch| - 1], name);
    }
  }

  /** The rows a batch carries, in statement order. */
  function BatchRows(batch: seq<Insert>): seq<Row> {
    seq(|batch|, i requires 0 <= i < |batch| => batch[i].row)
  }

  /** A batch aimed at one existing table appends all of its rows there, in
      order, and leaves every other table as it was. */
  lemma {:induction false} ApplyToOneTable(m: Tables, batch: seq<Insert>, name: string)
    requires name in m
    requires forall i :: 0 <= i < |batch| ==> batch[i].table == name
    ensures Targets(m, batch)
    ensures ApplyInserts(m, batch) == m[name := m[name] + BatchRows(batch)]
  {
    if batch == [] {
      assert m[name] + BatchRows(batch) == m[name];
      assert m[name := m[name]] == m;
    } else {
      var init := batch[..|batch| - 1];
      var q := batch[|batch| - 1];
      assert forall i :: 0 <= i < |init| ==> init[i] == batch[i];
      ApplyToOneTable(m, init, name);
      assert BatchRows(batch) == BatchRows(init) + [q.row];
      var prev := m[name := m[name] + BatchRows(init)];
      assert ApplyInserts(m, batch) == prev[name := prev[name] + [q.row]];
      assert prev[name] + [q.row] == m[name] + BatchRows(batch);
    }
  }

  /** The tables after the trailing-row DELETE on table `name`. */
  function Trimmed(m: Tables, name: string): Tables {
    if name in m then m[name := TrimLatest(m[name])] else m
  }

  class Database {
    var tables: Tables

    constructor (tables: Tables)
      ensures this.tables == tables
    {
      this.tables := tables;
    }

    /** `execute(query_list)` on a list of INSERTs: one transaction. */
    method ExecuteInserts(batch: seq<Insert>)
      modifies this
      ensures tables == if Targets(old(tables), batch) then ApplyInserts(old(tables), batch) else old(tables)
    {
      var staged := tables;
      var i := 0;
      while i < |batch|
        invariant 0 <= i <= |batch|
        invariant Targets(tables, batch[..i])
        invariant staged == ApplyInserts(tables, batch[..i])
      {
        if batch[i].table !in staged {
          return;  // the relation does not exist: the transaction rolls back
        }
        assert batch[..i + 1][..i] == batch[..i];
        staged := staged[batch[i].table := staged[batch[i].table] + [batch[i].row]];
        i := i + 1;
      }
      assert batch[..i] == batch;
      tables := staged;
    }

    /** `SELECT * FROM <name> ORDER BY opentime DESC LIMIT 1`: no row for an
        empty or missing table, otherwise one row with the greatest opentime
        (which one, among rows sharing that opentime, the query leaves open). */
    method SelectLatest(name: string) returns (result: seq<Row>)
      ensures |result| <= 1
      ensures result == [] <==> TableRows(tables, name) == []
      ensures result != [] ==> IsLatest(TableRows(tables, name), result[0])
    {
      var rows := TableRows(tables, name);
      if rows == [] {
        return [];
      }
      var best := 0;
      for i := 1 to |rows|
        invariant 0 <= best < |rows|
        invariant forall j :: 0 <= j < i ==> rows[j].opentime <= rows[best].opentime
      {
        if rows[i].opentime > rows[best].opentime {
          best := i;
        }
      }
      return [rows[best]];
    }

    /** `DELETE FROM <name> WHERE opentime IN (SELECT opentime FROM <name>
        ORDER BY opentime DESC LIMIT 1)`. A missing table is an error the
        caller swallows, so nothing changes then. */
    method DeleteLatest(name: string)
      modifies this
      ensures tables == Trimmed(old(tables), name)
    {
      if name !in tables {
        return;
      }
      var latest := SelectLatest(name);
      if latest == [] {
        assert tables[name := []] == tables;
        return;
      }
      var t := latest[0].opentime;
      var rows := tables[name];
      LatestIsMax(rows, latest[0]);
      var kept := [];
      for i := 0 to |rows|
        invariant kept == WithoutOpentime(rows[..i], t)
      {
        assert rows[..i + 1][..i] == rows[..i];
        if rows[i].opentime != t {
          kept := kept + [rows[i]];
        }
      }
      assert rows[..|rows|] == rows;
      tables := tables[name := kept];
    }
  }
}
