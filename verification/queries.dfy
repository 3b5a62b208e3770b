/**
 The INSERT statements `generate_queries` builds from one page of klines:
 the target table is the lowercased symbol, the column list is fixed, and the
 values are the kline's fields in order. `Sql` renders a statement to the exact
 text the store receives; `ParseInsert` reads that text back.
 */
module Queries {
  import opened Options
  import opened Candles

  predicate IsUpper(c: char) {
    'A' <= c <= 'Z'
  }

  /** ASCII lowercasing of one character. */
  function LowerChar(c: char): (d: char)
    ensures !IsUpper(d)
    ensures IsUpper(c) ==> 'a' <= d <= 'z' && d as int - 'a' as int == c as int - 'A' as int
    ensures !IsUpper(c) ==> d == c
  {
    if IsUpper(c) then (c as int + 32) as char else c
  }

  /** `symbol.lower()` on ASCII text: the name of the symbol's table. */
  function Lower(s: string): (r: string)
    ensures |r| == |s|
    ensures forall i :: 0 <= i < |r| ==> !IsUpper(r[i])
    ensures forall i :: 0 <= i < |s| && !IsUpper(s[i]) ==> r[i] == s[i]
    ensures forall i :: 0 <= i < |s| && IsUpper(s[i]) ==> r[i] as int == s[i] as int + 32
  {
    seq(|s|, i requires 0 <= i < |s| => LowerChar(s[i]))
  }

  /** One `INSERT INTO <table> (...) VALUES (...)` statement. */
  datatype Insert = Insert(table: string, row: Row)

  const Intro := "INSERT INTO "
  const Columns := "(opentime, open, high, low, close, volume, closetime)"
  const Middle := " " + Columns + " VALUES ("
  const Outro := ");"

  /** The statement text, character for character as the source's format
      string lays it out. `timeText` renders an epoch second as local
      `%Y-%m-%d %H:%M:%S` text; it is a parameter because the model does not
      interpret the local time zone. */
  function Sql(q: Insert, timeText: int -> string): (text: string)
    ensures Intro + q.table + Middle <= text
    ensures |Outro| <= |text| && text[|text| - |Outro|..] == Outro
  {
    Intro + q.table + Middle
    + "'" + timeText(q.row.opentime) + "'," + q.row.open + "," + q.row.high
    + ", " + q.row.low + ", " + q.row.close + ", " + q.row.volume
    + ", '" + timeText(q.row.closetime) + "'" + Outro
  }

  // ---------------------------------------------------------------------
  // Reading a statement text back

  /** A statement read back from text: its table and its seven value texts
      (the two times with their quotes removed). */
  datatype ParsedInsert = ParsedInsert(table: string, values: seq<string>)

  /** Position of the first `c` in `s`, or `|s|` when there is none. */
  function IndexOf(s: string, c: char): (k: nat)
    ensures k <= |s|
    ensures k < |s| ==> s[k] == c
    ensures forall j :: 0 <= j < k ==> s[j] != c
  {
    if s == [] then 0 else if s[0] == c then 0 else 1 + IndexOf(s[1..], c)
  }

  /** The comma-separated pieces of `s`. */
  function Split(s: string): (parts: seq<string>)
    ensures |parts| >= 1
  {
    if s == [] then [[]]
    else if s[0] == ',' then [[]] + Split(s[1..])
    else var rest := Split(s[1..]); [[s[0]] + rest[0]] + rest[1..]
  }

  /** The pieces glued with commas. */
  function Join(parts: seq<string>): string
    requires |parts| >= 1
  {
    if |parts| == 1 then parts[0] else parts[0] + "," + Join(parts[1..])
  }

  predicate NoComma(s: string) {
    ',' !in s
  }

  /** `p` with one leading blank removed, if it has one. */
  function DropBlank(p: string): Option<string> {
    if |p| >= 1 && p[0] == ' ' then Some(p[1..]) else None
  }

  /** `p` with its surrounding single quotes removed, if it has them. */
  function Unquote(p: string): Option<string> {
    if |p| >= 2 && p[0] == '\'' && p[|p| - 1] == '\'' then Some(p[1..|p| - 1]) else None
  }

  /** The seven value texts of a VALUES list, undoing the separators the
      format string puts between them. */
  function Values(parts: seq<string>): Option<seq<string>>
  {
    if |parts| != 7 then None
    else
      match (Unquote(parts[0]), DropBlank(parts[3]), DropBlank(parts[4]), DropBlank(parts[5]), DropBlank(parts[6]))
      case (Some(t0), Some(lo), Some(cl), Some(vo), Some(q6)) =>
        (match Unquote(q6)
         case Some(t6) => Some([t0, parts[1], parts[2], lo, cl, vo, t6])
         case None => None)
      case _ => None
  }

  function ParseInsert(text: string): Option<ParsedInsert>
  {
    if |text| < |Intro| || text[..|Intro|] != Intro then None
    else
      var afterIntro := text[|Intro|..];
      var k := IndexOf(afterIntro, ' ');
      var table := afterIntro[..k];
      var rest := afterIntro[k..];
      if |rest| < |Middle| + |Outro| || rest[..|Middle|] != Middle || rest[|rest| - |Outro|..] != Outro then None
      else
        match Values(Split(rest[|Middle|..|rest| - |Outro|]))
        case Some(vs) => Some(ParsedInsert(table, vs))
        case None => None
  }

  // ---------------------------------------------------------------------
  // Round trip

  /** The texts of a statement are readable back when the table name has no
      blank and no value text has a comma (decimal numbers and timestamps). */
  predicate Readable(q: Insert, timeText: int -> string) {
    && ' ' !in q.table
    && NoComma(timeText(q.row.opentime)) && NoComma(timeText(q.row.closetime))
    && NoComma(q.row.open) && NoComma(q.row.high) && NoComma(q.row.low)
    && NoComma(q.row.close) && NoComma(q.row.volume)
  }

  lemma {:induction false} SplitFirst(p: string, rest: string)
    requires NoComma(p)
    ensures Split(p + "," + rest) == [p] + Split(rest)
    decreases |p|
  {
    if p == [] {
      assert p + "," + rest == [','] + rest;
    } else {
      SplitFirst(p[1..], rest);
      var s := p + "," + rest;
      assert s[0] == p[0] && s[1..] == p[1..] + "," + rest;
      assert [p[0]] + p[1..] == p;
    }
  }

  lemma {:induction false} SplitLast(p: string)
    requires NoComma(p)
    ensures Split(p) == [p]
    decreases |p|
  {
    if p != [] {
      SplitLast(p[1..]);
      assert [p[0]] + p[1..] == p;
    }
  }

  /** Splitting undoes joining when no piece holds a comma. */
  lemma {:induction false} SplitJoin(parts: seq<string>)
    requires |parts| >= 1
    requires forall i :: 0 <= i < |parts| ==> NoComma(parts[i])
    ensures Split(Join(parts)) == parts
    decreases |parts|
  {
    if |parts| == 1 {
      SplitLast(parts[0]);
    } else {
      SplitJoin(parts[1..]);
      SplitFirst(parts[0], Join(parts[1..]));
      assert [parts[0]] + parts[1..] == parts;
    }
  }

  /** The VALUES list of a statement, split at its commas. */
  function ValueParts(q: Insert, timeText: int -> string): seq<string> {
    ["'" + timeText(q.row.opentime) + "'", q.row.open, q.row.high,
     " " + q.row.low, " " + q.row.close, " " + q.row.volume,
     " " + ("'" + timeText(q.row.closetime) + "'")]
  }

  /** The VALUES text of the format string, split at its commas. */
  lemma ValuesLayout(t0: string, o: string, h: string, l: string, c: string, v: string, t6: string)
    ensures "'" + t0 + "'," + o + "," + h + ", " + l + ", " + c + ", " + v + ", '" + t6 + "'"
         == Join(["'" + t0 + "'", o, h, " " + l, " " + c, " " + v, " " + ("'" + t6 + "'")])
  {
    var p := ["'" + t0 + "'", o, h, " " + l, " " + c, " " + v, " " + ("'" + t6 + "'")];
    assert Join(p[6..]) == p[6];
    assert Join(p[5..]) == p[5] + "," + p[6];
    assert Join(p[4..]) == p[4] + "," + Join(p[5..]);
    assert Join(p[3..]) == p[3] + "," + Join(p[4..]);
    assert Join(p[2..]) == p[2] + "," + Join(p[3..]);
    assert Join(p[1..]) == p[1] + "," + Join(p[2..]);
    assert Join(p) == p[0] + "," + Join(p[1..]);
  }

  lemma SqlLayout(q: Insert, timeText: int -> string)
    ensures Sql(q, timeText) == Intro + q.table + Middle + Join(ValueParts(q, timeText)) + Outro
  {
    var r := q.row;
    var t0, t6 := timeText(r.opentime), timeText(r.closetime);
    ValuesLayout(t0, r.open, r.high, r.low, r.close, r.volume, t6);
    assert Sql(q, timeText) == Intro + q.table + Middle
      + ("'" + t0 + "'," + r.open + "," + r.high + ", " + r.low + ", " + r.close + ", " + r.volume + ", '" + t6 + "'")
      + Outro;
  }

  lemma {:induction false} IndexOfAfter(t: string, r: string, c: char)
    requires c !in t && |r| >= 1 && r[0] == c
    ensures IndexOf(t + r, c) == |t|
    decreases |t|
  {
    if t != [] {
      assert (t + r)[1..] == t[1..] + r;
      IndexOfAfter(t[1..], r, c);
    } else {
      assert t + r == r;
    }
  }

  /** A text laid out as a statement is read as its table and its values. */
  lemma ParseLayout(table: string, body: string)
    requires ' ' !in table
    ensures ParseInsert(Intro + table + Middle + body + Outro)
         == match Values(Split(body))
            case Some(vs) => Some(ParsedInsert(table, vs))
            case None => None
  {
    var rest := Middle + body + Outro;
    var text := Intro + table + Middle + body + Outro;
    assert text == Intro + (table + rest);
    assert text[..|Intro|] == Intro;
    var afterIntro := text[|Intro|..];
    assert afterIntro == table + rest;
    assert rest[0] == ' ';
    IndexOfAfter(table, rest, ' ');
    assert afterIntro[..|table|] == table;
    assert afterIntro[|table|..] == rest;
    assert rest[..|Middle|] == Middle;
    assert rest[|rest| - |Outro|..] == Outro;
    assert rest[|Middle|..|rest| - |Outro|] == body;
  }

  lemma ValuesOfParts(q: Insert, timeText: int -> string)
    ensures Values(ValueParts(q, timeText)) == Some([timeText(q.row.opentime), q.row.open, q.row.high,
      q.row.low, q.row.close, q.row.volume, timeText(q.row.closetime)])
  {
    var parts := ValueParts(q, timeText);
    assert Unquote(parts[0]) == Some(timeText(q.row.opentime));
    assert DropBlank(parts[6]) == Some("'" + timeText(q.row.closetime) + "'");
  }

  /** Reading the text of a statement gives back its table, the two times
      as `timeText` rendered them, and fields 1-5 verbatim in their order. */
  lemma SqlRoundTrip(q: Insert, timeText: int -> string)
    requires Readable(q, timeText)
    ensures ParseInsert(Sql(q, timeText)) == Some(ParsedInsert(q.table,
      [timeText(q.row.opentime), q.row.open, q.row.high, q.row.low,
       q.row.close, q.row.volume, timeText(q.row.closetime)]))
  {
    var parts := ValueParts(q, timeText);
    SqlLayout(q, timeText);
    ParseLayout(q.table, Join(parts));
    forall i | 0 <= i < |parts| ensures NoComma(parts[i]) {
    }
    SplitJoin(parts);
    ValuesOfParts(q, timeText);
  }

  /** `generate_queries`: one INSERT per kline of the page, in page order,
      all into the lowercased symbol's table. */
  method GenerateQueries(klines: seq<Kline>, symbol: string) returns (queries: seq<Insert>)
    ensures |queries| == |klines|
    ensures forall i :: 0 <= i < |klines| ==> queries[i] == Insert(Lower(symbol), RowOf(klines[i]))
  {
    queries := [];
    for i := 0 to |klines|
      invariant |queries| == i
      invariant forall j :: 0 <= j < i ==> queries[j] == Insert(Lower(symbol), RowOf(klines[j]))
    {
      queries := queries + [Insert(Lower(symbol), RowOf(klines[i]))];
    }
  }
}
