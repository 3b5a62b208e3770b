/**
 The timestamp pager (`timestamp_generator`): from `start`, in steps of
 `interval` minutes, every timestamp strictly before `end`. Timestamps are
 whole seconds since the epoch, so a step of `interval` minutes is
 `interval * 60` seconds.
 */
module Pager {
  import opened Options

  /** Number of steps of `step` needed to cover `span`, rounded up. */
  function CeilDiv(span: nat, step: nat): nat
    requires step > 0
  {
    (span + step - 1) / step
  }

  lemma {:induction false} MulAtLeast(k: int, d: nat)
    requires k >= 1
    ensures k * d >= d
    decreases k
  {
    if k > 1 {
      MulAtLeast(k - 1, d);
      assert k * d == (k - 1) * d + d;
    }
  }

  /** Euclidean division is determined by quotient and remainder. */
  lemma DivUnique(n: int, d: int, q: int, r: int)
    requires d > 0 && n == q * d + r && 0 <= r < d
    ensures n / d == q
  {
    var q', r' := n / d, n % d;
    assert n == q' * d + r' && 0 <= r' < d;
    assert (q - q') * d == q * d - q' * d;
    assert (q' - q) * d == q' * d - q * d;
    if q > q' {
      MulAtLeast(q - q', d);
    } else if q < q' {
      MulAtLeast(q' - q, d);
    }
  }

  /** The values the generator yields, in order. Finite exactly when
      `start >= end` or the step is positive; otherwise the generator never
      stops, and no sequence describes it. */
  function PageStarts(start: int, end: int, step: int): (r: seq<int>)
    requires start >= end || step > 0
    ensures r == [] <==> start >= end
    decreases end - start
  {
    if start >= end then [] else [start] + PageStarts(start + step, end, step)
  }

  /** Nothing is yielded when `start >= end`; otherwise the first value is
      `start`, every value lies in `[start, end)`, consecutive values are
      one step apart, the values strictly increase, and the pager stops only
      once the next value would reach `end`. */
  lemma {:induction false} PageStartsBounds(start: int, end: int, step: int)
    requires start >= end || step > 0
    ensures var r := PageStarts(start, end, step);
      && (start >= end <==> r == [])
      && (start < end ==> r[0] == start)
      && (forall i :: 0 <= i < |r| ==> start <= r[i] < end)
      && (forall i, j :: 0 <= i && j == i + 1 < |r| ==> r[j] == r[i] + step)
      && (forall i, j :: 0 <= i < j < |r| ==> r[i] < r[j])
      && (r != [] ==> r[|r| - 1] + step >= end)
    decreases end - start
  {
    if start < end {
      PageStartsBounds(start + step, end, step);
    }
  }

  /** The `i`-th value yielded is `start + i * step`. */
  lemma {:induction false} PageStartAt(start: int, end: int, step: int, i: nat)
    requires start >= end || step > 0
    requires i < |PageStarts(start, end, step)|
    ensures PageStarts(start, end, step)[i] == start + i * step
  {
    PageStartsBounds(start, end, step);
    if i > 0 {
      PageStartAt(start, end, step, i - 1);
      assert (i - 1) * step + step == i * step;
    }
  }

  /** The generator yields `ceil((end - start) / step)` values. */
  lemma PageCount(start: int, end: int, step: int)
    requires step > 0
    ensures |PageStarts(start, end, step)| == if start < end then CeilDiv(end - start, step) else 0
  {
    var r := PageStarts(start, end, step);
    PageStartsBounds(start, end, step);
    if start < end {
      var n := |r|;
      PageStartAt(start, end, step, n - 1);
      var last := start + (n - 1) * step;
      assert last < end <= last + step;
      var span := end - start;
      var rem := span - 1 - (n - 1) * step;
      assert 0 <= rem < step;
      assert span + step - 1 == n * step + rem;
      DivUnique(span + step - 1, step, n, rem);
    }
  }

  /** The generator as an explicit cursor: `current` is the next value to
      yield; `Next` yields it and advances by one step, or reports the end. */
  class TimestampPager {
    const end: int
    const step: int
    var current: int

    /** `timestamp_generator(start, end, interval)`, with the step in minutes. */
    constructor (start: int, end: int, intervalMinutes: int)
      ensures this.end == end && step == intervalMinutes * 60 && current == start
    {
      this.end := end;
      step := intervalMinutes * 60;
      current := start;
    }

    /** The values still to come are finitely many. */
    ghost predicate Finite()
      reads this
    {
      current >= end || step > 0
    }

    /** The values still to come, in order. */
    function Remaining(): seq<int>
      reads this
      requires Finite()
    {
      PageStarts(current, end, step)
    }

    /** `next(generator)`: `None` stands for StopIteration. */
    method Next() returns (t: Option<int>)
      modifies this
      ensures t == (if old(current) < end then Some(old(current)) else None)
      ensures current == (if old(current) < end then old(current) + step else old(current))
      ensures old(Finite()) ==> Finite()
      ensures old(Finite()) && old(Remaining()) == [] ==> t == None && Remaining() == []
      ensures old(Finite()) && old(Remaining()) != [] ==>
        t == Some(old(Remaining())[0]) && Remaining() == old(Remaining())[1..]
    {
      if current < end {
        t := Some(current);
        current := current + step;
      } else {
        t := None;
      }
    }
  }
}
