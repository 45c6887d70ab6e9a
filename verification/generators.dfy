/** The two stock producers of src/core/Generators.ts: an arithmetic range and
    a repeated value. Each runs a counting loop whose counter is local to one
    run of the producer, so every traversal starts again from the beginning. */
module Generators {
  import opened Streams
  import LazySequence

  /** A loop bound that may be unbounded (the default of both producers). */
  datatype Limit = Bounded(n: int) | Unbounded
  {
    /** The loop guard `i < limit`; an unbounded limit admits every i. */
    predicate Admits(i: int)
    {
      Unbounded? || i < n
    }
  }

  /** How many times the guard `i < end` holds for i = start, start + step, ...
      when step is positive. */
  function RangeCount(start: int, end: int, step: int): nat
    requires step > 0
    decreases end - start
  {
    if start < end then 1 + RangeCount(start + step, end, step) else 0
  }

  /** Position k of a positive-step range exists exactly when its value is
      still below the end. */
  lemma {:induction false} RangeCountBelow(start: int, end: int, step: int, k: nat)
    requires step > 0
    ensures k < RangeCount(start, end, step) <==> start + k * step < end
    decreases end - start
  {
    if start < end && k > 0 {
      RangeCountBelow(start + step, end, step, k - 1);
      assert start + step + (k - 1) * step == start + k * step;
    } else if start >= end {
      assert k * step >= 0;
    }
  }

  /** The logical sequence of lazyRange(start, end, step). */
  function Range(start: int, end: Limit, step: int): (r: Stream<int>)
    ensures !end.Admits(start) ==> r == Finite([])
    ensures end.Unbounded? ==> r.Infinite?
    ensures forall k: nat :: r.Get(k).Some? ==> r.Get(k).value == start + k * step
  {
    if !end.Admits(start) then Finite([])
    else if end.Unbounded? || step <= 0 then Infinite((k: nat) => start + k * step)
    else Finite(seq(RangeCount(start, end.n, step), (k: int) => start + k * step))
  }

  /** With a positive step, position k holds start + k * step exactly when that
      value is still below the end. */
  lemma {:induction false} RangeAt(start: int, end: Limit, step: int, k: nat)
    requires step > 0
    ensures Range(start, end, step).Get(k) ==
              if end.Admits(start + k * step) then Some(start + k * step) else None
  {
    if end.Bounded? {
      RangeCountBelow(start, end.n, step, k);
      if !end.Admits(start) {
        assert k * step >= 0;
      }
    }
  }

  /** A positive-step range is strictly increasing. */
  lemma {:induction false} RangeIncreasing(start: int, end: Limit, step: int, i: nat, j: nat)
    requires step > 0 && i < j
    requires Range(start, end, step).Get(j).Some?
    ensures Range(start, end, step).Get(i).Some?
    ensures Range(start, end, step).Get(i).value < Range(start, end, step).Get(j).value
  {
    RangeAt(start, end, step, i);
    RangeAt(start, end, step, j);
    assert (j - i) * step > 0;
    assert start + i * step < start + j * step;
  }

  /** With no positive step, a range that starts below its end never leaves it. */
  lemma {:induction false} RangeNonPositiveStep(start: int, end: Limit, step: int, k: nat)
    requires step <= 0 && end.Admits(start)
    ensures Range(start, end, step).Get(k) == Some(start + k * step)
    ensures end.Admits(start + k * step)
  {
    assert k * step <= 0;
  }

  /** The first k values that one run of the range loop yields. */
  method RangeYields(start: int, end: Limit, step: int, k: nat) returns (ys: seq<int>)
    ensures ys == Range(start, end, step).Prefix(k)
  {
    ghost var r := Range(start, end, step);
    ys := [];
    var i := start;
    while end.Admits(i) && |ys| < k
      invariant |ys| <= k
      invariant i == start + |ys| * step
      invariant step <= 0 ==> i <= start
      invariant ys == r.Prefix(|ys|)
      decreases k - |ys|
    {
      if step > 0 {
        RangeAt(start, end, step, |ys|);
      } else {
        RangeNonPositiveStep(start, end, step, |ys|);
      }
      PrefixSnoc(r, |ys|, i);
      ys := ys + [i];
      i := i + step;
    }
    if |ys| < k {
      if step > 0 {
        RangeAt(start, end, step, |ys|);
      }
      PrefixWhole(r, |ys|);
    }
  }

  /** The logical sequence of lazyRepeat(value, times). */
  function Repeat<T>(value: T, times: Limit): (r: Stream<T>)
    ensures times.Unbounded? <==> r.Infinite?
    ensures forall k: nat :: r.Get(k) == if times.Admits(k) then Some(value) else None
  {
    match times
    case Unbounded => Infinite(_ => value)
    case Bounded(t) => Finite(seq(Max0(t), _ => value))
  }

  /** The first k values that one run of the repeat loop yields. */
  method RepeatYields<T>(value: T, times: Limit, k: nat) returns (ys: seq<T>)
    ensures ys == Repeat(value, times).Prefix(k)
  {
    ghost var r := Repeat(value, times);
    ys := [];
    var i := 0;
    while times.Admits(i) && |ys| < k
      invariant |ys| <= k
      invariant i == |ys|
      invariant ys == r.Prefix(|ys|)
      decreases k - |ys|
    {
      PrefixSnoc(r, |ys|, value);
      ys := ys + [value];
      i := i + 1;
    }
    if |ys| < k {
      PrefixWhole(r, |ys|);
    }
  }

  method LazyRange(start: int := 0, end: Limit := Unbounded, step: int := 1) returns (l: LazySequence.Lazy<int>)
    ensures fresh(l) && l.producer == Range(start, end, step) && l.cache == [] && l.Valid()
  {
    l := new LazySequence.Lazy(Range(start, end, step));
  }

  method LazyRepeat<T>(value: T, times: Limit := Unbounded) returns (l: LazySequence.Lazy<T>)
    ensures fresh(l) && l.producer == Repeat(value, times) && l.cache == [] && l.Valid()
  {
    l := new LazySequence.Lazy(Repeat(value, times));
  }

  /** take(n) of an unbounded range is its first n terms. */
  lemma {:induction false} TakeUnboundedRange(start: int, step: int, n: nat)
    ensures Take(Range(start, Unbounded, step), n) == Finite(seq(n, (k: int) => start + k * step))
  {
    var t := Take(Range(start, Unbounded, step), n);
    forall k | 0 <= k < n
      ensures t.s[k] == start + k * step
    {
      assert Range(start, Unbounded, step).Get(k) == Some(t.s[k]);
    }
  }

  /** take(n) of an unbounded repeat is n copies of the value. */
  lemma {:induction false} TakeUnboundedRepeat<T>(value: T, n: nat)
    ensures Take(Repeat(value, Unbounded), n) == Finite(seq(n, _ => value))
  {
    var t := Take(Repeat(value, Unbounded), n);
    forall k | 0 <= k < n
      ensures t.s[k] == value
    {
      assert Repeat(value, Unbounded).Get(k) == Some(t.s[k]);
    }
  }
}
