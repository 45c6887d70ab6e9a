/** The logical sequences that producers stand for, and the list-level meaning of
    every combinator of a lazy sequence. A producer is a factory of fresh cursors;
    all its cursors yield the same elements in the same order, so a producer is
    modelled here by that one logical sequence, finite or infinite. */
module Streams {

  datatype Option<T> = None | Some(value: T)

  function Max0(n: int): nat { if n < 0 then 0 else n }

  function Min(a: int, b: int): int { if a < b then a else b }

  /** What every fresh cursor of a producer yields: a finite list of elements,
      or an element for every position. */
  datatype Stream<T> = Finite(s: seq<T>) | Infinite(f: nat -> T)
  {
    /** The element a fresh cursor yields on its pull number k + 1, or None
        when the cursor is exhausted by then. */
    function Get(k: nat): Option<T>
    {
      match this
      case Finite(s) => if k < |s| then Some(s[k]) else None
      case Infinite(f) => Some(f(k))
    }

    /** The first n elements, or all of them when there are fewer. */
    function Prefix(n: nat): (p: seq<T>)
      ensures |p| == if Finite? && |s| < n then |s| else n
      ensures forall i :: 0 <= i < |p| ==> Get(i) == Some(p[i])
    {
      match this
      case Finite(s) => if n <= |s| then s[..n] else s
      case Infinite(f) => seq(n, (i: int) requires 0 <= i < n => f(i))
    }

    /** Two streams denote the same logical sequence when every position agrees. */
    ghost predicate Equivalent(other: Stream<T>)
    {
      forall k: nat :: Get(k) == other.Get(k)
    }
  }

  /** A prefix grows by the element at its end. */
  lemma {:induction false} PrefixSnoc<T>(t: Stream<T>, n: nat, x: T)
    requires t.Get(n) == Some(x)
    ensures t.Prefix(n + 1) == t.Prefix(n) + [x]
  {
    var p, q := t.Prefix(n + 1), t.Prefix(n) + [x];
    assert |p| == |q|;
    forall i | 0 <= i < |p|
      ensures p[i] == q[i]
    {
      assert t.Get(i) == Some(p[i]);
      if i < n {
        assert t.Get(i) == Some(t.Prefix(n)[i]);
      }
    }
  }

  /** A prefix at least as long as a finite stream is the whole stream. */
  lemma {:induction false} PrefixWhole<T>(t: Stream<T>, n: nat)
    requires t.Get(n).None?
    ensures t.Finite? && t.Prefix(n) == t.s
  {
    match t
    case Finite(s) =>
      assert |s| <= n;
  }

  /** For finite streams, denoting the same logical sequence is plain equality. */
  lemma {:induction false} EquivalentFinite<T>(a: seq<T>, b: seq<T>)
    requires Finite(a).Equivalent(Finite(b))
    ensures a == b
  {
    assert Finite(b).Get(|a|) == Finite(a).Get(|a|) == None;
    assert Finite(a).Get(|b|) == Finite(b).Get(|b|) == None;
    forall i | 0 <= i < |a|
      ensures a[i] == b[i]
    {
      assert Finite(a).Get(i) == Finite(b).Get(i);
    }
  }

  // ---------------------------------------------------------------------------
  // map: one output element per source element, in source order

  function Map<T, U>(t: Stream<T>, f: T -> U): (r: Stream<U>)
    ensures r.Finite? == t.Finite?
    ensures t.Finite? ==> |r.s| == |t.s|
    ensures forall k: nat :: r.Get(k) == if t.Get(k).Some? then Some(f(t.Get(k).value)) else None
  {
    match t
    case Finite(s) => Finite(seq(|s|, (i: int) requires 0 <= i < |s| => f(s[i])))
    case Infinite(g) => Infinite((k: nat) => f(g(k)))
  }

  /** Bounding and then transforming gives what transforming and then bounding gives. */
  lemma {:induction false} TakeMapCommute<T, U>(t: Stream<T>, f: T -> U, n: int)
    ensures Take(Map(t, f), n) == Map(Take(t, n), f)
  {
    var a, b := Take(Map(t, f), n).s, Map(Take(t, n), f).s;
    assert |a| == |b|;
    forall i | 0 <= i < |a|
      ensures a[i] == b[i]
    {
      assert Map(t, f).Get(i) == Some(a[i]);
      assert Take(t, n).Get(i) == Some(Take(t, n).s[i]);
      assert t.Get(i) == Some(Take(t, n).s[i]);
      assert Map(Take(t, n), f).Get(i) == Some(b[i]);
    }
  }

  // ---------------------------------------------------------------------------
  // filter: the source elements that satisfy the predicate, in source order

  function Filter<T>(s: seq<T>, p: T -> bool): (r: seq<T>)
    ensures |r| <= |s|
    ensures forall i :: 0 <= i < |r| ==> r[i] in s && p(r[i])
    ensures forall i :: 0 <= i < |s| && p(s[i]) ==> s[i] in r
    decreases |s|
  {
    if s == [] then []
    else
      assert s == [s[0]] + s[1..];
      (if p(s[0]) then [s[0]] else []) + Filter(s[1..], p)
  }

  /** Filtering distributes over concatenation; with the one-element case this
      pins the order of the result to the source order. */
  lemma {:induction false} FilterAppend<T>(a: seq<T>, b: seq<T>, p: T -> bool)
    ensures Filter(a + b, p) == Filter(a, p) + Filter(b, p)
    decreases |a|
  {
    if a == [] {
      assert a + b == b;
    } else {
      assert (a + b)[0] == a[0];
      assert (a + b)[1..] == a[1..] + b;
      FilterAppend(a[1..], b, p);
    }
  }

  lemma FilterSingleton<T>(x: T, p: T -> bool)
    ensures Filter([x], p) == if p(x) then [x] else []
  {
    assert [x][1..] == [];
  }

  // ---------------------------------------------------------------------------
  // take: at most the first n elements; always finite

  function Take<T>(t: Stream<T>, n: int): (r: Stream<T>)
    ensures r.Finite?
    ensures n <= 0 ==> r.s == []
    ensures t.Finite? ==> |r.s| == Min(Max0(n), |t.s|)
    ensures t.Infinite? ==> |r.s| == Max0(n)
    ensures forall i :: 0 <= i < |r.s| ==> t.Get(i) == Some(r.s[i])
  {
    Finite(t.Prefix(Max0(n)))
  }

  // ---------------------------------------------------------------------------
  // flatMap: every inner sequence in turn, source-major, inner order kept

  /** Lazy concatenation: the elements of a, then those of b; b is never reached
      when a is infinite. */
  function Append<T>(a: Stream<T>, b: Stream<T>): (r: Stream<T>)
    ensures r.Finite? <==> a.Finite? && b.Finite?
    ensures r.Finite? ==> |r.s| == |a.s| + |b.s|
    ensures forall k: nat :: r.Get(k) == if a.Finite? && k >= |a.s| then b.Get(k - |a.s|) else a.Get(k)
  {
    match a
    case Infinite(_) => a
    case Finite(p) =>
      match b
      case Finite(q) => Finite(p + q)
      case Infinite(g) => Infinite((k: nat) => if k < |p| then p[k] else g(k - |p|))
  }

  lemma {:induction false} AppendAssociative<T>(a: Stream<T>, b: Stream<T>, c: Stream<T>)
    ensures Append(Append(a, b), c).Equivalent(Append(a, Append(b, c)))
  {
    var l, r := Append(Append(a, b), c), Append(a, Append(b, c));
    forall k: nat
      ensures l.Get(k) == r.Get(k)
    {
      if a.Finite? && k >= |a.s| {
        if b.Finite? && k - |a.s| >= |b.s| {
          assert l.Get(k) == c.Get(k - |a.s| - |b.s|);
        }
      }
    }
  }

  lemma {:induction false} AppendCongruent<T>(a: Stream<T>, b: Stream<T>, b': Stream<T>)
    requires b.Equivalent(b')
    ensures Append(a, b).Equivalent(Append(a, b'))
  {
    forall k: nat
      ensures Append(a, b).Get(k) == Append(a, b').Get(k)
    {
      if a.Finite? && k >= |a.s| {
        assert b.Get(k - |a.s|) == b'.Get(k - |a.s|);
      }
    }
  }

  function FlatMap<T, U>(s: seq<T>, f: T -> Stream<U>): (r: Stream<U>)
    ensures r.Finite? <==> forall i :: 0 <= i < |s| ==> f(s[i]).Finite?
    decreases |s|
  {
    if s == [] then Finite([])
    else
      var rest := FlatMap(s[1..], f);
      assert forall i :: 1 <= i < |s| ==> s[i] == s[1..][i - 1];
      Append(f(s[0]), rest)
  }

  /** Flat-mapping a concatenation gives the flat-map of the first part followed
      by that of the second: the output is source-major. */
  lemma {:induction false} FlatMapAppend<T, U>(a: seq<T>, b: seq<T>, f: T -> Stream<U>)
    ensures FlatMap(a + b, f).Equivalent(Append(FlatMap(a, f), FlatMap(b, f)))
    decreases |a|
  {
    if a == [] {
      assert a + b == b;
    } else {
      assert (a + b)[0] == a[0];
      assert (a + b)[1..] == a[1..] + b;
      FlatMapAppend(a[1..], b, f);
      AppendCongruent(f(a[0]), FlatMap(a[1..] + b, f), Append(FlatMap(a[1..], f), FlatMap(b, f)));
      AppendAssociative(f(a[0]), FlatMap(a[1..], f), FlatMap(b, f));
    }
  }

  /** When every inner sequence is finite, flat-mapping a concatenation is plainly
      the concatenation of the two flat-maps. */
  lemma {:induction false} FlatMapAppendFinite<T, U>(a: seq<T>, b: seq<T>, f: T -> Stream<U>)
    requires forall i :: 0 <= i < |a| ==> f(a[i]).Finite?
    requires forall i :: 0 <= i < |b| ==> f(b[i]).Finite?
    ensures FlatMap(a + b, f) == Finite(FlatMap(a, f).s + FlatMap(b, f).s)
  {
    assert forall i :: 0 <= i < |a + b| ==> f((a + b)[i]).Finite? by {
      forall i | 0 <= i < |a + b|
        ensures f((a + b)[i]).Finite?
      {
        if i < |a| {
          assert (a + b)[i] == a[i];
        } else {
          assert (a + b)[i] == b[i - |a|];
        }
      }
    }
    FlatMapAppend(a, b, f);
    EquivalentFinite(FlatMap(a + b, f).s, Append(FlatMap(a, f), FlatMap(b, f)).s);
  }

  /** One source element contributes exactly its inner sequence, in its own order. */
  lemma FlatMapSingleton<T, U>(x: T, f: T -> Stream<U>)
    ensures FlatMap([x], f) == f(x)
  {
    assert [x][1..] == [];
    match f(x)
    case Finite(p) => assert p + [] == p;
    case Infinite(_) =>
  }

  // ---------------------------------------------------------------------------
  // zip: pairs in lockstep, as long as the shorter side

  function Zip<A, B>(a: Stream<A>, b: Stream<B>): (r: Stream<(A, B)>)
    ensures r.Finite? <==> a.Finite? || b.Finite?
    ensures forall k: nat :: r.Get(k) ==
                             if a.Get(k).Some? && b.Get(k).Some? then Some((a.Get(k).value, b.Get(k).value)) else None
  {
    if a.Infinite? && b.Infinite? then
      Infinite((k: nat) => (a.f(k), b.f(k)))
    else
      var n := if a.Infinite? then |b.s| else if b.Infinite? then |a.s| else Min(|a.s|, |b.s|);
      var pa, pb := a.Prefix(n), b.Prefix(n);
      var r := Finite(seq(n, (i: int) requires 0 <= i < n => (pa[i], pb[i])));
      assert forall k: nat :: k >= n ==> a.Get(k).None? || b.Get(k).None?;
      r
  }

  // ---------------------------------------------------------------------------
  // reduce: the left fold

  function FoldLeft<A, T>(f: (A, T) -> A, init: A, s: seq<T>): A
    decreases |s|
  {
    if s == [] then init else FoldLeft(f, f(init, s[0]), s[1..])
  }

  /** Folding a concatenation folds the second part starting from the fold of the first. */
  lemma {:induction false} FoldLeftAppend<A, T>(f: (A, T) -> A, init: A, a: seq<T>, b: seq<T>)
    ensures FoldLeft(f, init, a + b) == FoldLeft(f, FoldLeft(f, init, a), b)
    decreases |a|
  {
    if a == [] {
      assert a + b == b;
    } else {
      assert (a + b)[0] == a[0];
      assert (a + b)[1..] == a[1..] + b;
      FoldLeftAppend(f, f(init, a[0]), a[1..], b);
    }
  }

  /** Folding one more element applies the function once more to the accumulator. */
  lemma {:induction false} FoldLeftSnoc<A, T>(f: (A, T) -> A, init: A, s: seq<T>, x: T)
    ensures FoldLeft(f, init, s + [x]) == f(FoldLeft(f, init, s), x)
  {
    FoldLeftAppend(f, init, s, [x]);
    assert [x][1..] == [];
  }
}
