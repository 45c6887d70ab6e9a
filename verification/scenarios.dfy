/** The usage scenarios of tests/Lazy.test.ts, expressed through the object API. */
module Scenarios {
  import opened Streams
  import opened LazySequence
  import opened Generators

  /** An unbounded counter, bounded to five elements. */
  method TakeFromCounter() returns (r: seq<int>)
    ensures r == [0, 1, 2, 3, 4]
  {
    var counter := new Lazy(Infinite((k: nat) => k as int));
    var first := counter.Take(5);
    r := first.ToArray();
    assert r == Take(Infinite((k: nat) => k as int), 5).s;
  }

  method MapDoubles() returns (r: seq<int>)
    ensures r == [0, 2, 4, 6, 8]
  {
    var range := LazyRange(0);
    var first := range.Take(5);
    var doubled := first.Map(x => x * 2);
    r := doubled.ToArray();
    TakeUnboundedRange(0, 1, 5);
  }

  function Naturals(n: nat): seq<int> { seq(n, (k: int) => k) }

  function EvenNumbers(n: nat): seq<int> { seq(n, (k: int) => 2 * k) }

  /** Filtering 0, 1, ..., 2m - 1 for even numbers keeps 0, 2, ..., 2m - 2. */
  lemma {:induction false} EvensBelow(m: nat, p: int -> bool)
    requires forall x :: p(x) == (x % 2 == 0)
    ensures Filter(Naturals(2 * m), p) == EvenNumbers(m)
  {
    if m > 0 {
      var s := Naturals(2 * (m - 1));
      var pair := [2 * m - 2, 2 * m - 1];
      assert Naturals(2 * m) == s + pair;
      FilterAppend(s, pair, p);
      EvensBelow(m - 1, p);
      assert Filter(pair, p) == [2 * m - 2] by {
        assert pair[1..] == [2 * m - 1];
        assert pair[1..][1..] == [];
      }
      assert EvenNumbers(m) == EvenNumbers(m - 1) + [2 * m - 2];
    }
  }

  method FilterEvens() returns (r: seq<int>)
    ensures r == [0, 2, 4, 6, 8]
  {
    var range := LazyRange(0);
    var first := range.Take(10);
    var even := (x: int) => x % 2 == 0;
    var evens := first.Filter(even);
    r := evens.ToArray();
    assert r == EvenNumbers(5) by {
      EvensOfFirstTen(even);
    }
    FirstFiveEvens();
  }

  lemma FirstFiveEvens()
    ensures EvenNumbers(5) == [0, 2, 4, 6, 8]
  {
  }

  lemma EvensOfFirstTen(even: int -> bool)
    requires forall x :: even(x) == (x % 2 == 0)
    ensures Filter(Take(Range(0, Unbounded, 1), 10).s, even) == EvenNumbers(5)
  {
    var firstTen := Take(Range(0, Unbounded, 1), 10).s;
    assert firstTen == Naturals(2 * 5) by {
      TakeUnboundedRange(0, 1, 10);
    }
    EvensBelow(5, even);
  }

  method FlatMapRepeats() returns (r: seq<int>)
    ensures r == [0, 0, 1, 1, 2, 2]
  {
    var range := LazyRange(0);
    var first := range.Take(3);
    var pairs := first.FlatMap(x => Repeat(x, Bounded(2)));
    r := pairs.ToArray();
    TakeUnboundedRange(0, 1, 3);
  }

  method ReduceSum() returns (r: int)
    ensures r == 10
  {
    var range := LazyRange(0);
    var first := range.Take(5);
    r := first.Reduce((acc, x) => acc + x, 0);
    TakeUnboundedRange(0, 1, 5);
  }

  method ZipWithRepeat() returns (r: seq<(int, char)>)
    ensures r == [(0, 'a'), (1, 'a'), (2, 'a')]
  {
    var range := LazyRange(0);
    var seq1 := range.Take(3);
    var letters := LazyRepeat('a');
    var seq2 := letters.Take(3);
    var zipped := seq1.Zip(seq2);
    r := zipped.ToArray();
    TakeUnboundedRange(0, 1, 3);
  }
}
