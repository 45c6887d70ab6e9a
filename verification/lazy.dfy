/** The lazy sequence of src/core/Lazy.ts: a producer of fresh forward-only
    cursors, an append-only cache for lookups by index, and the combinators
    that build new lazy sequences or drain a traversal into a value. */
module LazySequence {
  import opened Streams

  /** A forward-only cursor over a producer's logical sequence: what one call of
      the producer returns. `pos` counts the elements pulled so far. */
  class Cursor<T> {
    const source: Stream<T>
    var pos: nat

    predicate Valid()
      reads this
    {
      source.Finite? ==> pos <= |source.s|
    }

    constructor (source: Stream<T>)
      ensures this.source == source && pos == 0 && Valid()
    {
      this.source := source;
      pos := 0;
    }

    /** Pulls the next element, or reports exhaustion and stays where it is. */
    method Next() returns (r: Option<T>)
      requires Valid()
      modifies this
      ensures Valid()
      ensures r == source.Get(old(pos))
      ensures pos == if r.Some? then old(pos) + 1 else old(pos)
    {
      r := source.Get(pos);
      if r.Some? {
        pos := pos + 1;
      }
    }
  }

  class Lazy<T> {
    /** The producer, set once and never reassigned. */
    const producer: Stream<T>
    /** Append-only memo of elements already produced, for lookups by index. */
    var cache: seq<T>
    /** The one cursor that the corrected lookup At keeps and advances across
        calls; the lookup as written (GetValue) never uses it. */
    const pending: Cursor<T>

    /** Every cached element is the element a fresh traversal yields at that
        position, and the retained cursor stands just past the cache. */
    ghost predicate Valid()
      reads this, pending
    {
      pending.source == producer && pending.Valid() && cache == producer.Prefix(pending.pos)
    }

    /** What the lookup as written keeps true: every cached entry is the
        producer's first element. */
    ghost predicate RepeatsFirst()
      reads this
    {
      forall i :: 0 <= i < |cache| ==> producer.Get(0) == Some(cache[i])
    }

    constructor (producer: Stream<T>)
      ensures this.producer == producer && cache == [] && Valid() && RepeatsFirst()
      ensures fresh(pending)
    {
      this.producer := producer;
      cache := [];
      pending := new Cursor(producer);
    }

    /** The iteration protocol: every traversal calls the producer afresh and
        starts from the logical beginning. */
    method Iterate() returns (c: Cursor<T>)
      ensures fresh(c) && c.source == producer && c.pos == 0 && c.Valid()
    {
      c := new Cursor(producer);
    }

    /** Lookup by index as written: each round of the fill loop calls the
        producer again and takes only the first element of the new cursor, so
        every appended entry is the producer's first element. */
    method GetValue(index: int) returns (r: Option<T>)
      modifies this
      ensures producer.Get(0).None? ==> cache == old(cache)
      ensures producer.Get(0).Some? ==>
                cache == old(cache) + seq(Max0(index + 1 - |old(cache)|), _ => producer.Get(0).value)
      ensures producer.Get(0).Some? ==> index < |cache|
      ensures r == if 0 <= index < |cache| then Some(cache[index]) else None
      ensures old(RepeatsFirst()) ==> RepeatsFirst()
      ensures RepeatsFirst() && producer.Get(0).None? ==> r == None
    {
      while |cache| <= index
        invariant |old(cache)| <= |cache| <= Max0(index + 1) || cache == old(cache)
        invariant producer.Get(0).None? ==> cache == old(cache)
        invariant producer.Get(0).Some? ==>
                    cache == old(cache) + seq(|cache| - |old(cache)|, _ => producer.Get(0).value)
        decreases index + 1 - |cache|
      {
        var cursor := new Cursor(producer);
        var step := cursor.Next();
        if step.None? {
          break;
        }
        cache := cache + [step.value];
      }
      r := if 0 <= index < |cache| then Some(cache[index]) else None;
    }

    /** Lookup by index as the memo cache intends it: the retained cursor is
        advanced only as far as the request needs, and every element is pulled
        from the producer at most once. */
    method At(index: int) returns (r: Option<T>)
      requires Valid()
      modifies this, pending
      ensures Valid()
      ensures r == if index < 0 then None else producer.Get(index)
      ensures cache == producer.Prefix(if index < |old(cache)| then |old(cache)| else index + 1)
      ensures pending.pos - old(pending.pos) == |cache| - |old(cache)|
    {
      while |cache| <= index
        invariant Valid()
        invariant |old(cache)| <= |cache|
        invariant pending.pos - old(pending.pos) == |cache| - |old(cache)|
        invariant |cache| <= Max0(index + 1) || cache == old(cache)
        decreases index + 1 - |cache|
      {
        var step := pending.Next();
        if step.None? {
          PrefixWhole(producer, pending.pos);
          break;
        }
        PrefixSnoc(producer, |cache|, step.value);
        cache := cache + [step.value];
      }
      if 0 <= index < |cache| {
        r := Some(cache[index]);
      } else {
        r := None;
        if 0 <= index {
          assert producer.Finite? && |producer.s| <= index;
        }
      }
    }

    // -------------------------------------------------------------------------
    // Combinators: building one pulls nothing; the new sequence's producer
    // pulls from this one when it is traversed.

    method Map<U>(f: T -> U) returns (r: Lazy<U>)
      ensures fresh(r) && r.producer == Streams.Map(producer, f) && r.cache == [] && r.Valid()
    {
      r := new Lazy(Streams.Map(producer, f));
    }

    method Filter(p: T -> bool) returns (r: Lazy<T>)
      requires producer.Finite?
      ensures fresh(r) && r.producer == Finite(Streams.Filter(producer.s, p)) && r.cache == [] && r.Valid()
    {
      r := new Lazy(Finite(Streams.Filter(producer.s, p)));
    }

    method Take(n: int) returns (r: Lazy<T>)
      ensures fresh(r) && r.producer == Streams.Take(producer, n) && r.cache == [] && r.Valid()
    {
      r := new Lazy(Streams.Take(producer, n));
    }

    /** The callback gives the producer of each inner sequence. */
    method FlatMap<U>(f: T -> Stream<U>) returns (r: Lazy<U>)
      requires producer.Finite?
      ensures fresh(r) && r.producer == Streams.FlatMap(producer.s, f) && r.cache == [] && r.Valid()
    {
      r := new Lazy(Streams.FlatMap(producer.s, f));
    }

    method Zip<U>(other: Lazy<U>) returns (r: Lazy<(T, U)>)
      ensures fresh(r) && r.producer == Streams.Zip(producer, other.producer) && r.cache == [] && r.Valid()
    {
      r := new Lazy(Streams.Zip(producer, other.producer));
    }

    // -------------------------------------------------------------------------
    // The producers that take and zip build, run until they finish.

    /** Runs the producer that take(n) builds over this sequence until it
        finishes: what it yields, and how many source elements it pulled. The
        source is pulled before the count is checked, so one element more than
        is yielded is pulled whenever the source has it. */
    method DrainTake(n: int) returns (yielded: seq<T>, pulled: nat)
      ensures Finite(yielded) == Streams.Take(producer, n)
      ensures pulled == |producer.Prefix(Max0(n) + 1)|
    {
      var source := Iterate();
      var count := 0;
      yielded := [];
      while true
        invariant source.source == producer && source.Valid()
        invariant count == source.pos == |yielded| <= Max0(n)
        invariant yielded == producer.Prefix(count)
        decreases n - count
      {
        var v := source.Next();
        if v.None? {
          PrefixWhole(producer, source.pos);
          break;
        }
        var seen := count;
        count := count + 1;
        if seen >= n {
          break;
        }
        PrefixSnoc(producer, |yielded|, v.value);
        yielded := yielded + [v.value];
      }
      pulled := source.pos;
    }

    /** Runs the producer that zip builds over this sequence and other until
        it finishes. Each round pulls from both sides before testing either for
        exhaustion, so a longer side gives up one element more than is paired. */
    method DrainZip<U>(other: Lazy<U>) returns (yielded: seq<(T, U)>, pulledSelf: nat, pulledOther: nat)
      requires producer.Finite? || other.producer.Finite?
      ensures Finite(yielded) == Streams.Zip(producer, other.producer)
      ensures pulledSelf == |producer.Prefix(|yielded| + 1)|
      ensures pulledOther == |other.producer.Prefix(|yielded| + 1)|
    {
      var iter1 := Iterate();
      var iter2 := other.Iterate();
      yielded := [];
      ghost var bound := if producer.Finite? then |producer.s| else |other.producer.s|;
      ghost var zipped := Streams.Zip(producer, other.producer);
      while true
        invariant iter1.source == producer && iter1.Valid()
        invariant iter2.source == other.producer && iter2.Valid()
        invariant iter1.pos == iter2.pos == |yielded| <= bound
        invariant yielded == zipped.Prefix(|yielded|)
        decreases bound - |yielded|
      {
        var v1 := iter1.Next();
        var v2 := iter2.Next();
        if v1.None? || v2.None? {
          PrefixWhole(zipped, |yielded|);
          break;
        }
        PrefixSnoc(zipped, |yielded|, (v1.value, v2.value));
        yielded := yielded + [(v1.value, v2.value)];
      }
      pulledSelf, pulledOther := iter1.pos, iter2.pos;
    }

    // -------------------------------------------------------------------------
    // Terminal operations: drain a fresh traversal.

    method Reduce<U>(f: (U, T) -> U, init: U) returns (r: U)
      requires producer.Finite?
      ensures r == FoldLeft(f, init, producer.s)
      ensures producer.s == [] ==> r == init
    {
      var c := Iterate();
      r := init;
      while true
        invariant c.source == producer && c.Valid()
        invariant r == FoldLeft(f, init, producer.s[..c.pos])
        decreases |producer.s| - c.pos
      {
        var v := c.Next();
        if v.None? {
          break;
        }
        assert producer.s[..c.pos] == producer.s[..c.pos - 1] + [v.value];
        FoldLeftSnoc(f, init, producer.s[..c.pos - 1], v.value);
        r := f(r, v.value);
      }
      assert producer.s[..c.pos] == producer.s;
    }

    method ToArray() returns (r: seq<T>)
      requires producer.Finite?
      ensures r == producer.s
    {
      var c := Iterate();
      r := [];
      while true
        invariant c.source == producer && c.Valid()
        invariant r == producer.s[..c.pos]
        decreases |producer.s| - c.pos
      {
        var v := c.Next();
        if v.None? {
          break;
        }
        r := r + [v.value];
      }
    }
  }

  /** Restartability: two traversals of the same value see the same elements.
      Here this holds by construction, since a producer is modelled by one
      immutable logical sequence, so this says nothing about a user-supplied
      producer that yields differently on each call. What the code itself has
      to get right is that the per-run state of take (its count) and of zip
      (its two cursors) is local to each run; DrainTake and DrainZip show that
      by starting every run from a fresh cursor. */
  method ToArrayTwice<T>(l: Lazy<T>) returns (first: seq<T>, second: seq<T>)
    requires l.producer.Finite?
    ensures first == second == l.producer.s
  {
    first := l.ToArray();
    second := l.ToArray();
  }

  /** On the two-element producer [10, 20], the lookup as written answers index 1
      with the first element, where the intended lookup answers the second. */
  method GetValueRepeatsFirst() returns (asWritten: Option<int>, intended: Option<int>)
    ensures asWritten == Some(10)
    ensures intended == Some(20)
  {
    var l := new Lazy(Finite([10, 20]));
    asWritten := l.GetValue(1);
    var m := new Lazy(Finite([10, 20]));
    intended := m.At(1);
  }
}
