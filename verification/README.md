# Lazy sequences, modelled in Dafny

This project models the lazy-sequence engine of `src/core/Lazy.ts` and the two
stock producers of `src/core/Generators.ts`.

A `Lazy<T>` wraps a producer. A producer is a zero-argument factory that
returns a fresh forward-only cursor each time it is called. Every traversal
calls the producer again, so a lazy value can be traversed any number of times.
`map`, `filter`, `take`, `flatMap` and `zip` build new lazy values whose
producers pull from the source. `reduce` and `toArray` drain one traversal.
`getValue` fills an append-only `cache` for lookups by index.

How the model is laid out:

- `streams.dfy` (module `Streams`): a producer is modelled by the logical
  sequence its cursors yield. That sequence is `Finite(s)` or `Infinite(f)`
  with `f: nat -> T`. The module gives the list-level meaning of every
  combinator and the lemmas about it. `Equivalent` says two streams agree at
  every position. It is used where two infinite streams are built from
  different functions.
- `lazy.dfy` (module `LazySequence`):
  - `Cursor` is a forward-only cursor with a position.
  - `Lazy` is the class, with the `producer` and `cache` fields.
  - `GetValue` is the index lookup as written. `At` is the corrected lookup.
  - The combinator methods build new `Lazy` objects.
  - `DrainTake` and `DrainZip` run the producers that `take` and `zip` build,
    and report how many source elements each one pulls.
  - `Reduce` and `ToArray` are the two terminal loops.
- `generators.dfy` (module `Generators`):
  - `Range` and `Repeat` are the logical sequences of the two producers.
  - `RangeYields` and `RepeatYields` are their counting loops. Each is proved
    to yield the first k elements of that sequence.
  - `Limit` models an end bound or count that may be unbounded. `Unbounded`
    stands for the `Infinity` default.
- `scenarios.dfy` (module `Scenarios`): the scenarios of `tests/Lazy.test.ts`,
  expressed through the object API, with their expected results proved.

Where the code differs from what one might expect of it, the model follows the code:

- `take(n)`: a bound might be expected never to pull source element n + 1. The
  code's `for…of` pulls the next element before it tests `count++ >= n`, so it
  pulls min(max(n, 0) + 1, length) elements. `DrainTake` states this as written.
- `getValue`: the model states the behaviour as written. See "Findings".

## Model

| member | source | states |
|---|---|---|
| `Streams.Map` | src/core/Lazy.ts:40-47 | the result is finite exactly when the source is and has the same length; position k holds f applied to source position k, and nothing is there when the source has nothing |
| `Streams.TakeMapCommute` | tests/Lazy.test.ts:17-20 | taking n elements and then mapping gives the same sequence as mapping and then taking n |
| `Streams.Filter` | src/core/Lazy.ts:49-56 | the result is no longer than the source; every element kept is a source element that satisfies the predicate, and every source element that satisfies it is kept |
| `Streams.FilterAppend` | src/core/Lazy.ts:52-53 | filtering a concatenation gives the filtered first part followed by the filtered second part, so source order is kept |
| `Streams.FilterSingleton` | src/core/Lazy.ts:53 | one element is kept exactly when it satisfies the predicate |
| `Streams.Take` | src/core/Lazy.ts:58-67 | the result is always finite; it is empty when n <= 0; its length is min(n, length) for a finite source and n for an infinite one; position i is source position i |
| `Streams.Append` | src/core/Lazy.ts:73 | the elements of the first sequence come first, then those of the second; the second is never reached when the first is infinite; the result is finite only when both parts are |
| `Streams.FlatMap` | src/core/Lazy.ts:69-76 | the result is finite exactly when every inner sequence is finite |
| `Streams.FlatMapAppend` | src/core/Lazy.ts:72-74 | flat-mapping a concatenation gives the flat-map of the first part followed by that of the second: the output is source-major |
| `Streams.FlatMapAppendFinite` | src/core/Lazy.ts:72-74 | when every inner sequence is finite, flat-mapping a concatenation equals the plain concatenation of the two flat-maps |
| `Streams.FlatMapSingleton` | src/core/Lazy.ts:73 | one source element contributes exactly its inner sequence, in the inner order |
| `Streams.Zip` | src/core/Lazy.ts:86-98 | the result is finite when either side is; position k is the pair of both sides' position-k elements, and nothing is there once either side runs out (length min(len1, len2)) |
| `Streams.FoldLeftAppend` | src/core/Lazy.ts:78-84 | folding a concatenation folds the second part starting from the fold of the first |
| `Streams.FoldLeftSnoc` | src/core/Lazy.ts:80-82 | folding one more element applies the callback once more to the accumulator |
| `LazySequence.Cursor.Next` | src/core/Lazy.ts:25-29 | a pull returns the element at the cursor's position and advances by one, or reports exhaustion and stays put |
| `LazySequence.Lazy.constructor` | src/core/Lazy.ts:8-10 | stores the producer and starts with an empty cache, pulling nothing |
| `LazySequence.Lazy.Iterate` | src/core/Lazy.ts:25-29 | every traversal gets a new cursor of the producer, at the logical beginning |
| `LazySequence.Lazy.GetValue` | src/core/Lazy.ts:31-38 | as written: only appends to the cache; for an empty producer the cache is unchanged; otherwise it grows to index + 1 entries, every appended entry is the producer's first element, and exhaustion is never seen; the result is cache[index] or absent; it keeps every cached entry equal to the first element, so an empty producer always answers absent |
| `LazySequence.Lazy.At` | src/core/Lazy.ts:31-38 | corrected lookup: the result is the producer's element at the index, or absent; the cache becomes the producer's prefix up to the index, or stays as it is when it already covers the index; exactly one pull for each new cache entry |
| `LazySequence.Lazy.Map` | src/core/Lazy.ts:40-47 | builds a new lazy value over the mapped sequence, with an empty cache, pulling nothing |
| `LazySequence.Lazy.Filter` | src/core/Lazy.ts:49-56 | builds a new lazy value over the filtered sequence, pulling nothing |
| `LazySequence.Lazy.Take` | src/core/Lazy.ts:58-67 | builds a new lazy value over the first n elements, pulling nothing |
| `LazySequence.Lazy.FlatMap` | src/core/Lazy.ts:69-76 | builds a new lazy value over the flat-mapped sequence, pulling nothing |
| `LazySequence.Lazy.Zip` | src/core/Lazy.ts:86-98 | builds a new lazy value over the zipped sequence, pulling nothing |
| `LazySequence.Lazy.DrainTake` | src/core/Lazy.ts:58-67 | take's producer, run to the end, yields exactly the first min(n, length) elements and pulls min(max(n, 0) + 1, length) source elements |
| `LazySequence.Lazy.DrainZip` | src/core/Lazy.ts:86-98 | zip's producer, run to the end, yields exactly the zipped pairs; each side gives up min(pairs + 1, its length) elements because both are pulled before exhaustion is tested |
| `LazySequence.Lazy.Reduce` | src/core/Lazy.ts:78-84 | the result is the left fold of the sequence from the initial value; on an empty sequence it is the initial value |
| `LazySequence.Lazy.ToArray` | src/core/Lazy.ts:100-102 | the result is the whole logical sequence, in order |
| `LazySequence.ToArrayTwice` | src/core/Lazy.ts:100-102 | two traversals of the same lazy value return the same sequence; this holds by construction of the model, where a producer is one immutable logical sequence |
| `LazySequence.GetValueRepeatsFirst` | src/core/Lazy.ts:33 | on the producer [10, 20], getValue(1) as written answers 10, while the corrected lookup answers 20 |
| `Generators.RangeCountBelow` | src/core/Generators.ts:5 | with a positive step, the loop guard holds for iteration k exactly when start + k * step < end |
| `Generators.Range` | src/core/Generators.ts:3-9 | nothing when start >= end; infinite when end is unbounded; every element at position k is start + k * step |
| `Generators.RangeAt` | src/core/Generators.ts:5-7 | with a positive step, position k holds start + k * step exactly when that value is below end |
| `Generators.RangeIncreasing` | src/core/Generators.ts:5 | with a positive step the range is strictly increasing |
| `Generators.RangeNonPositiveStep` | src/core/Generators.ts:5 | with a step <= 0 and start below end, the loop never ends and yields start + k * step at every position |
| `Generators.RangeYields` | src/core/Generators.ts:4-8 | the for-loop of one run, cut off after k pulls, yields the first k elements of the range; every run starts again from start |
| `Generators.Repeat` | src/core/Generators.ts:11-17 | infinite exactly when times is unbounded; position k holds the value exactly when k < times, so max(times, 0) copies |
| `Generators.RepeatYields` | src/core/Generators.ts:12-16 | the for-loop of one run, cut off after k pulls, yields the first k elements of the repeat; every run starts again from zero |
| `Generators.LazyRange` | src/core/Generators.ts:3-9 | builds a lazy value over the range, with start 0, unbounded end and step 1 as defaults |
| `Generators.LazyRepeat` | src/core/Generators.ts:11-17 | builds a lazy value over the repeat, with an unbounded count as default |
| `Generators.TakeUnboundedRange` | tests/Lazy.test.ts:18 | take(n) of a range with no end is its first n terms start + k * step |
| `Generators.TakeUnboundedRepeat` | tests/Lazy.test.ts:39 | take(n) of a repeat with no count is n copies of the value |
| `Scenarios.TakeFromCounter` | tests/Lazy.test.ts:5-15 | take(5) of an endless counter materializes to [0, 1, 2, 3, 4] |
| `Scenarios.MapDoubles` | tests/Lazy.test.ts:17-20 | lazyRange(0).take(5).map(x => x * 2) materializes to [0, 2, 4, 6, 8] |
| `Scenarios.EvensBelow` | tests/Lazy.test.ts:23-24 | filtering 0 .. 2m - 1 for even numbers keeps 0, 2, ..., 2m - 2 |
| `Scenarios.FilterEvens` | tests/Lazy.test.ts:22-25 | lazyRange(0).take(10).filter(even) materializes to [0, 2, 4, 6, 8] |
| `Scenarios.FlatMapRepeats` | tests/Lazy.test.ts:27-30 | lazyRange(0).take(3).flatMap(x => lazyRepeat(x, 2)) materializes to [0, 0, 1, 1, 2, 2] |
| `Scenarios.ReduceSum` | tests/Lazy.test.ts:32-35 | the sum of lazyRange(0).take(5) is 10 |
| `Scenarios.ZipWithRepeat` | tests/Lazy.test.ts:37-42 | zipping range(0).take(3) with repeat('a').take(3) gives [(0, 'a'), (1, 'a'), (2, 'a')] |

## Findings

| source | as written | input that shows it | evidently intended | confidence | as-written member | corrected member |
|---|---|---|---|---|---|---|
| src/core/Lazy.ts:33 | each round of the fill loop calls the producer again and takes the first element of the new cursor, so every cached entry is the first element | producer [10, 20], index 1: the result is 10 | keep one cursor across the fill loop and advance it, so the result is 20 and the cache equals the producer's prefix | high (not executed) | `LazySequence.Lazy.GetValue`, shown by `LazySequence.GetValueRepeatsFirst` | `LazySequence.Lazy.At` |

The corrected `At` keeps its cursor in an extra field, `pending`. The
predicate `Lazy.Valid` states the cache invariant: every cached entry equals
the element a fresh traversal yields at that position. `At` preserves
`Valid`. `GetValue` does not require `Valid`, because as written it breaks it.

## Left out

- The `Proxy`/`Reflect` trick that turns numeric property reads into
  `getValue` calls (src/core/Lazy.ts:11-22). The lookups are exposed directly
  as `GetValue` and `At`.
- Generator suspension. Producers are modelled by their logical sequences, not
  by coroutines. Only the loops of `take` and `zip` are run step by step, in
  `DrainTake` and `DrainZip`. For `map`, `filter` and `flatMap` the model says
  what they yield, not how many source pulls each output element costs.
- `LazySequence.Lazy.Reduce`, `LazySequence.Lazy.ToArray`: these require a
  finite producer, because on an infinite source the code never terminates.
- `LazySequence.Lazy.Filter`, `LazySequence.Lazy.FlatMap`: these require a
  finite producer, although the code works lazily on an infinite source and
  keeps yielding while matches or inner elements keep coming (for example
  `lazyRange(2).filter(isPrime).take(10)`). Filtering an infinite source gives
  a sequence that may be infinite or may stop yielding and never finish, and a
  `Finite | Infinite` stream cannot represent the latter.
- `LazySequence.Lazy.FlatMap`: the callback returns the inner sequence's
  producer rather than a new `Lazy` object, because a Dafny function cannot
  allocate. `yield*` uses only that producer.
- JavaScript numbers are not modelled: floating-point steps, fractional or NaN
  indices and counts, and `take(Infinity)`. All of these are `int` here. The
  `Infinity` defaults of the producers are the `Unbounded` limit.
- Exceptions thrown by user callbacks. They propagate unchanged and are not
  modelled.
- The programs under `examples/` and the test harness. The harness's
  assertions appear as the `Scenarios` methods.
