# Generic algorithms over iterator ranges, and a chunked parallel search

This project models the generic algorithms of the "generic-programming" lessons
and proves them correct against reference definitions. The algorithms are the
ones the iterators lesson writes by hand: `copy`, `transform`, the `reduce`
family, `find` and `find_not`, `inner_product`, and the unrolled `fast_reduce`
and `faster_reduce`. The model also covers the parallel lesson's
`our_find_if` and `parallel_find_if`.

How the model represents the source:

- A cursor is an integer index into a `seq`. A range is two indices
  `first <= last`.
- An output cursor is an index into a destination sequence. The algorithm
  returns that sequence, updated.
- Each algorithm is a method whose loop mirrors the source's
  `while (first != last)` loop. It has the same early `break`, the same step
  sizes and the same final `return`.
- The iterator category the source tests with `if constexpr` is the `Tier`
  argument. Only the random-access tiers take the unrolled block loop.

The project has four modules:

- `Sequences` holds the reference definitions:
  - the left fold `FoldLeft`, the sum `Sum` and the dot product `Dot`;
  - the pointwise `MapSeq` and `ZipWith`;
  - the first matching index `FirstIndex`.
- `Blocked` holds the regrouped folds that the unrolled loops compute
  (`BlockFold4`, `BlockFold8`). It also proves that they equal the sequential
  fold when the reduction operator is associative. No commutativity is needed,
  because the accumulator always stays the left operand.
- `Iterators` holds the algorithms of `3.iterators`.
- `Parallel` holds `our_find_if` and the four-chunk `parallel_find_if`. The
  main result is that `parallel_find_if` returns exactly what the sequential
  search returns, for every range length.

`3.iterators/algorithms.cxx` repeats most of `3.iterators/no_modules/algorithms.h`
inside a C++ module. The repeated functions have the same bodies, so one Dafny
member models both copies, and the table cites both.

The two copies of `fast_reduce` state the loop condition differently:

- the header uses `std::distance(first1, last1) > 4`;
- the module uses `last1 - first1 > 4`.

For random-access cursors these mean the same thing, and `FastReduce` models
both.

## Model

| member | source | states |
|---|---|---|
| Iterators.Copy | 3.iterators/no_modules/algorithms.h:8-15 | the output range `[outFirst, outLast)` holds `a[first..last]` in order; the returned cursor is `outFirst + (last - first)`; every element outside the written range is unchanged |
| Iterators.CopyRange | 3.iterators/no_modules/algorithms.h:19-21 | copying a whole sequence leaves `prefix + a + suffix` in the destination |
| Iterators.TransformCopy | 3.iterators/no_modules/algorithms.h:25-32 | the output range holds `fn` applied to each source element in order, and nothing else changes; with the identity for `fn` the output equals the source range, which is what `Copy` writes |
| Iterators.TransformCopyRange | 3.iterators/no_modules/algorithms.h:36-38 | transforming a whole sequence writes `fn` of every element of `a`, in order, from `outFirst` on, and leaves the destination's prefix and suffix unchanged |
| Iterators.TransformInPlace | 3.iterators/algorithms.cxx:49-54 | every element in `[first, last)` becomes `proj` of its old value, and every other element is unchanged; the identity projection leaves the sequence unchanged |
| Iterators.Reduce | 3.iterators/no_modules/algorithms.h:53-59 | the result is the left fold of `fn` over the range, seeded with `init`, and the element order is kept; an empty range gives `init` (same function: 3.iterators/algorithms.cxx:26-32) |
| Iterators.ReduceSum | 3.iterators/no_modules/algorithms.h:63-72 | the default `reduce` gives the sum of the range; it equals the `+` fold seeded with `T{}` (0), which is the alternative body the comment proposes, `reduce(first, last, T{}, std::plus<>())` on the original range; an empty range gives 0 (same function: 3.iterators/algorithms.cxx:36-45) |
| Iterators.Find | 3.iterators/no_modules/algorithms.h:75-83 | the result is the first position in `[first, last)` holding `value`; it is `last` exactly when no element of the range equals `value` (same function: 3.iterators/algorithms.cxx:65-73) |
| Iterators.FindRange | 3.iterators/no_modules/algorithms.h:86-88 | searching the whole sequence gives the first index of `value`, and the result is the length exactly when `value` does not occur (same function: 3.iterators/algorithms.cxx:76-78) |
| Iterators.FindNot | 3.iterators/algorithms.cxx:57-62 | when `value` occurs at or after `first`, the result is its first occurrence from `first`, and it never passes the end |
| Iterators.FindNotAgreesWithFind | 3.iterators/algorithms.cxx:57-73 | when `value` occurs in `[first, last)`, the search without an end check stops at the same position as `find`, and that position is inside the range |
| Iterators.Reduce2 | 3.iterators/no_modules/algorithms.h:92-99 | the two-range `reduce` is the left fold of `reduceOp` over the pairwise `binaryOp` values of the first range and the aligned prefix of the second; an empty range gives `init` (same function: 3.iterators/algorithms.cxx:83-90) |
| Iterators.InnerProduct | 3.iterators/no_modules/algorithms.h:102-104 | `inner_product` is the sum of the pairwise products (same function: 3.iterators/algorithms.cxx:93-95) |
| Iterators.FastReduceBlocks | 3.iterators/no_modules/algorithms.h:110-117 | the block loop consumes a multiple of four pairs and leaves at most four (at least one for a non-empty range); the accumulator it builds, together with the rest, gives the regrouped fold `BlockFold4` (same loop: 3.iterators/algorithms.cxx:101-108) |
| Iterators.FastReduce | 3.iterators/no_modules/algorithms.h:108-120 | for a random-access cursor the result is the regrouped fold; for any other cursor, or for an associative `reduceOp`, it is the sequential two-range fold (same function: 3.iterators/algorithms.cxx:99-111) |
| Iterators.FastInnerProduct | 3.iterators/no_modules/algorithms.h:123-125 | `fast_inner_product` equals the sum of pairwise products for every cursor tier (same function: 3.iterators/algorithms.cxx:115-117) |
| Iterators.FasterReduceBlocks | 3.iterators/no_modules/algorithms.h:131-143 | the eight-wide block loop consumes a multiple of eight pairs and leaves at most eight (at least one for a non-empty range); with the rest it gives the regrouped fold `BlockFold8` |
| Iterators.FasterReduce | 3.iterators/no_modules/algorithms.h:129-145 | for a random-access cursor the result is the eight-wide regrouped fold; for any other cursor, or for an associative `reduceOp`, it is the sequential two-range fold |
| Iterators.FasterInnerProduct | 3.iterators/no_modules/algorithms.h:148-150 | `faster_inner_product` equals the sum of pairwise products for every cursor tier |
| Iterators.BlockStep4 | 3.iterators/no_modules/algorithms.h:111-116 | one iteration of the four-wide loop (`aux1`, `aux2`, `aux3`, then `init = reduceOp(init, aux3)`) is one step of `BlockFold4` |
| Iterators.BlockStep8 | 3.iterators/no_modules/algorithms.h:132-141 | one iteration of the eight-wide loop (`aux1` to `aux7`) is one step of `BlockFold8` |
| Iterators.PairsSuffix | 3.iterators/no_modules/algorithms.h:95-96 | advancing both cursors by `k` drops exactly the first `k` pairs |
| Blocked.BlockFold4IsFoldLeft | 3.iterators/no_modules/algorithms.h:108-120 | for an associative operator, four-wide regrouping gives the same value as the sequential left fold |
| Blocked.BlockFold8IsFoldLeft | 3.iterators/no_modules/algorithms.h:129-145 | for an associative operator, eight-wide regrouping gives the same value as the sequential left fold |
| Blocked.FoldFourStep | 3.iterators/no_modules/algorithms.h:111-114 | under associativity, folding four values one by one equals folding in their balanced tree `(x0 . x1) . (x2 . x3)` |
| Blocked.FoldEightStep | 3.iterators/no_modules/algorithms.h:132-139 | under associativity, folding eight values one by one equals folding in their balanced tree |
| Blocked.SumBlockFolds | 3.iterators/no_modules/algorithms.h:123-125 | for integer `+` both regroupings equal the sequential sum, with no condition on the cursor tier |
| Sequences.FoldPlusIsSum | 3.iterators/no_modules/algorithms.h:63-72 | the `+` left fold from a seed is the seed plus the sum, so the loop of the default `reduce` and the alternative body its comment proposes (`reduce` with `plus` from `T{}` on the original range) agree |
| Sequences.InnerProductIsDot | 3.iterators/no_modules/algorithms.h:102-104 | the `+` fold from 0 of the pairwise products is the dot product |
| Sequences.FirstIndex | 3.iterators/no_modules/algorithms.h:75-83 | the reference search: no element before the result matches, and the element at the result matches unless the result is the length |
| Sequences.FirstIndexConcat | 5.parallel/parallel_algorithms.h:35-51 | searching `s + t` finds a match in `s` if there is one, and otherwise continues in `t`, offset by the length of `s` |
| Parallel.FindIf | 5.parallel/parallel_algorithms.h:7-15 | `our_find_if` returns the first position in `[first, last)` whose element satisfies `pred`, or `last` when none does |
| Parallel.Split | 5.parallel/parallel_algorithms.h:23-26 | the limits are ordered inside the range; the first three chunks have equal size `(last - first) / 4`; the fourth chunk is at least as large and has fewer than 4 more elements; the four sizes add up to the range length; a range shorter than four gives three empty chunks |
| Parallel.SearchFourParts | 5.parallel/parallel_algorithms.h:29-32 | the sequential search of a range cut into four contiguous parts is decided by the first part that holds a match |
| Parallel.ChunkedSearchIsSequential | 5.parallel/parallel_algorithms.h:35-51 | for any four contiguous chunks, the ordered combine of the chunk searches (`found_i != limit_i` returns `found_i`, else the fourth answer) equals the sequential search of the whole range |
| Parallel.ParallelFindIf | 5.parallel/parallel_algorithms.h:20-52 | `parallel_find_if` returns the same position as `our_find_if` on the whole range, for every length including lengths below four; it returns `last` exactly when no element satisfies `pred` |

## Left out

- Threads: `std::async` and `future::get` are not modelled. The four chunk searches are sequential calls. With a pure predicate they only read the shared sequence, and the combine looks at their answers only in chunk order, so the order in which they finish cannot change the result.
- Parallel.ParallelFindIf: `pred` is a pure function (`T -> bool`), which is what `std::indirect_unary_predicate` (5.parallel/parallel_algorithms.h:19) asks of callers, since it must be equality-preserving. Stateful predicates are not modelled, and they could give a different answer. `std::async` copies `pred` into each thread (5.parallel/parallel_algorithms.h:29-32), so a call-counting predicate restarts in every chunk. A predicate that writes state shared by reference races between the threads.
- Timers, benchmark drivers, random initialisation and `main` programs are not modelled. They are I/O and measurement around the algorithms.
- Floating-point element types are not modelled. The reductions are generic over `T` and an arbitrary operator. The inner products use unbounded integers. Floating-point `+` is not associative, so `BlockFold4IsFoldLeft` would not apply to it. The model shows this by stating `FastReduce` for any operator and requiring associativity only for the equality with the sequential fold.
- Concepts and `requires` clauses on templates (`reducible`, `returns_t`, `std::indirectly_copyable`) are not modelled. They are compile-time constraints, and the model's function types (`T -> T`, `(T, T) -> T`) stand in for them only approximately. Two differences are listed below.
- Iterators.Reduce, Iterators.Reduce2, Iterators.FastReduce and Iterators.FasterReduce: use one type for the elements and the accumulator. In the source the accumulator type `T` is deduced from `init`, and each element is converted to it at the call `fn(init, *first)` or `binaryOp(*first1, *first2)` (3.iterators/no_modules/algorithms.h:53, 92, 108, 129). Mixed-type reductions and those conversions are not modelled.
- Iterators.TransformInPlace: takes `proj: T -> T`, the evident intent. As written, `returns_t<Proj, T>` (3.iterators/algorithms.cxx:48) names no argument types. Under the concept's definition at 3.iterators/algorithms.cxx:18-22 it therefore asks for a call `proj()` with no arguments that returns `T`, which a unary projection does not satisfy. That compile-time constraint is not modelled.
- Iterator adaptors such as a self-extending output iterator (`back_inserter`) are not modelled. The output of `Copy` and `TransformCopy` is a destination that is already long enough.
- Iterators.ReduceSum: does not model fixed-width integer overflow. Elements are unbounded integers, so the result is the mathematical sum.
- Iterators.InnerProduct: does not model fixed-width integer overflow, for the same reason. The same holds for FastInnerProduct and FasterInnerProduct.
- Iterators.Find, Iterators.FindRange and Iterators.FindNot: compare elements with a `value` of the same type `T`. In the source, `T` is deduced from `value`, not from the element type (3.iterators/no_modules/algorithms.h:74-75 and 85-86; 3.iterators/algorithms.cxx:56-57, 64-65 and 75-76). So `*first == value` may compare across types, as the drivers do when they search `int64_t` containers for an `int` (3.iterators/main.cxx:51 and 54). Mixed-type comparison and its conversions are not modelled.
- Iterators.FindNot: requires that `value` occurs at or after `first`. Otherwise the source reads past the end of the sequence, which is undefined behaviour and is not modelled. `find(first, std::unreachable_sentinel, value)`, which the benchmark drivers call, is the same search without an end check and relies on the same guarantee; `FindNot` stands for it too.
- Iterators.Copy and Iterators.TransformCopy: use a single element type for source and destination, and `fn: T -> T`. The source allows any writable output type.
- Iterators.Copy and Iterators.TransformCopy: source and destination are distinct sequences. A call on one buffer where the output starts inside `(first, last)` is not modelled. The C++ loop would re-read elements it has already overwritten: `copy(v.begin(), v.begin() + 2, v.begin() + 1)` on `[1, 2, 3]` leaves `[1, 1, 1]`. The benchmark drivers always copy between two containers.
- The dead second `return reduce(first, last, T{}, std::plus<>())` in the default `reduce` is not a separate member. As placed, after the loop has advanced `first` to `last`, it would return `T{}` if it were reached. What the comment before it means is that the call on the ORIGINAL range could replace the loop. `Iterators.ReduceSum` and `Sequences.FoldPlusIsSum` prove that this alternative body gives the same value as the loop.
- The `1.modules` and `2.concepts` lessons (`my_module`, `addable`, `canvas`) are not part of this model.
