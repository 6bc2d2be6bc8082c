/** The generic algorithms of the iterators lesson. A cursor is an index into a
    `seq`, a range is a pair of indices `first <= last`, and an output cursor is
    an index into a destination sequence that the algorithm returns updated.
    Each method is the source's single `while (first != last)` loop, proved
    against the reference definitions of `Sequences` and `Blocked`. */
module Iterators {
  import opened Sequences
  import opened Blocked

  /** Cursor capability tiers, each including the previous one. Only the
      random-access check matters here: it selects the unrolled block loop
      of the fast reductions. */
  datatype Tier = Input | Forward | Bidirectional | RandomAccess | Contiguous
  {
    predicate IsRandomAccess()
    {
      RandomAccess? || Contiguous?
    }
  }

  // ---------------------------------------------------------------- copy

  /** `copy(first, last, output)`: writes every element of `a[first..last]`,
      in order, from `outFirst` on, and returns the output cursor one past the
      last write. */
  method Copy<T>(a: seq<T>, first: int, last: int, out: seq<T>, outFirst: int)
    returns (out': seq<T>, outLast: int)
    requires 0 <= first <= last <= |a|
    requires 0 <= outFirst && outFirst + (last - first) <= |out|
    ensures outLast == outFirst + (last - first)
    ensures |out'| == |out|
    ensures out'[outFirst..outLast] == a[first..last]
    ensures out'[..outFirst] == out[..outFirst]
    ensures out'[outLast..] == out[outLast..]
  {
    var i, o := first, outFirst;
    out' := out;
    while i != last
      invariant first <= i <= last
      invariant o - outFirst == i - first
      invariant |out'| == |out|
      invariant forall k :: outFirst <= k < o ==> out'[k] == a[first + (k - outFirst)]
      invariant out'[..outFirst] == out[..outFirst]
      invariant out'[o..] == out[o..]
      decreases last - i
    {
      out' := out'[o := a[i]];
      i := i + 1;
      o := o + 1;
    }
    outLast := o;
    assert out'[outFirst..outLast] == a[first..last];
  }

  /** `copy(range, output)`: the whole sequence. */
  method CopyRange<T>(a: seq<T>, out: seq<T>, outFirst: int)
    returns (out': seq<T>, outLast: int)
    requires 0 <= outFirst && outFirst + |a| <= |out|
    ensures outLast == outFirst + |a|
    ensures out' == out[..outFirst] + a + out[outLast..]
  {
    out', outLast := Copy(a, 0, |a|, out, outFirst);
    assert a[0..|a|] == a;
    assert out' == out'[..outFirst] + out'[outFirst..outLast] + out'[outLast..];
  }

  // ----------------------------------------------------------- transform

  /** Copying `transform(first, last, output, fn)`: writes `fn` of every element,
      in order, from `outFirst` on, and returns the output cursor one past the
      last write. With the identity for `fn` it writes what `Copy` writes. */
  method TransformCopy<T>(a: seq<T>, first: int, last: int, out: seq<T>, outFirst: int, fn: T -> T)
    returns (out': seq<T>, outLast: int)
    requires 0 <= first <= last <= |a|
    requires 0 <= outFirst && outFirst + (last - first) <= |out|
    ensures outLast == outFirst + (last - first)
    ensures |out'| == |out|
    ensures out'[outFirst..outLast] == MapSeq(fn, a[first..last])
    ensures out'[..outFirst] == out[..outFirst]
    ensures out'[outLast..] == out[outLast..]
    ensures (forall x :: fn(x) == x) ==> out'[outFirst..outLast] == a[first..last]
  {
    var i, o := first, outFirst;
    out' := out;
    while i != last
      invariant first <= i <= last
      invariant o - outFirst == i - first
      invariant |out'| == |out|
      invariant forall k :: outFirst <= k < o ==> out'[k] == fn(a[first + (k - outFirst)])
      invariant out'[..outFirst] == out[..outFirst]
      invariant out'[o..] == out[o..]
      decreases last - i
    {
      out' := out'[o := fn(a[i])];
      i := i + 1;
      o := o + 1;
    }
    outLast := o;
    assert out'[outFirst..outLast] == MapSeq(fn, a[first..last]);
  }

  /** `transform(range, output, fn)`: the whole sequence. */
  method TransformCopyRange<T>(a: seq<T>, out: seq<T>, outFirst: int, fn: T -> T)
    returns (out': seq<T>, outLast: int)
    requires 0 <= outFirst && outFirst + |a| <= |out|
    ensures outLast == outFirst + |a|
    ensures |out'| == |out|
    ensures forall k :: outFirst <= k < outLast ==> out'[k] == fn(a[k - outFirst])
    ensures out'[..outFirst] == out[..outFirst] && out'[outLast..] == out[outLast..]
  {
    out', outLast := TransformCopy(a, 0, |a|, out, outFirst, fn);
    assert a[0..|a|] == a;
  }

  /** In-place `transform(first, last, proj)`: replaces every element of
      `[first, last)` by its projection and leaves the rest alone. */
  method TransformInPlace<T>(a: seq<T>, first: int, last: int, proj: T -> T)
    returns (a': seq<T>)
    requires 0 <= first <= last <= |a|
    ensures |a'| == |a|
    ensures forall j :: first <= j < last ==> a'[j] == proj(a[j])
    ensures forall j :: 0 <= j < |a| && !(first <= j < last) ==> a'[j] == a[j]
    ensures (forall x :: proj(x) == x) ==> a' == a
  {
    var i := first;
    a' := a;
    while i != last
      invariant first <= i <= last
      invariant |a'| == |a|
      invariant forall j :: first <= j < i ==> a'[j] == proj(a[j])
      invariant forall j :: 0 <= j < |a| && !(first <= j < i) ==> a'[j] == a[j]
      decreases last - i
    {
      a' := a'[i := proj(a'[i])];
      i := i + 1;
    }
  }

  // -------------------------------------------------------------- reduce

  /** `reduce(first, last, init, fn)`: the left fold of `fn` over the range. */
  method Reduce<T>(a: seq<T>, first: int, last: int, init: T, fn: (T, T) -> T) returns (r: T)
    requires 0 <= first <= last <= |a|
    ensures r == FoldLeft(fn, init, a[first..last])
    ensures first == last ==> r == init
  {
    var i := first;
    r := init;
    while i != last
      invariant first <= i <= last
      invariant FoldLeft(fn, init, a[first..last]) == FoldLeft(fn, r, a[i..last])
      decreases last - i
    {
      FoldLeftStep(fn, r, a[..last], i);
      assert a[..last][i..] == a[i..last] && a[..last][i + 1..] == a[i + 1..last];
      r := fn(r, a[i]);
      i := i + 1;
    }
  }

  /** `reduce(first, last)`: `init += *first` from `T{}` (0 for integers). It
      is the sum of the range, and equals `reduce(first, last, T{}, plus)`. */
  method ReduceSum(a: seq<int>, first: int, last: int) returns (r: int)
    requires 0 <= first <= last <= |a|
    ensures r == Sum(a[first..last])
    ensures r == FoldLeft(Plus, 0, a[first..last])
    ensures first == last ==> r == 0
  {
    var i := first;
    r := 0;
    while i != last
      invariant first <= i <= last
      invariant r + Sum(a[i..last]) == Sum(a[first..last])
      decreases last - i
    {
      assert a[i..last][1..] == a[i + 1..last];
      r := r + a[i];
      i := i + 1;
    }
    FoldPlusIsSum(0, a[first..last]);
  }

  // ---------------------------------------------------------------- find

  /** `find(first, last, value)`: the first position of `value` in the range,
      or `last` when it does not occur there. */
  method Find<T(==)>(a: seq<T>, first: int, last: int, value: T) returns (r: int)
    requires 0 <= first <= last <= |a|
    ensures first <= r <= last
    ensures forall j :: first <= j < r ==> a[j] != value
    ensures r < last ==> a[r] == value
    ensures r == last <==> (forall j :: first <= j < last ==> a[j] != value)
    ensures r == first + FirstIndex(Equals(value), a[first..last])
  {
    r := first;
    while r != last
      invariant first <= r <= last
      invariant forall j :: first <= j < r ==> a[j] != value
      decreases last - r
    {
      if a[r] == value {
        break;
      }
      r := r + 1;
    }
    FirstIndexUnique(Equals(value), a[first..last], r - first);
  }

  /** `find(range, value)`: the same search over the whole sequence. */
  method FindRange<T(==)>(a: seq<T>, value: T) returns (r: int)
    ensures 0 <= r <= |a|
    ensures r == FirstIndex(Equals(value), a)
    ensures r == |a| <==> (forall j :: 0 <= j < |a| ==> a[j] != value)
  {
    r := Find(a, 0, |a|, value);
    assert a[0..|a|] == a;
  }

  /** `find_not(first, value)`: the search without an end check, as with the
      unreachable sentinel. The caller guarantees that `value` occurs at or
      after `first`; under that guarantee the loop stops at the first one. */
  method FindNot<T(==)>(a: seq<T>, first: int, value: T) returns (r: int)
    requires 0 <= first <= |a|
    requires exists j :: first <= j < |a| && a[j] == value
    ensures first <= r < |a|
    ensures a[r] == value
    ensures forall j :: first <= j < r ==> a[j] != value
    ensures r == first + FirstIndex(Equals(value), a[first..])
  {
    r := first;
    while a[r] != value
      invariant first <= r < |a|
      invariant forall j :: first <= j < r ==> a[j] != value
      invariant exists j :: r <= j < |a| && a[j] == value
      decreases |a| - r
    {
      r := r + 1;
    }
    FirstIndexUnique(Equals(value), a[first..], r - first);
  }

  /** `find_not` and `find` agree whenever the value occurs in `[first, last)`:
      the unbounded search stops inside the range, where `find` stops too. */
  lemma FindNotAgreesWithFind<T>(a: seq<T>, first: int, last: int, value: T)
    requires 0 <= first <= last <= |a|
    requires exists j :: first <= j < last && a[j] == value
    ensures FirstIndex(Equals(value), a[first..]) == FirstIndex(Equals(value), a[first..last])
    ensures first + FirstIndex(Equals(value), a[first..last]) < last
  {
    var s, t := a[first..last], a[first..];
    var k := FirstIndex(Equals(value), s);
    var j :| first <= j < last && a[j] == value;
    assert Equals(value)(s[j - first]);
    assert k < |s|;
    forall i | 0 <= i <= k
      ensures t[i] == s[i]
    {
    }
    FirstIndexUnique(Equals(value), t, k);
  }

  // --------------------------------------------------- two-range reduce

  /** The values `binaryOp(a[first1 + k], b[first2 + k])` for `first1 + k < last1`. */
  function Pairs<T>(a: seq<T>, first1: int, last1: int, b: seq<T>, first2: int, binaryOp: (T, T) -> T): seq<T>
    requires 0 <= first1 <= last1 <= |a|
    requires 0 <= first2 && first2 + (last1 - first1) <= |b|
  {
    ZipWith(binaryOp, a[first1..last1], b[first2..])
  }

  /** Advancing both cursors by `k` drops the first `k` pairs. */
  lemma PairsSuffix<T>(a: seq<T>, first1: int, last1: int, b: seq<T>, first2: int, g: (T, T) -> T, k: int)
    requires 0 <= first1 <= last1 <= |a|
    requires 0 <= first2 && first2 + (last1 - first1) <= |b|
    requires 0 <= k <= last1 - first1
    ensures Pairs(a, first1, last1, b, first2, g)[k..] == Pairs(a, first1 + k, last1, b, first2 + k, g)
  {
    var p, q := Pairs(a, first1, last1, b, first2, g), Pairs(a, first1 + k, last1, b, first2 + k, g);
    forall m | 0 <= m < |q|
      ensures p[k..][m] == q[m]
    {
      assert p[k + m] == g(a[first1..last1][k + m], b[first2..][k + m]);
      assert q[m] == g(a[first1 + k..last1][m], b[first2 + k..][m]);
    }
  }

  /** The `k`-th pair. */
  lemma PairsAt<T>(a: seq<T>, first1: int, last1: int, b: seq<T>, first2: int, g: (T, T) -> T, k: int)
    requires 0 <= first1 <= last1 <= |a|
    requires 0 <= first2 && first2 + (last1 - first1) <= |b|
    requires 0 <= k < last1 - first1
    ensures Pairs(a, first1, last1, b, first2, g)[k] == g(a[first1 + k], b[first2 + k])
  {
    assert a[first1..last1][k] == a[first1 + k] && b[first2..][k] == b[first2 + k];
  }

  /** Two-range `reduce(first1, last1, first2, init, binaryOp, reduceOp)`: the
      left fold of `reduceOp` over the pairwise `binaryOp` values. The second
      range must be at least as long as the first. */
  method Reduce2<T>(a: seq<T>, first1: int, last1: int, b: seq<T>, first2: int, init: T,
                    binaryOp: (T, T) -> T, reduceOp: (T, T) -> T) returns (r: T)
    requires 0 <= first1 <= last1 <= |a|
    requires 0 <= first2 && first2 + (last1 - first1) <= |b|
    ensures r == FoldLeft(reduceOp, init, Pairs(a, first1, last1, b, first2, binaryOp))
    ensures first1 == last1 ==> r == init
  {
    var i, j := first1, first2;
    r := init;
    while i != last1
      invariant first1 <= i <= last1
      invariant j - first2 == i - first1
      invariant FoldLeft(reduceOp, init, Pairs(a, first1, last1, b, first2, binaryOp))
             == FoldLeft(reduceOp, r, Pairs(a, i, last1, b, j, binaryOp))
      decreases last1 - i
    {
      PairsAt(a, i, last1, b, j, binaryOp, 0);
      PairsSuffix(a, i, last1, b, j, binaryOp, 1);
      r := reduceOp(r, binaryOp(a[i], b[j]));
      i := i + 1;
      j := j + 1;
    }
  }

  /** `inner_product(first1, last1, first2)`: the two-range reduce with `*` and
      `+` from `T{}` (0), which is the sum of the pairwise products. */
  method InnerProduct(a: seq<int>, first1: int, last1: int, b: seq<int>, first2: int) returns (r: int)
    requires 0 <= first1 <= last1 <= |a|
    requires 0 <= first2 && first2 + (last1 - first1) <= |b|
    ensures r == Dot(a[first1..last1], b[first2..])
  {
    r := Reduce2(a, first1, last1, b, first2, 0, Times, Plus);
    InnerProductIsDot(a[first1..last1], b[first2..]);
  }

  // -------------------------------------------------- blocked reductions

  /** The value `fast_reduce` folds into its accumulator for the four pairs
      at `a[i..]`, `b[j..]`: a balanced tree of three `op` applications. */
  function Block4<T>(a: seq<T>, i: int, b: seq<T>, j: int, g: (T, T) -> T, op: (T, T) -> T): T
    requires 0 <= i && i + 4 <= |a|
    requires 0 <= j && j + 4 <= |b|
  {
    var aux1 := op(g(a[i], b[j]), g(a[i + 1], b[j + 1]));
    var aux2 := op(g(a[i + 2], b[j + 2]), g(a[i + 3], b[j + 3]));
    op(aux1, aux2)
  }

  /** One iteration of `fast_reduce`'s block loop, at offset `k` of the pairs,
      is one step of `BlockFold4`. */
  lemma BlockStep4<T>(a: seq<T>, first1: int, last1: int, b: seq<T>, first2: int, g: (T, T) -> T,
                      xs: seq<T>, k: int, op: (T, T) -> T, acc: T)
    requires 0 <= first1 <= last1 <= |a|
    requires 0 <= first2 && first2 + (last1 - first1) <= |b|
    requires xs == Pairs(a, first1, last1, b, first2, g)
    requires 0 <= k && k + 4 < |xs|
    ensures BlockFold4(op, acc, xs[k..])
         == BlockFold4(op, op(acc, Block4(a, first1 + k, b, first2 + k, g, op)), xs[k + 4..])
  {
    PairsAt(a, first1, last1, b, first2, g, k);
    PairsAt(a, first1, last1, b, first2, g, k + 1);
    PairsAt(a, first1, last1, b, first2, g, k + 2);
    PairsAt(a, first1, last1, b, first2, g, k + 3);
    assert xs[k..][4..] == xs[k + 4..];
  }

  /** The value `faster_reduce` folds into its accumulator for the eight pairs
      at `a[i..]`, `b[j..]`: a balanced tree of seven `op` applications. */
  function Block8<T>(a: seq<T>, i: int, b: seq<T>, j: int, g: (T, T) -> T, op: (T, T) -> T): T
    requires 0 <= i && i + 8 <= |a|
    requires 0 <= j && j + 8 <= |b|
  {
    var aux1 := op(g(a[i], b[j]), g(a[i + 1], b[j + 1]));
    var aux2 := op(g(a[i + 2], b[j + 2]), g(a[i + 3], b[j + 3]));
    var aux3 := op(g(a[i + 4], b[j + 4]), g(a[i + 5], b[j + 5]));
    var aux4 := op(g(a[i + 6], b[j + 6]), g(a[i + 7], b[j + 7]));
    var aux5 := op(aux1, aux2);
    var aux6 := op(aux3, aux4);
    op(aux5, aux6)
  }

  /** One iteration of `faster_reduce`'s block loop, at offset `k` of the
      pairs, is one step of `BlockFold8`. */
  lemma BlockStep8<T>(a: seq<T>, first1: int, last1: int, b: seq<T>, first2: int, g: (T, T) -> T,
                      xs: seq<T>, k: int, op: (T, T) -> T, acc: T)
    requires 0 <= first1 <= last1 <= |a|
    requires 0 <= first2 && first2 + (last1 - first1) <= |b|
    requires xs == Pairs(a, first1, last1, b, first2, g)
    requires 0 <= k && k + 8 < |xs|
    ensures BlockFold8(op, acc, xs[k..])
         == BlockFold8(op, op(acc, Block8(a, first1 + k, b, first2 + k, g, op)), xs[k + 8..])
  {
    var p := xs[k..];
    PairsAt(a, first1, last1, b, first2, g, k);
    PairsAt(a, first1, last1, b, first2, g, k + 1);
    PairsAt(a, first1, last1, b, first2, g, k + 2);
    PairsAt(a, first1, last1, b, first2, g, k + 3);
    PairsAt(a, first1, last1, b, first2, g, k + 4);
    PairsAt(a, first1, last1, b, first2, g, k + 5);
    PairsAt(a, first1, last1, b, first2, g, k + 6);
    PairsAt(a, first1, last1, b, first2, g, k + 7);
    assert p[4..][0] == p[4] && p[4..][1] == p[5] && p[4..][2] == p[6] && p[4..][3] == p[7];
    assert Tree8(op, p) == Block8(a, first1 + k, b, first2 + k, g, op);
    assert p[8..] == xs[k + 8..];
  }

  /** The block loop of `fast_reduce`: while more than four pairs remain, fold
      the tree of the next four into the accumulator and advance both cursors
      by four. It leaves between one and four pairs for a non-empty range. */
  method FastReduceBlocks<T>(a: seq<T>, first1: int, last1: int, b: seq<T>, first2: int, init: T,
                             binaryOp: (T, T) -> T, reduceOp: (T, T) -> T)
    returns (acc: T, next1: int, next2: int)
    requires 0 <= first1 <= last1 <= |a|
    requires 0 <= first2 && first2 + (last1 - first1) <= |b|
    ensures first1 <= next1 <= last1
    ensures next2 - first2 == next1 - first1
    ensures (next1 - first1) % 4 == 0
    ensures last1 - next1 <= 4
    ensures first1 < last1 ==> next1 < last1
    ensures BlockFold4(reduceOp, init, Pairs(a, first1, last1, b, first2, binaryOp))
         == BlockFold4(reduceOp, acc, Pairs(a, next1, last1, b, next2, binaryOp))
  {
    acc, next1, next2 := init, first1, first2;
    ghost var blocks := 0;
    ghost var xs := Pairs(a, first1, last1, b, first2, binaryOp);
    ghost var k := 0;
    assert xs[k..] == xs;
    while last1 - next1 > 4
      invariant first1 <= next1 <= last1
      invariant k == next1 - first1 == next2 - first2 == 4 * blocks
      invariant first1 < last1 ==> next1 < last1
      invariant BlockFold4(reduceOp, init, xs) == BlockFold4(reduceOp, acc, xs[k..])
      decreases last1 - next1
    {
      BlockStep4(a, first1, last1, b, first2, binaryOp, xs, k, reduceOp, acc);
      acc := reduceOp(acc, Block4(a, next1, b, next2, binaryOp, reduceOp));
      next1 := next1 + 4;
      next2 := next2 + 4;
      k, blocks := k + 4, blocks + 1;
    }
    PairsSuffix(a, first1, last1, b, first2, binaryOp, k);
    BlocksOfFour(blocks);
  }

  /** Whole blocks of four pairs span a multiple of four. */
  lemma BlocksOfFour(blocks: int)
    ensures (4 * blocks) % 4 == 0
  {
  }

  /** Whole blocks of eight pairs span a multiple of eight. */
  lemma BlocksOfEight(blocks: int)
    ensures (8 * blocks) % 8 == 0
  {
  }

  /** `fast_reduce`: for a random-access cursor the block loop, then the
      two-range reduce over the rest; otherwise the two-range reduce alone. The
      result is the regrouped fold, which is the sequential fold whenever
      `reduceOp` is associative. */
  method FastReduce<T(!new)>(tier: Tier, a: seq<T>, first1: int, last1: int, b: seq<T>, first2: int, init: T,
                             binaryOp: (T, T) -> T, reduceOp: (T, T) -> T) returns (r: T)
    requires 0 <= first1 <= last1 <= |a|
    requires 0 <= first2 && first2 + (last1 - first1) <= |b|
    ensures tier.IsRandomAccess() ==> r == BlockFold4(reduceOp, init, Pairs(a, first1, last1, b, first2, binaryOp))
    ensures !tier.IsRandomAccess() || Associative(reduceOp)
            ==> r == FoldLeft(reduceOp, init, Pairs(a, first1, last1, b, first2, binaryOp))
  {
    var acc, next1, next2 := init, first1, first2;
    if tier.IsRandomAccess() {
      acc, next1, next2 := FastReduceBlocks(a, first1, last1, b, first2, init, binaryOp, reduceOp);
    }
    r := Reduce2(a, next1, last1, b, next2, acc, binaryOp, reduceOp);
    if Associative(reduceOp) {
      BlockFold4IsFoldLeft(reduceOp, init, Pairs(a, first1, last1, b, first2, binaryOp));
    }
  }

  /** `fast_inner_product`: the sum of pairwise products for every tier, since
      integer `+` is associative. */
  method FastInnerProduct(tier: Tier, a: seq<int>, first1: int, last1: int, b: seq<int>, first2: int) returns (r: int)
    requires 0 <= first1 <= last1 <= |a|
    requires 0 <= first2 && first2 + (last1 - first1) <= |b|
    ensures r == Dot(a[first1..last1], b[first2..])
  {
    r := FastReduce(tier, a, first1, last1, b, first2, 0, Times, Plus);
    SumBlockFolds(0, Pairs(a, first1, last1, b, first2, Times));
    InnerProductIsDot(a[first1..last1], b[first2..]);
  }

  /** The block loop of `faster_reduce`: as `FastReduceBlocks`, with blocks of
      eight. It leaves between one and eight pairs for a non-empty range. */
  method FasterReduceBlocks<T>(a: seq<T>, first1: int, last1: int, b: seq<T>, first2: int, init: T,
                               binaryOp: (T, T) -> T, reduceOp: (T, T) -> T)
    returns (acc: T, next1: int, next2: int)
    requires 0 <= first1 <= last1 <= |a|
    requires 0 <= first2 && first2 + (last1 - first1) <= |b|
    ensures first1 <= next1 <= last1
    ensures next2 - first2 == next1 - first1
    ensures (next1 - first1) % 8 == 0
    ensures last1 - next1 <= 8
    ensures first1 < last1 ==> next1 < last1
    ensures BlockFold8(reduceOp, init, Pairs(a, first1, last1, b, first2, binaryOp))
         == BlockFold8(reduceOp, acc, Pairs(a, next1, last1, b, next2, binaryOp))
  {
    acc, next1, next2 := init, first1, first2;
    ghost var blocks := 0;
    ghost var xs := Pairs(a, first1, last1, b, first2, binaryOp);
    ghost var k := 0;
    assert xs[k..] == xs;
    while last1 - next1 > 8
      invariant first1 <= next1 <= last1
      invariant k == next1 - first1 == next2 - first2 == 8 * blocks
      invariant first1 < last1 ==> next1 < last1
      invariant BlockFold8(reduceOp, init, xs) == BlockFold8(reduceOp, acc, xs[k..])
      decreases last1 - next1
    {
      BlockStep8(a, first1, last1, b, first2, binaryOp, xs, k, reduceOp, acc);
      acc := reduceOp(acc, Block8(a, next1, b, next2, binaryOp, reduceOp));
      next1 := next1 + 8;
      next2 := next2 + 8;
      k, blocks := k + 8, blocks + 1;
    }
    PairsSuffix(a, first1, last1, b, first2, binaryOp, k);
    BlocksOfEight(blocks);
  }

  /** `faster_reduce`: as `FastReduce`, with blocks of eight. */
  method FasterReduce<T(!new)>(tier: Tier, a: seq<T>, first1: int, last1: int, b: seq<T>, first2: int, init: T,
                               binaryOp: (T, T) -> T, reduceOp: (T, T) -> T) returns (r: T)
    requires 0 <= first1 <= last1 <= |a|
    requires 0 <= first2 && first2 + (last1 - first1) <= |b|
    ensures tier.IsRandomAccess() ==> r == BlockFold8(reduceOp, init, Pairs(a, first1, last1, b, first2, binaryOp))
    ensures !tier.IsRandomAccess() || Associative(reduceOp)
            ==> r == FoldLeft(reduceOp, init, Pairs(a, first1, last1, b, first2, binaryOp))
  {
    var acc, next1, next2 := init, first1, first2;
    if tier.IsRandomAccess() {
      acc, next1, next2 := FasterReduceBlocks(a, first1, last1, b, first2, init, binaryOp, reduceOp);
    }
    r := Reduce2(a, next1, last1, b, next2, acc, binaryOp, reduceOp);
    if Associative(reduceOp) {
      BlockFold8IsFoldLeft(reduceOp, init, Pairs(a, first1, last1, b, first2, binaryOp));
    }
  }

  /** `faster_inner_product`: the sum of pairwise products for every tier. */
  method FasterInnerProduct(tier: Tier, a: seq<int>, first1: int, last1: int, b: seq<int>, first2: int) returns (r: int)
    requires 0 <= first1 <= last1 <= |a|
    requires 0 <= first2 && first2 + (last1 - first1) <= |b|
    ensures r == Dot(a[first1..last1], b[first2..])
  {
    r := FasterReduce(tier, a, first1, last1, b, first2, 0, Times, Plus);
    SumBlockFolds(0, Pairs(a, first1, last1, b, first2, Times));
    InnerProductIsDot(a[first1..last1], b[first2..]);
  }
}
