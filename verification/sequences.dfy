/** Reference definitions for the generic sequence algorithms: the left fold,
    the integer sum and inner product, the pointwise map, the pointwise zip and
    the first matching index. Each algorithm of the library is proved against
    these, and the lemmas here relate them to one another. */
module Sequences {

  /** Left fold: `f(...f(f(init, s[0]), s[1])..., s[|s|-1])`. The accumulator
      is always the left operand and the elements are taken strictly in order. */
  function FoldLeft<T>(f: (T, T) -> T, init: T, s: seq<T>): T
    decreases |s|
  {
    if |s| == 0 then init else FoldLeft(f, f(init, s[0]), s[1..])
  }

  /** One step of a left fold that starts at index `k` of `s`. */
  lemma FoldLeftStep<T>(f: (T, T) -> T, acc: T, s: seq<T>, k: int)
    requires 0 <= k < |s|
    ensures FoldLeft(f, acc, s[k..]) == FoldLeft(f, f(acc, s[k]), s[k + 1..])
  {
    assert s[k..][1..] == s[k + 1..];
  }

  function Plus(x: int, y: int): int { x + y }

  function Times(x: int, y: int): int { x * y }

  /** The mathematical sum, grouped from the right. */
  function Sum(s: seq<int>): int
  {
    if |s| == 0 then 0 else s[0] + Sum(s[1..])
  }

  /** Folding `+` from the left gives the seed plus the sum: the default
      `reduce` (`init += *first` from `T{}`) is the `+` fold seeded with 0. */
  lemma {:induction false} FoldPlusIsSum(init: int, s: seq<int>)
    ensures FoldLeft(Plus, init, s) == init + Sum(s)
    decreases |s|
  {
    if |s| > 0 {
      FoldPlusIsSum(init + s[0], s[1..]);
    }
  }

  /** Sum of the pairwise products of `xs` with the first `|xs|` values of `ys`. */
  function Dot(xs: seq<int>, ys: seq<int>): int
    requires |xs| <= |ys|
  {
    if |xs| == 0 then 0 else xs[0] * ys[0] + Dot(xs[1..], ys[1..])
  }

  /** Pointwise map. */
  function MapSeq<T>(f: T -> T, s: seq<T>): (r: seq<T>)
    ensures |r| == |s|
    ensures forall i :: 0 <= i < |s| ==> r[i] == f(s[i])
  {
    if |s| == 0 then [] else [f(s[0])] + MapSeq(f, s[1..])
  }

  /** Pointwise combination of `xs` with the first `|xs|` values of `ys`; the
      second sequence may be longer than the first. */
  function ZipWith<T>(g: (T, T) -> T, xs: seq<T>, ys: seq<T>): (r: seq<T>)
    requires |xs| <= |ys|
    ensures |r| == |xs|
    ensures forall i {:trigger r[i]} :: 0 <= i < |xs| ==> r[i] == g(xs[i], ys[i])
  {
    if |xs| == 0 then [] else [g(xs[0], ys[0])] + ZipWith(g, xs[1..], ys[1..])
  }

  /** The inner product is the `+` fold, seeded with 0, of the pairwise products. */
  lemma {:induction false} InnerProductIsDot(xs: seq<int>, ys: seq<int>)
    requires |xs| <= |ys|
    ensures FoldLeft(Plus, 0, ZipWith(Times, xs, ys)) == Dot(xs, ys)
  {
    FoldPlusIsSum(0, ZipWith(Times, xs, ys));
    SumOfProductsIsDot(xs, ys);
  }

  lemma {:induction false} SumOfProductsIsDot(xs: seq<int>, ys: seq<int>)
    requires |xs| <= |ys|
    ensures Sum(ZipWith(Times, xs, ys)) == Dot(xs, ys)
    decreases |xs|
  {
    if |xs| > 0 {
      var z := ZipWith(Times, xs, ys);
      assert z[1..] == ZipWith(Times, xs[1..], ys[1..]);
      SumOfProductsIsDot(xs[1..], ys[1..]);
    }
  }

  /** Index of the first element of `s` satisfying `p`, or `|s|` when none does. */
  function FirstIndex<T>(p: T -> bool, s: seq<T>): (k: nat)
    ensures k <= |s|
    ensures forall j :: 0 <= j < k ==> !p(s[j])
    ensures k < |s| ==> p(s[k])
  {
    if |s| == 0 then 0 else if p(s[0]) then 0 else 1 + FirstIndex(p, s[1..])
  }

  /** The three properties of `FirstIndex` determine it. */
  lemma FirstIndexUnique<T>(p: T -> bool, s: seq<T>, k: int)
    requires 0 <= k <= |s|
    requires forall j :: 0 <= j < k ==> !p(s[j])
    requires k < |s| ==> p(s[k])
    ensures FirstIndex(p, s) == k
  {
  }

  /** Searching a concatenation: a match in the first part wins; otherwise the
      search continues in the second part, offset by the first part's length. */
  lemma {:induction false} FirstIndexConcat<T>(p: T -> bool, s: seq<T>, t: seq<T>)
    ensures FirstIndex(p, s + t)
         == if FirstIndex(p, s) < |s| then FirstIndex(p, s) else |s| + FirstIndex(p, t)
    decreases |s|
  {
    if |s| == 0 {
      assert s + t == t;
    } else {
      assert (s + t)[0] == s[0];
      assert (s + t)[1..] == s[1..] + t;
      FirstIndexConcat(p, s[1..], t);
    }
  }

  /** Searching four consecutive parts: the first part holding a match
      decides, offset by the lengths of the parts before it. */
  lemma FirstIndexConcat4<T>(p: T -> bool, s1: seq<T>, s2: seq<T>, s3: seq<T>, s4: seq<T>)
    ensures FirstIndex(p, s1 + (s2 + (s3 + s4)))
         == if FirstIndex(p, s1) < |s1| then FirstIndex(p, s1)
            else if FirstIndex(p, s2) < |s2| then |s1| + FirstIndex(p, s2)
            else if FirstIndex(p, s3) < |s3| then |s1| + |s2| + FirstIndex(p, s3)
            else |s1| + |s2| + |s3| + FirstIndex(p, s4)
  {
    FirstIndexConcat(p, s1, s2 + (s3 + s4));
    FirstIndexConcat(p, s2, s3 + s4);
    FirstIndexConcat(p, s3, s4);
  }

  /** The predicate `x == v` that `find` tests. */
  function Equals<T(==)>(v: T): T -> bool
  {
    x => x == v
  }
}
