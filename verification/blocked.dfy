/** The regrouped folds computed by the unrolled reductions `fast_reduce`
    (blocks of 4) and `faster_reduce` (blocks of 8), and the theorem that they
    equal the strictly sequential left fold whenever the reduction operator is
    associative. No commutativity is needed: the accumulator always stays the
    left operand and the block values keep their order. */
module Blocked {
  import opened Sequences

  ghost predicate Associative<T(!new)>(op: (T, T) -> T)
  {
    forall x, y, z {:trigger op(op(x, y), z)} :: op(op(x, y), z) == op(x, op(y, z))
  }


  /** Balanced tree over the first four values: `(x0 . x1) . (x2 . x3)`. */
  function Tree4<T>(op: (T, T) -> T, xs: seq<T>): T
    requires |xs| >= 4
  {
    op(op(xs[0], xs[1]), op(xs[2], xs[3]))
  }

  /** Balanced tree over the first eight values: two `Tree4`s joined. */
  function Tree8<T>(op: (T, T) -> T, xs: seq<T>): T
    requires |xs| >= 8
  {
    op(Tree4(op, xs), Tree4(op, xs[4..]))
  }

  /** The fold `fast_reduce` computes: while MORE than four values remain, the
      tree of the next four is folded into the accumulator; the last one to
      four values (none for an empty input) are folded sequentially. */
  function BlockFold4<T>(op: (T, T) -> T, acc: T, xs: seq<T>): T
    decreases |xs|
  {
    if |xs| > 4 then BlockFold4(op, op(acc, Tree4(op, xs)), xs[4..])
    else FoldLeft(op, acc, xs)
  }

  /** The fold `faster_reduce` computes: as `BlockFold4`, with blocks of eight. */
  function BlockFold8<T>(op: (T, T) -> T, acc: T, xs: seq<T>): T
    decreases |xs|
  {
    if |xs| > 8 then BlockFold8(op, op(acc, Tree8(op, xs)), xs[8..])
    else FoldLeft(op, acc, xs)
  }

  /** Four sequential fold steps equal one step with the block's tree. */
  lemma FoldFourStep<T(!new)>(op: (T, T) -> T, acc: T, xs: seq<T>)
    requires Associative(op)
    requires |xs| >= 4
    ensures FoldLeft(op, acc, xs) == FoldLeft(op, op(acc, Tree4(op, xs)), xs[4..])
  {
    var x0, x1, x2, x3 := xs[0], xs[1], xs[2], xs[3];
    FoldLeftStep(op, acc, xs, 0);
    assert xs[0..] == xs;
    FoldLeftStep(op, op(acc, x0), xs, 1);
    FoldLeftStep(op, op(op(acc, x0), x1), xs, 2);
    FoldLeftStep(op, op(op(op(acc, x0), x1), x2), xs, 3);
    var p := op(x0, x1);
    assert op(op(acc, x0), x1) == op(acc, p);
    assert op(op(acc, p), x2) == op(acc, op(p, x2));
    assert op(op(acc, op(p, x2)), x3) == op(acc, op(op(p, x2), x3));
    assert op(op(p, x2), x3) == op(p, op(x2, x3));
  }

  /** Eight sequential fold steps equal one step with the block's tree. */
  lemma FoldEightStep<T(!new)>(op: (T, T) -> T, acc: T, xs: seq<T>)
    requires Associative(op)
    requires |xs| >= 8
    ensures FoldLeft(op, acc, xs) == FoldLeft(op, op(acc, Tree8(op, xs)), xs[8..])
  {
    var q1, q2 := Tree4(op, xs), Tree4(op, xs[4..]);
    FoldFourStep(op, acc, xs);
    FoldFourStep(op, op(acc, q1), xs[4..]);
    assert xs[4..][4..] == xs[8..];
    assert op(op(acc, q1), q2) == op(acc, op(q1, q2));
  }

  /** `fast_reduce`'s regrouping is exact for an associative operator. */
  lemma {:induction false} BlockFold4IsFoldLeft<T(!new)>(op: (T, T) -> T, acc: T, xs: seq<T>)
    requires Associative(op)
    ensures BlockFold4(op, acc, xs) == FoldLeft(op, acc, xs)
    decreases |xs|
  {
    if |xs| > 4 {
      FoldFourStep(op, acc, xs);
      BlockFold4IsFoldLeft(op, op(acc, Tree4(op, xs)), xs[4..]);
    }
  }

  /** `faster_reduce`'s regrouping is exact for an associative operator. */
  lemma {:induction false} BlockFold8IsFoldLeft<T(!new)>(op: (T, T) -> T, acc: T, xs: seq<T>)
    requires Associative(op)
    ensures BlockFold8(op, acc, xs) == FoldLeft(op, acc, xs)
    decreases |xs|
  {
    if |xs| > 8 {
      FoldEightStep(op, acc, xs);
      BlockFold8IsFoldLeft(op, op(acc, Tree8(op, xs)), xs[8..]);
    }
  }

  /** Integer `+` is associative, so both regroupings of a sum are exact. */
  lemma SumBlockFolds(acc: int, xs: seq<int>)
    ensures BlockFold4(Plus, acc, xs) == FoldLeft(Plus, acc, xs)
    ensures BlockFold8(Plus, acc, xs) == FoldLeft(Plus, acc, xs)
  {
    assert Associative(Plus);
    BlockFold4IsFoldLeft(Plus, acc, xs);
    BlockFold8IsFoldLeft(Plus, acc, xs);
  }
}
