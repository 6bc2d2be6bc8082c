/** The chunked search of `5.parallel`: `our_find_if` is the sequential
    search, and `parallel_find_if` splits the range into four contiguous
    chunks, searches each one, and combines the four answers in chunk order.
    The four searches are independent, so they are modelled as four calls made
    one after the other; which thread finishes first cannot change the answer,
    because the combination only looks at the results in chunk order. */
module Parallel {
  import opened Sequences

  /** `our_find_if`: the first position in `[first, last)` whose element
      satisfies `pred`, or `last` when none does. */
  method FindIf<T>(a: seq<T>, first: int, last: int, pred: T -> bool) returns (r: int)
    requires 0 <= first <= last <= |a|
    ensures first <= r <= last
    ensures forall j :: first <= j < r ==> !pred(a[j])
    ensures r < last ==> pred(a[r])
    ensures r == first + FirstIndex(pred, a[first..last])
  {
    r := first;
    while r != last
      invariant first <= r <= last
      invariant forall j :: first <= j < r ==> !pred(a[j])
      decreases last - r
    {
      if pred(a[r]) {
        break;
      }
      r := r + 1;
    }
    FirstIndexUnique(pred, a[first..last], r - first);
  }

  /** The three inner limits of a split of `[first, last)` into four chunks:
      `[first, limit1)`, `[limit1, limit2)`, `[limit2, limit3)`, `[limit3, last)`. */
  datatype Chunks = Chunks(limit1: int, limit2: int, limit3: int)
  {
    predicate Ordered(first: int, last: int)
    {
      first <= limit1 <= limit2 <= limit3 <= last
    }
  }

  /** The split `parallel_find_if` makes: the first three chunks have
      `(last - first) / 4` elements each and the fourth takes the rest, which is
      the same size or up to three elements more. A range shorter than four
      gives three empty chunks and puts every element in the fourth. */
  function Split(first: int, last: int): (c: Chunks)
    requires first <= last
    ensures c.Ordered(first, last)
    ensures c.limit1 - first == c.limit2 - c.limit1 == c.limit3 - c.limit2
    ensures c.limit1 - first <= last - c.limit3 < c.limit1 - first + 4
    ensures last - c.limit3 == (last - first) - 3 * (c.limit1 - first)
    ensures last - first < 4 <==> c.limit3 == first
  {
    var chunkSize := (last - first) / 4;
    var limit1 := first + chunkSize;
    var limit2 := limit1 + chunkSize;
    var limit3 := limit2 + chunkSize;
    Chunks(limit1, limit2, limit3)
  }

  /** How `parallel_find_if` combines the four answers: the first chunk whose
      search stopped before the chunk's end holds the answer; when the first
      three searches all reached their ends, the fourth search's answer
      (a match or `last`) is returned. `ParallelFindIf` writes this same
      chain as early returns, as the source does, and its result is proved
      equal to `Combine` of the four answers. */
  function Combine(c: Chunks, found1: int, found2: int, found3: int, found4: int): int
  {
    if found1 != c.limit1 then found1
    else if found2 != c.limit2 then found2
    else if found3 != c.limit3 then found3
    else found4
  }

  /** The sequential search of a range cut at `l1 <= l2 <= l3` finds the
      first match of the first part that holds one, offset by the parts before
      it, and otherwise the end of the last part's search. */
  lemma SearchFourParts<T>(pred: T -> bool, a: seq<T>, first: int, l1: int, l2: int, l3: int, last: int)
    requires 0 <= first <= l1 <= l2 <= l3 <= last <= |a|
    ensures FirstIndex(pred, a[first..last])
         == if FirstIndex(pred, a[first..l1]) < l1 - first then FirstIndex(pred, a[first..l1])
            else if FirstIndex(pred, a[l1..l2]) < l2 - l1 then l1 - first + FirstIndex(pred, a[l1..l2])
            else if FirstIndex(pred, a[l2..l3]) < l3 - l2 then l2 - first + FirstIndex(pred, a[l2..l3])
            else l3 - first + FirstIndex(pred, a[l3..last])
  {
    assert a[first..last] == a[first..l1] + (a[l1..l2] + (a[l2..l3] + a[l3..last]));
    FirstIndexConcat4(pred, a[first..l1], a[l1..l2], a[l2..l3], a[l3..last]);
  }

  /** For ANY split of a range into four contiguous chunks, combining the
      answers of the four chunk searches in chunk order yields exactly the
      sequential search of the whole range. */
  lemma ChunkedSearchIsSequential<T>(pred: T -> bool, a: seq<T>, first: int, c: Chunks, last: int,
                                     found1: int, found2: int, found3: int, found4: int)
    requires 0 <= first && last <= |a|
    requires c.Ordered(first, last)
    requires found1 == first + FirstIndex(pred, a[first..c.limit1])
    requires found2 == c.limit1 + FirstIndex(pred, a[c.limit1..c.limit2])
    requires found3 == c.limit2 + FirstIndex(pred, a[c.limit2..c.limit3])
    requires found4 == c.limit3 + FirstIndex(pred, a[c.limit3..last])
    ensures Combine(c, found1, found2, found3, found4) == first + FirstIndex(pred, a[first..last])
  {
    SearchFourParts(pred, a, first, c.limit1, c.limit2, c.limit3, last);
  }

  /** `parallel_find_if`: the same answer as `our_find_if` on the whole range,
      for every length, including lengths below four. */
  method ParallelFindIf<T>(a: seq<T>, first: int, last: int, pred: T -> bool) returns (r: int)
    requires 0 <= first <= last <= |a|
    ensures r == first + FirstIndex(pred, a[first..last])
    ensures first <= r <= last
    ensures r < last ==> pred(a[r])
    ensures r == last <==> forall j :: first <= j < last ==> !pred(a[j])
  {
    var c := Split(first, last);
    var found1 := FindIf(a, first, c.limit1, pred);
    var found2 := FindIf(a, c.limit1, c.limit2, pred);
    var found3 := FindIf(a, c.limit2, c.limit3, pred);
    var found4 := FindIf(a, c.limit3, last, pred);
    ChunkedSearchIsSequential(pred, a, first, c, last, found1, found2, found3, found4);
    if found1 != c.limit1 {
      assert found1 == Combine(c, found1, found2, found3, found4);
      return found1;
    }
    if found2 != c.limit2 {
      assert found2 == Combine(c, found1, found2, found3, found4);
      return found2;
    }
    if found3 != c.limit3 {
      assert found3 == Combine(c, found1, found2, found3, found4);
      return found3;
    }
    r := found4;
    assert r == Combine(c, found1, found2, found3, found4);
  }
}
