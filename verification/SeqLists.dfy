/** Lists of sequence numbers: spans, differences, and the windows that history queries pull. */
module SeqLists {

  const PULL_NUM := 50

  /** The numbers from lo to hi in ascending order. */
  function Span(lo: int, hi: int): seq<int>
    decreases hi - lo
  {
    if lo > hi then [] else Span(lo, hi - 1) + [hi]
  }

  lemma {:induction false} SpanIs(lo: int, hi: int)
    ensures |Span(lo, hi)| == if lo > hi then 0 else hi - lo + 1
    ensures forall i | 0 <= i < |Span(lo, hi)| :: Span(lo, hi)[i] == lo + i
    ensures forall s :: s in Span(lo, hi) <==> lo <= s <= hi
    decreases hi - lo
  {
    if lo <= hi {
      SpanIs(lo, hi - 1);
    }
  }

  predicate Ascending(xs: seq<int>) {
    forall i, j | 0 <= i < j < |xs| :: xs[i] < xs[j]
  }

  /** The elements of xs that do not occur in ys, in their order. */
  function Difference(xs: seq<int>, ys: seq<int>): seq<int> {
    if xs == [] then []
    else
      var last := xs[|xs| - 1];
      Difference(xs[..|xs| - 1], ys) + if last in ys then [] else [last]
  }

  lemma {:induction false} DifferenceIs(xs: seq<int>, ys: seq<int>)
    ensures forall x :: x in Difference(xs, ys) <==> x in xs && x !in ys
    ensures Ascending(xs) ==> Ascending(Difference(xs, ys))
  {
    if xs != [] {
      var front, last := xs[..|xs| - 1], xs[|xs| - 1];
      DifferenceIs(front, ys);
      assert forall x :: x in xs <==> x in front || x == last;
      if Ascending(xs) {
        forall i | 0 <= i < |Difference(front, ys)|
          ensures Difference(front, ys)[i] < last
        {
          assert Difference(front, ys)[i] in front;
        }
      }
    }
  }

  lemma InDifference(xs: seq<int>, ys: seq<int>, x: int)
    ensures x in Difference(xs, ys) <==> x in xs && x !in ys
  {
    DifferenceIs(xs, ys);
  }

  predicate Distinct(xs: seq<int>) {
    forall i, j | 0 <= i < j < |xs| :: xs[i] != xs[j]
  }

  lemma {:induction false} DistinctSize(xs: seq<int>)
    requires Distinct(xs)
    ensures |set x | x in xs| == |xs|
  {
    if xs != [] {
      var front := xs[..|xs| - 1];
      DistinctSize(front);
      assert (set x | x in xs) == (set x | x in front) + {xs[|xs| - 1]};
    }
  }

  lemma AscendingDistinct(xs: seq<int>)
    requires Ascending(xs)
    ensures Distinct(xs)
  {
  }

  /** The length of a difference when everything taken away is there and occurs once. */
  lemma DifferenceLength(xs: seq<int>, ys: seq<int>)
    requires Ascending(xs) && Distinct(ys) && forall y <- ys :: y in xs
    ensures |Difference(xs, ys)| == |xs| - |ys|
  {
    DifferenceIs(xs, ys);
    AscendingDistinct(xs);
    AscendingDistinct(Difference(xs, ys));
    DistinctSize(xs);
    DistinctSize(ys);
    DistinctSize(Difference(xs, ys));
    var a, b := set x | x in xs, set y | y in ys;
    assert (set x | x in Difference(xs, ys)) == a - b;
    assert b <= a;
    assert |a - b| == |a| - |b|;
  }

  /** The last PULL_NUM elements, or all when there are fewer. */
  function HighestFew(xs: seq<int>): seq<int> {
    if |xs| <= PULL_NUM then xs else xs[|xs| - PULL_NUM..]
  }

  // ---------- The methods ----------

  method SuccessiveSeqList(max: int, min: int) returns (seqList: seq<int>)
    ensures seqList == Span(min, max)
  {
    seqList := [];
    var i := min;
    assert Span(min, min - 1) == [];
    while i <= max
      invariant min <= i && (i <= max + 1 || i == min)
      invariant seqList == Span(min, i - 1)
      decreases max + 1 - i
    {
      seqList := seqList + [i];
      i := i + 1;
    }
    assert min > max ==> Span(min, max) == [];
  }

  /** DifferenceSubset: look each element up in a table of the others. */
  method DifferenceSubset(mainSlice: seq<int>, subSlice: seq<int>) returns (n: seq<int>)
    ensures n == Difference(mainSlice, subSlice)
  {
    var m: map<int, bool> := map[];
    for i := 0 to |subSlice|
      invariant forall x :: x in m <==> x in subSlice[..i]
      invariant forall x <- m :: m[x]
    {
      m := m[subSlice[i] := true];
    }
    n := [];
    assert subSlice[..|subSlice|] == subSlice;
    for i := 0 to |mainSlice|
      invariant n == Difference(mainSlice[..i], subSlice)
    {
      assert mainSlice[..i + 1][..i] == mainSlice[..i];
      if mainSlice[i] !in m {
        n := n + [mainSlice[i]];
      }
    }
    assert mainSlice[..|mainSlice|] == mainSlice;
  }

  // ---------- The window between two blocks ----------

  /** What is pulled below lastMinSeq when the block below ends at maxSeq and does not touch it. */
  function BetweenWindow(lastMinSeq: int, maxSeq: int): seq<int> {
    var start := lastMinSeq - PULL_NUM;
    Span(if start <= maxSeq then maxSeq + 1 else start, lastMinSeq - 1)
  }

  /** The window lies strictly between the two blocks, has at most 50 numbers, and when there is a gap
      it touches the upper block; with fewer than 50 it fills the gap. */
  lemma BetweenWindowIs(lastMinSeq: int, maxSeq: int)
    ensures var w := BetweenWindow(lastMinSeq, maxSeq);
            && |w| <= 50 && Ascending(w)
            && (forall s <- w :: maxSeq < s < lastMinSeq)
            && (w == [] <==> maxSeq + 1 >= lastMinSeq)
            && (w != [] ==> w[|w| - 1] == lastMinSeq - 1)
            && (|w| < 50 ==> forall s | maxSeq < s < lastMinSeq :: s in w)
  {
    var start := lastMinSeq - PULL_NUM;
    SpanIs(if start <= maxSeq then maxSeq + 1 else start, lastMinSeq - 1);
  }

  // ---------- The windows below the lowest number ----------

  function WindowStart(minSeq: int): int {
    if minSeq - PULL_NUM <= 0 then 1 else minSeq - PULL_NUM
  }

  function EndWindow(minSeq: int): seq<int> {
    Span(WindowStart(minSeq), minSeq - 1)
  }

  /** The up to 50 numbers below minSeq, down to 1. */
  lemma EndWindowIs(minSeq: int)
    ensures Ascending(EndWindow(minSeq))
    ensures forall s :: s in EndWindow(minSeq) <==> 1 <= s < minSeq && minSeq - 50 <= s
  {
    SpanIs(WindowStart(minSeq), minSeq - 1);
  }

  /** The windows pulled one after another, each below the one before. */
  function EndWindows(minSeq: int): seq<seq<int>>
    decreases minSeq
  {
    if minSeq <= 1 then [] else [EndWindow(minSeq)] + EndWindows(WindowStart(minSeq))
  }

  predicate InSome(windows: seq<seq<int>>, s: int) {
    exists w <- windows :: s in w
  }

  /** Paging down reaches the first message: the windows have at most 50 numbers each, they are
      ceil((minSeq - 1) / 50) many, and every number below minSeq is in exactly one of them. */
  lemma {:induction false} EndWindowsCover(minSeq: int)
    requires minSeq >= 1
    ensures |EndWindows(minSeq)| == (minSeq - 1 + 49) / 50
    ensures forall i | 0 <= i < |EndWindows(minSeq)| :: 0 < |EndWindows(minSeq)[i]| <= 50
    ensures forall s :: InSome(EndWindows(minSeq), s) <==> 1 <= s < minSeq
    ensures forall i, j, s | 0 <= i < j < |EndWindows(minSeq)| ::
              !(s in EndWindows(minSeq)[i] && s in EndWindows(minSeq)[j])
    decreases minSeq
  {
    if minSeq > 1 {
      var next := WindowStart(minSeq);
      var w, rest, all := EndWindow(minSeq), EndWindows(next), EndWindows(minSeq);
      EndWindowsCover(next);
      SpanIs(next, minSeq - 1);
      hide EndWindows, Span;
      assert all == [w] + rest;
      assert forall i | 0 < i < |all| :: all[i] == rest[i - 1];
      forall s
        ensures InSome(all, s) <==> s in w || InSome(rest, s)
      {
        assert w in all;
      }
      forall i, j, s | 0 <= i < j < |all| && s in all[j]
        ensures s !in all[i]
      {
        assert InSome(rest, s);
      }
    }
  }
}
