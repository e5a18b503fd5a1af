/** What the message synchroniser has done so far: the requests that succeeded and the messages it
    passed on directly, and how often each sequence number was covered by them. */
module MsgHistory {
  import opened SeqLists

  datatype Range = Range(lo: int, hi: int)

  /** A pushed message, with the conversation it was pushed under. */
  datatype Msg = Msg(conversationID: string, seq_: int)

  datatype SeqRange = SeqRange(conversationID: string, range: Range)

  datatype Event =
    /** One successful pull; order lists the ranges in the order they joined the request. */
    | Pulled(ranges: map<string, Range>, order: seq<SeqRange>)
    /** Pushed messages passed on under one conversation. */
    | Triggered(conversationID: string, msgs: seq<Msg>)
    /** A pushed message without a sequence number, passed on at once. */
    | Online(conversationID: string)
    /** Sequence numbers given up in the pass that follows a reinstallation. */
    | Skipped(conversationID: string, range: Range)

  predicate Within(r: Range, s: int) {
    r.lo <= s <= r.hi
  }

  function Size(r: Range): int {
    r.hi - r.lo + 1
  }

  /** The total of the positive sizes, as the batch counter adds them up. */
  function TotalSize(order: seq<SeqRange>): nat {
    if order == [] then 0
    else
      var size := Size(order[|order| - 1].range);
      TotalSize(order[..|order| - 1]) + if size > 0 then size else 0
  }

  /** How often one event covers sequence number s of conversation c. */
  function Times(e: Event, c: string, s: int): nat {
    match e
    case Pulled(ranges, _) => if c in ranges && Within(ranges[c], s) then 1 else 0
    case Triggered(k, msgs) => if k == c then multiset(msgs)[Msg(c, s)] else 0
    case Online(_) => 0
    case Skipped(k, r) => if k == c && Within(r, s) then 1 else 0
  }

  function Deliveries(h: seq<Event>, c: string, s: int): nat {
    if h == [] then 0 else Deliveries(h[..|h| - 1], c, s) + Times(h[|h| - 1], c, s)
  }

  /** How many successful pulls name conversation c. */
  function Requests(h: seq<Event>, c: string): nat {
    if h == [] then 0
    else Requests(h[..|h| - 1], c)
         + (var e := h[|h| - 1]; if e.Pulled? && c in e.ranges then 1 else 0)
  }

  lemma OneMore(h: seq<Event>, e: Event, c: string, s: int)
    ensures Deliveries(h + [e], c, s) == Deliveries(h, c, s) + Times(e, c, s)
    ensures Requests(h + [e], c) == Requests(h, c) + if e.Pulled? && c in e.ranges then 1 else 0
  {
    assert (h + [e])[..|h|] == h;
  }

  // ---------- How cursors and history move together ----------

  type Cursors = map<string, int>

  /** A missing map entry reads as zero. */
  function CursorOf(m: Cursors, c: string): int {
    if c in m then m[c] else 0
  }

  predicate Between(m: Cursors, m': Cursors, c: string, s: int) {
    CursorOf(m, c) < s <= CursorOf(m', c)
  }

  /** Whatever the cursor moved over was delivered at least once. */
  ghost predicate Covers(m: Cursors, h: seq<Event>, m': Cursors, h': seq<Event>, except: set<string>) {
    && (forall c, s :: Deliveries(h', c, s) >= Deliveries(h, c, s))
    && (forall c, s | c !in except && Between(m, m', c, s) :: Deliveries(h', c, s) > Deliveries(h, c, s))
  }

  /** No cursor went back, what the cursor moved over was delivered exactly once, and nothing else
      was delivered. Without a cursor only the numbers above zero are meant. */
  ghost predicate Exact(m: Cursors, h: seq<Event>, m': Cursors, h': seq<Event>, except: set<string>) {
    && m.Keys <= m'.Keys
    && (forall c <- m :: m[c] <= m'[c])
    && (forall c, s | c !in except && (c in m || s > 0) ::
          Deliveries(h', c, s) == Deliveries(h, c, s) + if Between(m, m', c, s) then 1 else 0)
  }

  /** The ranges start just above the cursors; without a cursor they start at 0 or 1. */
  predicate Aligned(m: Cursors, seqMap: map<string, Range>) {
    forall c <- seqMap :: if c in m then seqMap[c].lo == m[c] + 1 <= seqMap[c].hi else seqMap[c].lo <= 1
  }

  lemma CoversTransitive(m0: Cursors, h0: seq<Event>, m1: Cursors, h1: seq<Event>,
                         m2: Cursors, h2: seq<Event>, x1: set<string>, x2: set<string>)
    requires Covers(m0, h0, m1, h1, x1) && Covers(m1, h1, m2, h2, x2) && x1 <= x2
    ensures Covers(m0, h0, m2, h2, x2)
  {
    hide Deliveries;
    forall c, s | c !in x2 && Between(m0, m2, c, s)
      ensures Deliveries(h2, c, s) > Deliveries(h0, c, s)
    {
      assert Between(m0, m1, c, s) || Between(m1, m2, c, s);
    }
    forall c, s
      ensures Deliveries(h2, c, s) >= Deliveries(h0, c, s)
    {
      assert Deliveries(h2, c, s) >= Deliveries(h1, c, s) >= Deliveries(h0, c, s);
    }
  }

  lemma ExactTransitive(m0: Cursors, h0: seq<Event>, m1: Cursors, h1: seq<Event>,
                        m2: Cursors, h2: seq<Event>, x1: set<string>, x2: set<string>)
    requires Exact(m0, h0, m1, h1, x1) && Exact(m1, h1, m2, h2, x2) && x1 <= x2
    ensures Exact(m0, h0, m2, h2, x2)
  {
    hide Deliveries;
    forall c, s | c !in x2 && (c in m0 || s > 0)
      ensures Deliveries(h2, c, s) == Deliveries(h0, c, s) + if Between(m0, m2, c, s) then 1 else 0
    {
      assert Deliveries(h1, c, s) == Deliveries(h0, c, s) + if Between(m0, m1, c, s) then 1 else 0;
      assert Deliveries(h2, c, s) == Deliveries(h1, c, s) + if Between(m1, m2, c, s) then 1 else 0;
    }
  }

  /** The cursors of all conversations outside keys are the same. */
  predicate Untouched(m: Cursors, m': Cursors, keys: set<string>) {
    && (forall c <- m :: c in keys || (c in m' && m'[c] == m[c]))
    && (forall c <- m' :: c in keys || c in m)
  }

  // ---------- The test for a push without gaps ----------

  predicate InInterval(lo: int, hi: int, s: int) {
    lo < s <= hi
  }

  function Interval(lo: int, hi: int): set<int> {
    set s | lo < s <= hi && InInterval(lo, hi, s)
  }

  lemma {:induction false} IntervalSize(lo: int, hi: int)
    requires lo <= hi
    ensures |Interval(lo, hi)| == hi - lo
    decreases hi - lo
  {
    if lo < hi {
      IntervalSize(lo, hi - 1);
      assert Interval(lo, hi) == Interval(lo, hi - 1) + {hi};
    }
  }

  lemma {:induction false} DistinctCount(xs: seq<int>, x: int)
    ensures x in xs <==> multiset(xs)[x] > 0
    ensures Distinct(xs) && x in xs ==> multiset(xs)[x] == 1
  {
    if xs != [] {
      var front := xs[..|xs| - 1];
      assert xs == front + [xs[|xs| - 1]];
      DistinctCount(front, x);
    }
  }

  lemma RepeatedCount<T>(xs: seq<T>, i: nat, j: nat)
    requires i < j < |xs| && xs[i] == xs[j]
    ensures multiset(xs)[xs[i]] >= 2
  {
    assert xs == xs[..j] + xs[j..];
    assert xs[i] in xs[..j] && xs[j] in xs[j..];
  }

  /** Each number above lo and up to hi occurs once, and no other number occurs. */
  ghost predicate FillsInterval(seqs: seq<int>, lo: int, hi: int) {
    forall s :: multiset(seqs)[s] == if lo < s <= hi then 1 else 0
  }

  /** When as many numbers as the interval is long arrive, in any order, they fill it exactly if
      they are distinct and lie in it. */
  lemma FillsIntervalIff(seqs: seq<int>, lo: int, hi: int)
    requires hi == lo + |seqs|
    ensures FillsInterval(seqs, lo, hi)
       <==> Distinct(seqs) && forall i | 0 <= i < |seqs| :: lo < seqs[i] <= hi
  {
    if FillsInterval(seqs, lo, hi) {
      forall i | 0 <= i < |seqs|
        ensures lo < seqs[i] <= hi
      {
        assert multiset(seqs)[seqs[i]] > 0 by { DistinctCount(seqs, seqs[i]); }
      }
      forall i, j | 0 <= i < j < |seqs|
        ensures seqs[i] != seqs[j]
      {
        if seqs[i] == seqs[j] {
          RepeatedCount(seqs, i, j);
        }
      }
    }
    if Distinct(seqs) && forall i | 0 <= i < |seqs| :: lo < seqs[i] <= hi {
      var all := set x | x in seqs;
      DistinctSize(seqs);
      IntervalSize(lo, hi);
      assert all <= Interval(lo, hi);
      SubsetOfSameSize(all, Interval(lo, hi));
      forall s
        ensures multiset(seqs)[s] == if lo < s <= hi then 1 else 0
      {
        DistinctCount(seqs, s);
        assert s in all <==> s in Interval(lo, hi);
      }
    }
  }

  lemma SubsetOfSameSize<T>(a: set<T>, b: set<T>)
    requires a <= b && |a| == |b|
    ensures a == b
  {
    assert |b - a| == |b| - |a|;
  }

  lemma {:induction false} AscendingGrowth(seqs: seq<int>, lo: int, i: nat)
    requires Ascending(seqs) && i < |seqs| && lo < seqs[0]
    ensures seqs[i] >= lo + 1 + i
  {
    if i > 0 {
      AscendingGrowth(seqs, lo, i - 1);
    }
  }

  /** Numbers that fill an interval are as many as it is long. */
  lemma FillsLength(seqs: seq<int>, lo: int, hi: int)
    requires FillsInterval(seqs, lo, hi) && lo <= hi
    ensures |seqs| == hi - lo
  {
    forall i, j | 0 <= i < j < |seqs|
      ensures seqs[i] != seqs[j]
    {
      if seqs[i] == seqs[j] {
        RepeatedCount(seqs, i, j);
      }
    }
    var all := set x | x in seqs;
    DistinctSize(seqs);
    IntervalSize(lo, hi);
    forall s
      ensures s in all <==> s in Interval(lo, hi)
    {
      DistinctCount(seqs, s);
    }
    assert all == Interval(lo, hi);
  }

  /** For a push of strictly increasing numbers above the cursor, comparing the last number with
      cursor + length tells exactly whether no number is missing. */
  lemma PushTestMeansNoGap(cursor: int, seqs: seq<int>)
    requires seqs != [] && Ascending(seqs) && cursor < seqs[0]
    ensures var last := seqs[|seqs| - 1];
            && (last == cursor + |seqs| <==> forall s | cursor < s <= last :: s in seqs)
            && (last == cursor + |seqs| <==> FillsInterval(seqs, cursor, last))
  {
    var last := seqs[|seqs| - 1];
    var all := set x | x in seqs;
    DistinctSize(seqs);
    AscendingGrowth(seqs, cursor, |seqs| - 1);
    IntervalSize(cursor, last);
    assert all <= Interval(cursor, last);
    if last == cursor + |seqs| {
      FillsIntervalIff(seqs, cursor, last);
      SubsetOfSameSize(all, Interval(cursor, last));
      forall s | cursor < s <= last
        ensures s in seqs
      {
        assert s in Interval(cursor, last);
      }
    }
    if forall s | cursor < s <= last :: s in seqs {
      assert all == Interval(cursor, last);
    }
    if FillsInterval(seqs, cursor, last) {
      forall s | cursor < s <= last
        ensures s in seqs
      {
        DistinctCount(seqs, s);
      }
      assert all == Interval(cursor, last);
    }
  }
}
