/** Detecting and repairing gaps in a page of local messages. The table is the list of the numbers of
    its rows, in which a number may occur more than once; what a pull brings into the table and what a
    query then returns are arbitrary. */
module MessageCheck {
  import opened SeqLists

  /** A row of the page; rows that the server has not numbered have number 0. */
  datatype ChatLog = ChatLog(clientMsgID: string, seq_: int)

  datatype Request = Request(begin: int, end: int, num: int)

  const ERR_CODE := 100

  predicate NonNegative(list: seq<ChatLog>) {
    forall x <- list :: x.seq_ >= 0
  }

  /** The numbers of the numbered rows, in page order. */
  function HaveSeqs(list: seq<ChatLog>): seq<int> {
    if list == [] then []
    else
      var last := list[|list| - 1].seq_;
      HaveSeqs(list[..|list| - 1]) + if last == 0 then [] else [last]
  }

  lemma {:induction false} HaveSeqsIs(list: seq<ChatLog>)
    ensures forall s :: s in HaveSeqs(list) <==> s != 0 && exists x <- list :: x.seq_ == s
    ensures NonNegative(list) ==> forall s <- HaveSeqs(list) :: s > 0
  {
    if list != [] {
      var front, last := list[..|list| - 1], list[|list| - 1];
      HaveSeqsIs(front);
      assert forall x :: x in list <==> x in front || x == last;
    }
  }

  /** The extremes of the numbered rows, both 0 when there are none. */
  ghost predicate Extremes(have: seq<int>, max: int, min: int) {
    if have == [] then max == 0 && min == 0
    else max in have && min in have && forall s <- have :: min <= s <= max
  }

  method GetMaxAndMinHaveSeqList(messages: seq<ChatLog>) returns (max: int, min: int, seqList: seq<int>)
    ensures seqList == HaveSeqs(messages)
    ensures NonNegative(messages) ==> Extremes(seqList, max, min) && (max == 0 <==> seqList == []) && (min == 0 <==> max == 0)
  {
    max, min, seqList := 0, 0, [];
    for i := 0 to |messages|
      invariant seqList == HaveSeqs(messages[..i])
      invariant NonNegative(messages) ==>
                  Extremes(seqList, max, min) && (forall s <- seqList :: s > 0) && (seqList == [] ==> max == 0 && min == 0)
    {
      assert messages[..i + 1][..i] == messages[..i];
      var seq_ := messages[i].seq_;
      if seq_ != 0 {
        seqList := seqList + [seq_];
      }
      if seq_ != 0 && min == 0 && max == 0 {
        min := seq_;
        max := seq_;
      }
      if seq_ < min && seq_ != 0 {
        min := seq_;
      }
      if seq_ > max {
        max := seq_;
      }
    }
    assert messages[..|messages|] == messages;
  }

  // ---------- What is missing inside a block ----------

  /** The missing numbers between the extremes of the page. */
  function LostSeqs(have: seq<int>, max: int, min: int): seq<int> {
    Difference(Span(min, max), have)
  }

  /** The lost list is exact and ascending, and for a page without repeated numbers its length is the
      length of the block less the number of rows held. What is pulled are the highest of them. */
  lemma LostIs(have: seq<int>, max: int, min: int)
    requires Extremes(have, max, min) && have != []
    ensures var lost := LostSeqs(have, max, min);
            && Ascending(lost)
            && (forall s :: s in lost <==> min <= s <= max && s !in have)
            && (Distinct(have) ==> |lost| == max - min + 1 - |have|)
            && |HighestFew(lost)| == (if |lost| <= 50 then |lost| else 50)
            && (forall s, t | s in lost && s !in HighestFew(lost) && t in HighestFew(lost) :: s < t)
  {
    var span := Span(min, max);
    SpanIs(min, max);
    DifferenceIs(span, have);
    if Distinct(have) {
      DifferenceLength(span, have);
    }
    HighestFewSplits(LostSeqs(have, max, min));
    hide HighestFew, Span, Difference, Distinct;
  }

  lemma HighestFewSplits(xs: seq<int>)
    requires Ascending(xs)
    ensures |HighestFew(xs)| == if |xs| <= 50 then |xs| else 50
    ensures forall s, t | s in xs && s !in HighestFew(xs) && t in HighestFew(xs) :: s < t
    ensures Ascending(HighestFew(xs)) && forall s <- HighestFew(xs) :: s in xs
    ensures xs != [] ==> HighestFew(xs) != [] && HighestFew(xs)[|HighestFew(xs)| - 1] == xs[|xs| - 1]
  {
    var k := if |xs| <= PULL_NUM then 0 else |xs| - PULL_NUM;
    assert xs == xs[..k] + HighestFew(xs);
  }

  // ---------- Which of them are pulled ----------

  /** The rows of the table whose number is asked for. */
  function Existing(rows: seq<int>, seqList: seq<int>): seq<int> {
    if rows == [] then []
    else
      var last := rows[|rows| - 1];
      Existing(rows[..|rows| - 1], seqList) + if last in seqList then [last] else []
  }

  lemma {:induction false} ExistingIs(rows: seq<int>, seqList: seq<int>)
    ensures forall s :: s in Existing(rows, seqList) <==> s in rows && s in seqList
    ensures Distinct(rows) ==> Distinct(Existing(rows, seqList))
  {
    if rows != [] {
      var front, last := rows[..|rows| - 1], rows[|rows| - 1];
      ExistingIs(front, seqList);
      assert forall s :: s in rows <==> s in front || s == last;
    }
  }

  lemma InExisting(rows: seq<int>, seqList: seq<int>, s: int)
    ensures s in Existing(rows, seqList) <==> s in rows && s in seqList
  {
    ExistingIs(rows, seqList);
  }

  lemma {:induction false} DifferenceExisting(rows: seq<int>, seqList: seq<int>, xs: seq<int>)
    requires forall x <- xs :: x in seqList
    ensures Difference(xs, Existing(rows, seqList)) == Difference(xs, rows)
  {
    ExistingIs(rows, seqList);
    if xs != [] {
      DifferenceExisting(rows, seqList, xs[..|xs| - 1]);
    }
  }

  /** A pull is asked for when some number is missing and the rows found are not as many as asked for. */
  predicate Needed(rows: seq<int>, seqList: seq<int>) {
    |Existing(rows, seqList)| != |seqList| && Difference(seqList, rows) != []
  }

  lemma NothingNeeded(rows: seq<int>)
    ensures !Needed(rows, [])
  {
    ExistingIs(rows, []);
    if Existing(rows, []) != [] {
      InExisting(rows, [], Existing(rows, [])[0]);
    }
  }

  /** How many of the rows found repeat the number of another one. */
  ghost function Surplus(found: seq<int>): int {
    |found| - |set s | s in found|
  }

  /** Of the numbers asked for, each is either found or missing. */
  lemma FoundOrMissing(rows: seq<int>, seqList: seq<int>)
    requires Distinct(seqList)
    ensures |seqList| == |set s | s in Existing(rows, seqList)| + |Difference(seqList, rows)|
  {
    DifferenceDistinct(seqList, rows);
    DistinctSize(Difference(seqList, rows));
    DistinctSize(seqList);
    forall s
      ensures s in Existing(rows, seqList) <==> s in rows && s in seqList
      ensures s in Difference(seqList, rows) <==> s in seqList && s !in rows
    {
      InExisting(rows, seqList, s);
      InDifference(seqList, rows, s);
    }
    hide Existing, Difference, Distinct;
    Parted(set s | s in seqList, set s | s in Existing(rows, seqList), set s | s in Difference(seqList, rows));
  }

  lemma Parted(all: set<int>, found: set<int>, missing: set<int>)
    requires all == found + missing && found !! missing
    ensures |all| == |found| + |missing|
  {
  }

  lemma {:induction false} DifferenceDistinct(xs: seq<int>, ys: seq<int>)
    requires Distinct(xs)
    ensures Distinct(Difference(xs, ys))
  {
    if xs != [] {
      var front := xs[..|xs| - 1];
      DifferenceDistinct(front, ys);
      DifferenceIs(front, ys);
      forall i | 0 <= i < |Difference(front, ys)|
        ensures Difference(front, ys)[i] != xs[|xs| - 1]
      {
        InDifference(front, ys, Difference(front, ys)[i]);
      }
    }
  }

  /** Whatever the table holds, a pull is asked for exactly when some number is missing and the repeated
      rows found are not as many as the missing numbers; without repeated rows, exactly when some number
      is missing. */
  lemma NeededIff(rows: seq<int>, seqList: seq<int>)
    requires Distinct(seqList)
    ensures Needed(rows, seqList)
            <==> (exists s :: s in seqList && s !in rows)
                 && Surplus(Existing(rows, seqList)) != |Difference(seqList, rows)|
    ensures Distinct(Existing(rows, seqList)) ==> Surplus(Existing(rows, seqList)) == 0
    ensures Distinct(Existing(rows, seqList)) ==> (Needed(rows, seqList) <==> exists s :: s in seqList && s !in rows)
  {
    FoundOrMissing(rows, seqList);
    MissingIff(rows, seqList);
    if Distinct(Existing(rows, seqList)) {
      DistinctSize(Existing(rows, seqList));
    }
    hide Existing, Difference, Distinct;
  }

  lemma MissingIff(rows: seq<int>, seqList: seq<int>)
    ensures Difference(seqList, rows) != [] <==> exists s :: s in seqList && s !in rows
  {
    var d := Difference(seqList, rows);
    if d != [] {
      InDifference(seqList, rows, d[0]);
    }
    if s :| s in seqList && s !in rows {
      InDifference(seqList, rows, s);
    }
  }

  /** With one repeated row and two missing numbers the pull is asked for all the same. */
  lemma RepeatedRowWithTwoMissing()
    ensures Needed([5, 5], [5, 6, 7])
  {
    assert [5, 5][..1] == [5] && [5][..0] == [];
    assert Existing([5], [5, 6, 7]) == [5];
    assert Existing([5, 5], [5, 6, 7]) == [5, 5];
    InDifference([5, 6, 7], [5, 5], 6);
  }

  /** A number stored twice hides a missing one: with two rows numbered 5 and none numbered 6, the
      list [5, 6] is not pulled. */
  lemma RepeatedRowHidesGap()
    ensures !Needed([5, 5], [5, 6]) && 6 !in [5, 5]
  {
    assert [5, 5][..1] == [5] && [5][..0] == [];
    assert Existing([5], [5, 6]) == [5];
    assert Existing([5, 5], [5, 6]) == [5, 5];
  }

  /** The query for the newest messages, [0, 0], is sent exactly when the table has no unnumbered row. */
  lemma NewestNeededIff(rows: seq<int>)
    ensures Needed(rows, [0, 0]) <==> 0 !in rows
  {
    var zeros := [0, 0];
    ExistingIs(rows, zeros);
    assert [0, 0][..1] == [0] && [0][..0] == [];
    assert Difference([0], rows) == if 0 in rows then [] else [0];
    assert Difference([0, 0], rows) == if 0 in rows then [] else [0, 0];
    var found := Existing(rows, zeros);
    if found != [] {
      InExisting(rows, zeros, found[0]);
    }
    assert Needed(rows, [0, 0]) <==> |found| != |[0, 0]| && Difference([0, 0], rows) != [];
  }

  // ---------- What is kept when the pull fails ----------

  /** The page up to the first numbered row at or below pullMax. */
  function Kept(list: seq<ChatLog>, pullMax: int): seq<ChatLog> {
    if list == [] then []
    else if list[0].seq_ == 0 || list[0].seq_ > pullMax then [list[0]] + Kept(list[1..], pullMax)
    else []
  }

  /** Newest first, ignoring rows without a number. */
  predicate Descending(list: seq<ChatLog>) {
    forall i, j | 0 <= i < j < |list| && list[i].seq_ != 0 && list[j].seq_ != 0 :: list[i].seq_ > list[j].seq_
  }

  lemma {:induction false} KeptIs(list: seq<ChatLog>, pullMax: int)
    requires Descending(list) && pullMax > 0
    ensures Kept(list, pullMax) <= list
    ensures forall x <- list :: x.seq_ > pullMax ==> x in Kept(list, pullMax)
    ensures forall x <- Kept(list, pullMax) :: x.seq_ == 0 || x.seq_ > pullMax
  {
    if list != [] {
      KeptIs(list[1..], pullMax);
      assert list == [list[0]] + list[1..];
    }
  }

  /** No number is missing between any number kept and the highest of the page. */
  ghost predicate NoGap(kept: seq<ChatLog>, have: seq<int>, max: int) {
    forall x <- kept, s | x.seq_ != 0 && x.seq_ <= s <= max :: s in have
  }

  /** After a failed pull of the lost numbers of a page in descending order, what is kept has no gap
      exactly when no row of the page lies above the highest number asked for and below the highest
      number lost. */
  lemma KeptHasNoGapIff(list: seq<ChatLog>, rows: seq<int>, max: int, min: int)
    requires NonNegative(list) && Descending(list)
    requires Extremes(HaveSeqs(list), max, min) && HaveSeqs(list) != []
    requires Difference(HighestFew(LostSeqs(HaveSeqs(list), max, min)), rows) != []
    ensures var have := HaveSeqs(list);
            var lost := LostSeqs(have, max, min);
            var asked := Difference(HighestFew(lost), rows);
            var pullMax := asked[|asked| - 1];
            && lost != []
            && (NoGap(Kept(list, pullMax), have, max)
                <==> forall q <- have :: q > pullMax ==> q > lost[|lost| - 1])
            && (lost[|lost| - 1] !in rows ==> NoGap(Kept(list, pullMax), have, max))
  {
    var have := HaveSeqs(list);
    var lost := LostSeqs(have, max, min);
    var few := HighestFew(lost);
    var asked := Difference(few, rows);
    hide HaveSeqs, LostSeqs, HighestFew, Difference, Kept, Span, NoGap;
    HaveSeqsIs(list);
    LostIs(have, max, min);
    DifferenceIs(few, rows);
    HighestFewSplits(lost);
    assert asked[0] in asked && asked[|asked| - 1] in asked;
    var top := lost[|lost| - 1];
    assert top in lost && top in few;
    KeptNoGap(list, have, max, min, lost, asked[|asked| - 1]);
    if top !in rows {
      LastOfAscending(asked, top);
    }
  }

  lemma LastOfAscending(xs: seq<int>, top: int)
    requires Ascending(xs) && top in xs && forall x <- xs :: x <= top
    ensures xs[|xs| - 1] == top
  {
    var i :| 0 <= i < |xs| && xs[i] == top;
    assert xs[|xs| - 1] in xs;
  }

  lemma KeptNoGap(list: seq<ChatLog>, have: seq<int>, max: int, min: int, lost: seq<int>, pullMax: int)
    requires Descending(list) && (forall x <- list :: x.seq_ >= 0) && pullMax > 0
    requires forall s :: s in have <==> s != 0 && exists x <- list :: x.seq_ == s
    requires forall s <- have :: min <= s <= max
    requires forall s :: s in lost <==> min <= s <= max && s !in have
    requires lost != [] && Ascending(lost) && pullMax <= lost[|lost| - 1]
    ensures NoGap(Kept(list, pullMax), have, max) <==> forall q <- have :: q > pullMax ==> q > lost[|lost| - 1]
  {
    hide Kept, Descending, Ascending, NoGap;
    KeptIs(list, pullMax);
    LastIsGreatest(lost);
    if NoGap(Kept(list, pullMax), have, max) {
      GapShows(list, have, max, lost, pullMax);
    }
    if forall q <- have :: q > pullMax ==> q > lost[|lost| - 1] {
      NoGapLeft(list, have, max, min, lost, pullMax);
    }
  }

  lemma LastIsGreatest(xs: seq<int>)
    requires xs != [] && Ascending(xs)
    ensures xs[|xs| - 1] in xs && forall x <- xs :: x <= xs[|xs| - 1]
  {
  }

  lemma GapShows(list: seq<ChatLog>, have: seq<int>, max: int, lost: seq<int>, pullMax: int)
    requires forall x <- list :: x.seq_ > pullMax ==> x in Kept(list, pullMax)
    requires pullMax > 0 && forall s <- have :: exists x <- list :: x.seq_ == s
    requires lost != [] && lost[|lost| - 1] !in have && lost[|lost| - 1] <= max
    requires NoGap(Kept(list, pullMax), have, max)
    ensures forall q <- have :: q > pullMax ==> q > lost[|lost| - 1]
  {
    hide Kept;
    forall q <- have | q > pullMax
      ensures q > lost[|lost| - 1]
    {
      var x :| x in list && x.seq_ == q;
      assert x in Kept(list, pullMax);
    }
  }

  lemma NoGapLeft(list: seq<ChatLog>, have: seq<int>, max: int, min: int, lost: seq<int>, pullMax: int)
    requires Kept(list, pullMax) <= list && forall x <- Kept(list, pullMax) :: x.seq_ == 0 || x.seq_ > pullMax
    requires forall x <- list :: x.seq_ != 0 ==> x.seq_ in have
    requires forall s <- have :: min <= s <= max
    requires forall s :: s in lost <==> min <= s <= max && s !in have
    requires lost != [] && forall s <- lost :: s <= lost[|lost| - 1]
    requires forall q <- have :: q > pullMax ==> q > lost[|lost| - 1]
    ensures NoGap(Kept(list, pullMax), have, max)
  {
    hide Kept;
    forall x <- Kept(list, pullMax), s | x.seq_ != 0 && x.seq_ <= s <= max
      ensures s in have
    {
      assert x in list && x.seq_ in have;
      assert s !in lost;
    }
  }

  // ---------- The query object ----------

  /** What the server answers: an error, an answer without messages, an answer that lacks this
      conversation, or its messages; then also what the table holds after they were written to it, and the
      page that is read from it again. */
  datatype Reply = Failure | NoMessages | OtherMessages | Messages(isEnd: bool, rows: seq<int>, page: seq<ChatLog>)

  function RequestFor(asked: seq<int>): Request
    requires asked != []
  {
    Request(asked[0], asked[|asked| - 1], |asked|)
  }

  predicate Missing(s: int, seqList: seq<int>, table: seq<int>) {
    s in seqList && s !in table
  }

  /** The request goes from the least to the greatest number of the list that the table lacks, and asks for as
      many as there are. */
  ghost predicate AsksForMissing(r: Request, seqList: seq<int>, table: seq<int>) {
    && Missing(r.begin, seqList, table) && Missing(r.end, seqList, table)
    && (forall s | Missing(s, seqList, table) :: r.begin <= s <= r.end)
    && r.num == |set s | s in seqList && Missing(s, seqList, table)|
  }

  lemma RequestForMissing(seqList: seq<int>, table: seq<int>)
    requires Ascending(seqList) && Difference(seqList, table) != []
    ensures AsksForMissing(RequestFor(Difference(seqList, table)), seqList, table)
  {
    var d := Difference(seqList, table);
    DifferenceIs(seqList, table);
    AscendingDistinct(d);
    DistinctSize(d);
    assert d[0] in d && d[|d| - 1] in d;
    assert (set s | s in seqList && Missing(s, seqList, table)) == set s | s in d;
    hide Difference;
  }

  /** A request that asks for at most 50 numbers, all between lo and hi. */
  predicate RequestWithin(r: Request, lo: int, hi: int) {
    && lo <= r.begin <= r.end <= hi
    && 1 <= r.num <= 50
    && r.num <= r.end - r.begin + 1
  }

  lemma RequestForWithin(seqList: seq<int>, rows: seq<int>, lo: int, hi: int)
    requires Ascending(seqList) && |seqList| <= PULL_NUM && forall s <- seqList :: lo <= s <= hi
    requires Difference(seqList, rows) != []
    ensures RequestWithin(RequestFor(Difference(seqList, rows)), lo, hi)
    ensures RequestFor(Difference(seqList, rows)).begin !in rows && RequestFor(Difference(seqList, rows)).end !in rows
  {
    var d := Difference(seqList, rows);
    DifferenceIs(seqList, rows);
    InDifference(seqList, rows, d[0]);
    InDifference(seqList, rows, d[|d| - 1]);
    AscendingWidth(d);
    DifferenceShorter(seqList, rows);
  }

  lemma {:induction false} AscendingWidth(xs: seq<int>)
    requires Ascending(xs) && xs != []
    ensures |xs| <= xs[|xs| - 1] - xs[0] + 1
  {
    if |xs| > 1 {
      AscendingWidth(xs[..|xs| - 1]);
    }
  }

  lemma {:induction false} DifferenceShorter(xs: seq<int>, ys: seq<int>)
    ensures |Difference(xs, ys)| <= |xs|
  {
    if xs != [] {
      DifferenceShorter(xs[..|xs| - 1], ys);
    }
  }

  /** A window of at most 50 numbers that ends at hi: the request stays inside it and reaches hi unless
      the table has hi. */
  lemma WindowRequest(seqList: seq<int>, rows: seq<int>, lo: int, hi: int)
    requires Ascending(seqList) && 0 < |seqList| <= PULL_NUM && forall s <- seqList :: lo <= s <= hi
    requires seqList[|seqList| - 1] == hi
    ensures var d := Difference(seqList, rows);
            d != [] ==> RequestWithin(RequestFor(d), lo, hi) && (hi !in rows ==> RequestFor(d).end == hi)
  {
    var d := Difference(seqList, rows);
    DifferenceIs(seqList, rows);
    assert hi in seqList;
    if d != [] {
      RequestForWithin(seqList, rows, lo, hi);
      if hi !in rows {
        LastOfAscending(d, hi);
      }
    }
  }

  /** What is pulled inside a block lies strictly between its extremes. */
  lemma LostPullWithin(list: seq<ChatLog>, rows: seq<int>, max: int, min: int)
    requires Extremes(HaveSeqs(list), max, min) && HaveSeqs(list) != []
    ensures var d := Difference(HighestFew(LostSeqs(HaveSeqs(list), max, min)), rows);
            d != [] ==> RequestWithin(RequestFor(d), min + 1, max - 1)
  {
    var have := HaveSeqs(list);
    var lost := LostSeqs(have, max, min);
    var few := HighestFew(lost);
    hide HaveSeqs, LostSeqs, HighestFew;
    LostIs(have, max, min);
    HighestFewSplits(lost);
    if Difference(few, rows) != [] {
      RequestForWithin(few, rows, min + 1, max - 1);
    }
  }

  lemma {:induction false} KeptIsPrefix(list: seq<ChatLog>, pullMax: int)
    ensures Kept(list, pullMax) <= list
  {
    if list != [] {
      KeptIsPrefix(list[1..], pullMax);
    }
  }

  lemma NewestRequest(rows: seq<int>)
    ensures Needed(rows, [0, 0]) ==> Difference([0, 0], rows) == [0, 0]
  {
    NewestNeededIff(rows);
    assert [0, 0][..1] == [0] && [0][..0] == [];
    assert Difference([0], rows) == if 0 in rows then [] else [0];
  }

  /** The page is exactly the numbers 1 to max. */
  ghost predicate ReachesStart(have: seq<int>, max: int) {
    max >= 1 && forall s :: s in have <==> 1 <= s <= max
  }

  /** The local test for the end of the history, a lowest number 1 and nothing lost, is exact. */
  lemma LocalEndIff(have: seq<int>, max: int, min: int)
    requires Extremes(have, max, min) && forall s <- have :: s > 0
    ensures min == 1 && LostSeqs(have, max, min) == [] <==> exists m :: ReachesStart(have, m)
    ensures forall m :: ReachesStart(have, m) ==> m == max
  {
    if have != [] {
      LostIs(have, max, min);
      var lost := LostSeqs(have, max, min);
      hide LostSeqs;
      if min == 1 && lost == [] {
        assert ReachesStart(have, max);
      }
      assert lost != [] ==> lost[0] in lost;
      forall m | ReachesStart(have, m)
        ensures m == max && min == 1 && lost == []
      {
        assert 1 in have && m in have;
      }
    } else {
      forall m
        ensures !ReachesStart(have, m)
      {
        assert 1 !in have;
      }
    }
  }

  /** A request of one history query on a page with these extremes: for numbers inside the page, between
      the page and the one above, or below the page; or, without any number on the page, for the newest. */
  predicate Allowed(r: Request, max: int, min: int, lastMinSeq: int) {
    || (min != 0 && RequestWithin(r, min + 1, max - 1))
    || (min != 0 && RequestWithin(r, max + 1, lastMinSeq - 1))
    || (min != 0 && RequestWithin(r, 1, min - 1))
    || (min == 0 && r == Request(0, 0, 2))
  }

  // ---------- One pull ----------

  /** A request that was sent, with the answer to it. */
  datatype Exchange = Exchange(request: Request, reply: Reply)

  /** The connection during a query: up or down throughout, or changing at any time. */
  datatype Connection = Up | Down | Unsteady

  /** What a query works on. */
  datatype View = View(rows: seq<int>, list: seq<ChatLog>, isEnd: bool, errCode: int)

  /** One call for the numbers of seqList, with what was sent in it. */
  datatype Pull = Pull(before: View, seqList: seq<int>, exchanges: seq<Exchange>, after: View)

  /** What the answer changes: a failure cuts the page and sets the error code, messages change the table,
      the page and the end mark, and anything else changes nothing. */
  function After(before: View, e: Exchange): View {
    match e.reply
    case Failure => before.(list := Kept(before.list, e.request.end), errCode := ERR_CODE)
    case NoMessages => before
    case OtherMessages => before
    case Messages(isEnd, rows, page) => before.(rows := rows, list := page, isEnd := isEnd)
  }

  /** Nothing was sent and nothing changed, or exactly the missing numbers were asked for once. */
  predicate IsPull(p: Pull) {
    if p.exchanges == [] then p.after == p.before
    else
      && |p.exchanges| == 1
      && Needed(p.before.rows, p.seqList)
      && p.exchanges[0].request == RequestFor(Difference(p.seqList, p.before.rows))
      && p.after == After(p.before, p.exchanges[0])
  }

  predicate Refreshed(sent: seq<Exchange>) {
    exists e <- sent :: e.reply.Messages?
  }

  predicate Failed(sent: seq<Exchange>) {
    exists e <- sent :: e.reply.Failure?
  }

  predicate AllAllowed(sent: seq<Exchange>, max: int, min: int, lastMinSeq: int) {
    forall e <- sent :: Allowed(e.request, max, min, lastMinSeq)
  }

  predicate AllWithin(exchanges: seq<Exchange>, lo: int, hi: int) {
    forall e <- exchanges :: RequestWithin(e.request, lo, hi)
  }

  /** A pull that is not answered with messages leaves the table and a beginning of the page. */
  lemma Unrefreshed(p: Pull)
    requires IsPull(p) && !Refreshed(p.exchanges)
    ensures p.after.rows == p.before.rows && p.after.isEnd == p.before.isEnd && p.after.list <= p.before.list
    ensures !Failed(p.exchanges) ==> p.after == p.before
  {
    hide Needed, Difference;
    if p.exchanges != [] {
      assert p.exchanges[0] in p.exchanges;
      KeptIsPrefix(p.before.list, p.exchanges[0].request.end);
    }
  }

  /** The error code is set exactly by a failed request. */
  lemma ErrorCode(p: Pull)
    requires IsPull(p)
    ensures p.after.errCode == if Failed(p.exchanges) then ERR_CODE else p.before.errCode
  {
    hide Needed, Difference, Kept;
    if p.exchanges != [] {
      assert p.exchanges[0] in p.exchanges;
    }
  }

  /** Exactly what is missing is asked for. */
  lemma PullAsksForMissing(p: Pull)
    requires IsPull(p) && Ascending(p.seqList)
    ensures forall e <- p.exchanges :: AsksForMissing(e.request, p.seqList, p.before.rows)
  {
    hide Difference, Existing, RequestFor, Missing, Ascending;
    if p.exchanges != [] {
      RequestForMissing(p.seqList, p.before.rows);
    }
  }

  /** What the answer leaves. */
  lemma AnswerLeaves(p: Pull)
    requires IsPull(p)
    ensures forall e <- p.exchanges ::
              && (e.reply.Messages? ==>
                    p.after.rows == e.reply.rows && p.after.list == e.reply.page && p.after.isEnd == e.reply.isEnd
                    && p.after.errCode == p.before.errCode)
              && (e.reply.Failure? ==>
                    p.after.errCode == 100 && p.after.rows == p.before.rows && p.after.isEnd == p.before.isEnd)
              && (e.reply.NoMessages? || e.reply.OtherMessages? ==> p.after == p.before)
  {
    hide Difference, Existing, Kept, RequestFor;
  }

  lemma AskedNothing(p: Pull)
    requires IsPull(p) && p.seqList == []
    ensures p.exchanges == []
  {
    NothingNeeded(p.before.rows);
    hide Existing, Difference;
  }

  /** A pull inside the page asks strictly between its extremes. */
  lemma InnerWithin(p: Pull, max: int, min: int)
    requires IsPull(p) && Extremes(HaveSeqs(p.before.list), max, min) && HaveSeqs(p.before.list) != []
    requires p.seqList == HighestFew(LostSeqs(HaveSeqs(p.before.list), max, min))
    ensures AllWithin(p.exchanges, min + 1, max - 1)
  {
    hide HaveSeqs, LostSeqs, HighestFew, Difference, RequestWithin, Existing, After;
    LostPullWithin(p.before.list, p.before.rows, max, min);
  }

  /** A pull of a window that ends at hi asks inside it, and up to hi unless the table has hi. */
  lemma WindowWithin(p: Pull, lo: int, hi: int)
    requires IsPull(p)
    requires p.seqList != [] ==> Ascending(p.seqList) && |p.seqList| <= PULL_NUM && p.seqList[|p.seqList| - 1] == hi
    requires forall s <- p.seqList :: lo <= s <= hi
    ensures AllWithin(p.exchanges, lo, hi)
    ensures hi !in p.before.rows ==> forall e <- p.exchanges :: e.request.end == hi
  {
    hide Difference, RequestWithin, Existing, After, Ascending;
    if p.seqList == [] {
      AskedNothing(p);
    } else {
      WindowRequest(p.seqList, p.before.rows, lo, hi);
    }
  }

  lemma NewestWithin(p: Pull)
    requires IsPull(p) && p.seqList == [0, 0]
    ensures forall e <- p.exchanges :: e.request == Request(0, 0, 2)
    ensures p.exchanges != [] ==> 0 !in p.before.rows
  {
    hide Difference, Existing, After;
    NewestNeededIff(p.before.rows);
    NewestRequest(p.before.rows);
  }

  // ---------- The pulls of one query ----------

  /** The pulls inside the page, towards the page above, and below the page. */
  datatype Pulls = Pulls(inner: Pull, between: Pull, end: Pull)

  /** The pulls follow each other, and together sent these requests. */
  predicate Consecutive(first: View, q: Pulls, last: View, sent: seq<Exchange>) {
    && q.inner.before == first && q.between.before == q.inner.after && q.end.before == q.between.after
    && q.end.after == last
    && sent == q.inner.exchanges + q.between.exchanges + q.end.exchanges
  }

  predicate ArePulls(q: Pulls) {
    IsPull(q.inner) && IsPull(q.between) && IsPull(q.end)
  }

  /** At most three requests, each where it is allowed. */
  lemma PullsAreAllowed(first: View, q: Pulls, last: View, sent: seq<Exchange>, max: int, min: int, lastMinSeq: int)
    requires Consecutive(first, q, last, sent) && ArePulls(q)
    requires min != 0 ==> AllWithin(q.inner.exchanges, min + 1, max - 1)
                          && AllWithin(q.between.exchanges, max + 1, lastMinSeq - 1)
                          && AllWithin(q.end.exchanges, 1, min - 1)
    requires min == 0 ==> q.inner.seqList == [] && q.between.seqList == []
                          && forall e <- q.end.exchanges :: e.request == Request(0, 0, 2)
    ensures |sent| <= 3 && AllAllowed(sent, max, min, lastMinSeq)
  {
    hide RequestWithin, Needed, Difference, After;
    if min == 0 {
      AskedNothing(q.inner);
      AskedNothing(q.between);
    }
    forall e <- sent
      ensures Allowed(e.request, max, min, lastMinSeq)
    {
      assert e in q.inner.exchanges || e in q.between.exchanges || e in q.end.exchanges;
    }
  }

  /** When no answer carries messages, a beginning of the page is left, and the table and the end mark are as
      before. The error code is set exactly when some request failed. */
  lemma WhatPullsLeave(first: View, q: Pulls, last: View, sent: seq<Exchange>)
    requires Consecutive(first, q, last, sent) && ArePulls(q)
    ensures last.errCode == if Failed(sent) then ERR_CODE else first.errCode
    ensures !Refreshed(sent) ==>
              && !Refreshed(q.inner.exchanges) && last.list <= q.inner.after.list <= first.list
              && last.rows == first.rows && last.isEnd == first.isEnd
    ensures forall k | 0 <= k < |sent| && sent[k].reply.Messages? && !Refreshed(sent[k + 1..]) ::
              last.rows == sent[k].reply.rows && last.isEnd == sent[k].reply.isEnd && last.list <= sent[k].reply.page
  {
    hide IsPull;
    forall k | 0 <= k < |sent| && sent[k].reply.Messages? && !Refreshed(sent[k + 1..])
      ensures last.rows == sent[k].reply.rows && last.isEnd == sent[k].reply.isEnd && last.list <= sent[k].reply.page
    {
      LastAnswer(first, q, last, sent, k);
    }
    ErrorCode(q.inner);
    ErrorCode(q.between);
    ErrorCode(q.end);
    assert forall e :: e in sent <==> e in q.inner.exchanges || e in q.between.exchanges || e in q.end.exchanges;
    if !Refreshed(sent) {
      Unrefreshed(q.inner);
      Unrefreshed(q.between);
      Unrefreshed(q.end);
    }
  }

  /** The last answer with messages determines the table and the end mark, and the page is a beginning of the
      one read then. */
  lemma LastAnswer(first: View, q: Pulls, last: View, sent: seq<Exchange>, k: nat)
    requires Consecutive(first, q, last, sent) && ArePulls(q)
    requires k < |sent| && sent[k].reply.Messages? && !Refreshed(sent[k + 1..])
    ensures last.rows == sent[k].reply.rows && last.isEnd == sent[k].reply.isEnd && last.list <= sent[k].reply.page
  {
    AnswerLeaves(q.inner);
    AnswerLeaves(q.between);
    AnswerLeaves(q.end);
    AtMostOne(q);
    hide IsPull;
    var e := sent[k];
    if k >= |q.inner.exchanges| + |q.between.exchanges| {
      assert e in q.end.exchanges;
    } else {
      NotRefreshed(q.end.exchanges, sent, k, |q.inner.exchanges| + |q.between.exchanges|);
      Unrefreshed(q.end);
      if k >= |q.inner.exchanges| {
        assert e in q.between.exchanges;
      } else {
        NotRefreshed(q.between.exchanges, sent, k, |q.inner.exchanges|);
        Unrefreshed(q.between);
        assert e in q.inner.exchanges;
      }
    }
  }

  lemma AtMostOne(q: Pulls)
    requires ArePulls(q)
    ensures |q.inner.exchanges| <= 1 && |q.between.exchanges| <= 1 && |q.end.exchanges| <= 1
  {
    hide Needed, Difference, After;
  }

  lemma NotRefreshed(part: seq<Exchange>, sent: seq<Exchange>, k: nat, from: nat)
    requires k < from && from + |part| <= |sent| && part == sent[from..from + |part|] && !Refreshed(sent[k + 1..])
    ensures !Refreshed(part)
  {
    forall e <- part
      ensures !e.reply.Messages?
    {
      var i :| 0 <= i < |part| && part[i] == e;
      assert e == sent[k + 1..][from + i - k - 1];
    }
  }

  /** The page had no gap, or the request for what is missing inside it failed and the table lacks the
      highest missing number. */
  predicate NoGapToLeave(inner: Pull, max: int, min: int) {
    var lost := LostSeqs(HaveSeqs(inner.before.list), max, min);
    || min == 0 || lost == []
    || (Descending(inner.before.list) && Failed(inner.exchanges) && lost[|lost| - 1] !in inner.before.rows)
  }

  /** What the pull inside the page leaves then has no gap. */
  lemma InnerLeavesNoGap(inner: Pull, max: int, min: int)
    requires IsPull(inner) && NonNegative(inner.before.list) && Extremes(HaveSeqs(inner.before.list), max, min)
    requires min == 0 <==> HaveSeqs(inner.before.list) == []
    requires inner.seqList == if min == 0 then [] else HighestFew(LostSeqs(HaveSeqs(inner.before.list), max, min))
    requires !Refreshed(inner.exchanges) && NoGapToLeave(inner, max, min)
    ensures NoGap(inner.after.list, HaveSeqs(inner.before.list), max)
  {
    var page, have := inner.before.list, HaveSeqs(inner.before.list);
    var lost := LostSeqs(have, max, min);
    hide HaveSeqs, LostSeqs, Descending, HighestFew, Difference, Existing, NoGap, Kept, Refreshed, Extremes, NonNegative;
    if min != 0 && lost != [] {
      KeptHasNoGapIff(page, inner.before.rows, max, min);
    } else {
      Unrefreshed(inner);
      WholeBlock(page, inner.after.list, max, min);
    }
  }

  lemma WholeBlock(page: seq<ChatLog>, kept: seq<ChatLog>, max: int, min: int)
    requires NonNegative(page) && Extremes(HaveSeqs(page), max, min) && kept <= page
    requires HaveSeqs(page) == [] || LostSeqs(HaveSeqs(page), max, min) == []
    ensures NoGap(kept, HaveSeqs(page), max)
  {
    hide HaveSeqs, LostSeqs, NonNegative, Extremes, Ascending, HighestFew;
    var have := HaveSeqs(page);
    HaveSeqsIs(page);
    if have != [] {
      HasNothingLost(have, max, min);
    }
    forall x <- kept, s | x.seq_ != 0 && x.seq_ <= s <= max
      ensures s in have
    {
      assert x in page && x.seq_ in have;
    }
  }

  lemma HasNothingLost(have: seq<int>, max: int, min: int)
    requires Extremes(have, max, min) && have != [] && LostSeqs(have, max, min) == []
    ensures forall s | min <= s <= max :: s in have
    ensures forall s <- have :: min <= s <= max
  {
    LostIs(have, max, min);
    hide LostSeqs, Ascending, Distinct, HighestFew;
    forall s | min <= s <= max
      ensures s in have
    {
      assert s !in LostSeqs(have, max, min);
    }
  }

  lemma FewerNoGap(list: seq<ChatLog>, fewer: seq<ChatLog>, have: seq<int>, max: int)
    requires fewer <= list
    ensures NoGap(list, have, max) ==> NoGap(fewer, have, max)
  {
  }

  lemma ExtremesNonNegative(list: seq<ChatLog>, max: int, min: int)
    requires NonNegative(list) && Extremes(HaveSeqs(list), max, min)
    ensures min >= 0
  {
    HaveSeqsIs(list);
    hide HaveSeqs;
  }

  class HistoryQuery {
    var rows: seq<int>
    var list: seq<ChatLog>
    var isEnd: bool
    var errCode: int
    const lastMinSeq: int
    const count: int
    const notStartTime: bool
    /** Whether every query of the table succeeds; otherwise each of them may fail. */
    const dbWorks: bool
    const connection: Connection
    ghost var exchanges: seq<Exchange>

    constructor (rows: seq<int>, list: seq<ChatLog>, lastMinSeq: int, count: int, notStartTime: bool,
                 dbWorks: bool, connection: Connection)
      ensures this.dbWorks == dbWorks && this.connection == connection
      ensures this.rows == rows && this.list == list && this.lastMinSeq == lastMinSeq
      ensures this.count == count && this.notStartTime == notStartTime
      ensures !isEnd && errCode == 0 && exchanges == []
    {
      this.rows, this.list, this.lastMinSeq := rows, list, lastMinSeq;
      this.count, this.notStartTime := count, notStartTime;
      this.dbWorks, this.connection := dbWorks, connection;
      isEnd, errCode := false, 0;
      exchanges := [];
    }

    function Now(): View
      reads this
    {
      View(rows, list, isEnd, errCode)
    }

    /** The rows with these numbers; the query may fail. */
    method GetAlreadyExistSeqList(seqList: seq<int>) returns (ok: bool, existedSeqList: seq<int>)
      ensures dbWorks ==> ok
      ensures ok ==> existedSeqList == Existing(rows, seqList)
    {
      ok := *;
      ok := ok || dbWorks;
      existedSeqList := Existing(rows, seqList);
    }

    method IsConnected() returns (connected: bool)
      ensures connection.Up? ==> connected
      ensures connection.Down? ==> !connected
    {
      connected := *;
      connected := (connected || connection.Up?) && !connection.Down?;
    }

    /** One request to the server, which may answer anything. */
    method SendReqWaitResp(request: Request) returns (reply: Reply)
      modifies `exchanges
      ensures exchanges == old(exchanges) + [Exchange(request, reply)]
    {
      reply := *;
      exchanges := exchanges + [Exchange(request, reply)];
    }

    /** errHandle: keep the page up to the first numbered row at or below the highest number asked for. */
    method ErrHandle(seqList: seq<int>)
      requires seqList != []
      modifies `errCode, `list
      ensures errCode == ERR_CODE && list == Kept(old(list), seqList[|seqList| - 1])
    {
      errCode := ERR_CODE;
      var result: seq<ChatLog> := [];
      var needPullMaxSeq := seqList[|seqList| - 1];
      var i := 0;
      while i < |list|
        invariant 0 <= i <= |list|
        invariant result + Kept(list[i..], needPullMaxSeq) == Kept(list, needPullMaxSeq)
      {
        assert list[i..] == [list[i]] + list[i + 1..];
        if list[i].seq_ == 0 || list[i].seq_ > needPullMaxSeq {
          result := result + [list[i]];
        } else {
          break;
        }
        i := i + 1;
      }
      assert list[|list|..] == [];
      list := result;
    }

    /** A request for the missing ones of these numbers is sure to be sent. */
    predicate Due(table: seq<int>, seqList: seq<int>) {
      dbWorks && Needed(table, seqList) && (!notStartTime || connection.Up?)
    }

    /** One pull of these numbers from the first view to the second: what is due was sent, for exactly the missing
        ones of an ascending list, and without a start time nothing while the connection is down. */
    ghost predicate Made(p: Pull, first: View, seqList: seq<int>, last: View) {
      && p.before == first && p.seqList == seqList && p.after == last && IsPull(p)
      && (Ascending(seqList) ==> forall e <- p.exchanges :: AsksForMissing(e.request, seqList, first.rows))
      && (Due(first.rows, seqList) ==> p.exchanges != [])
      && (notStartTime && connection.Down? ==> p.exchanges == [])
    }

    /** pullMessageAndReGetHistoryMessages: ask the server for those of the numbers that the table
        lacks, if any; when it answers with messages the table has changed and the page is read again. */
    method PullMessageAndReGet(seqList: seq<int>) returns (ghost p: Pull)
      modifies this
      ensures Made(p, old(Now()), seqList, Now())
      ensures exchanges == old(exchanges) + p.exchanges
      ensures forall e <- p.exchanges ::
                && (e.reply.Messages? ==>
                      rows == e.reply.rows && list == e.reply.page && isEnd == e.reply.isEnd && errCode == old(errCode))
                && (e.reply.Failure? ==> errCode == 100 && rows == old(rows) && isEnd == old(isEnd))
                && (e.reply.NoMessages? || e.reply.OtherMessages? ==> Now() == old(Now()))
      ensures p.exchanges == [] ==> Now() == old(Now())
    {
      hide Existing, Difference, Kept, Ascending, AsksForMissing;
      p := Pull(Now(), seqList, [], Now());
      var ok, existedSeqList := GetAlreadyExistSeqList(seqList);
      if !ok {
        return;
      }
      if |existedSeqList| == |seqList| {
        return;
      }
      var newSeqList := DifferenceSubset(seqList, existedSeqList);
      DifferenceExisting(rows, seqList, seqList);
      if |newSeqList| == 0 {
        return;
      }
      if notStartTime {
        var connected := IsConnected();
        if !connected {
          return;
        }
      }
      var reply := SendReqWaitResp(RequestFor(newSeqList));
      match reply {
        case Failure => ErrHandle(newSeqList);
        case NoMessages =>
        case OtherMessages =>
        case Messages(end, table, page) =>
          rows, isEnd, list := table, end, page;
      }
      p := Pull(p.before, seqList, [Exchange(RequestFor(newSeqList), reply)], Now());
      if Ascending(seqList) {
        PullAsksForMissing(p);
      }
    }

    /** messageBlocksInternalContinuityCheck: the extremes are exact, the length is the number of
        numbers missing between them, and the highest of these are pulled, strictly between the extremes. After
        a failed request what is left of a page in descending order has no gap, if the highest missing
        number is not in the table. */
    method InternalContinuityCheck() returns (max: int, min: int, length: int, ghost p: Pull)
      requires NonNegative(list)
      modifies this
      ensures Extremes(HaveSeqs(old(list)), max, min)
      ensures min == 0 <==> HaveSeqs(old(list)) == []
      ensures max == 0 <==> HaveSeqs(old(list)) == []
      ensures length == if min == 0 then 0 else |LostSeqs(HaveSeqs(old(list)), max, min)|
      ensures Made(p, old(Now()), if min == 0 then [] else HighestFew(LostSeqs(HaveSeqs(old(list)), max, min)), Now())
      ensures exchanges == old(exchanges) + p.exchanges
      ensures AllWithin(p.exchanges, min + 1, max - 1)
      ensures !Refreshed(p.exchanges) && NoGapToLeave(p, max, min) ==> NoGap(list, HaveSeqs(old(list)), max)
    {
      hide HaveSeqs, Needed, IsPull, Descending, NoGap, Extremes, NoGapToLeave, AllWithin;
      ghost var page := list;
      var haveSeqList: seq<int>;
      max, min, haveSeqList := GetMaxAndMinHaveSeqList(list);
      length := 0;
      NoPull(Now());
      p := Pull(Now(), [], [], Now());
      if max != 0 && min != 0 {
        var successiveSeqList := SuccessiveSeqList(max, min);
        var lostSeqList := DifferenceSubset(successiveSeqList, haveSeqList);
        length := |lostSeqList|;
        if length > 0 {
          var pullSeqList := HighestFew(lostSeqList);
          p := PullMessageAndReGet(pullSeqList);
        }
        InnerWithin(p, max, min);
      }
      if !Refreshed(p.exchanges) && NoGapToLeave(p, max, min) {
        InnerLeavesNoGap(p, max, min);
      }
    }

    /** messageBlocksBetweenContinuityCheck: true when there is nothing to compare or the blocks touch;
        otherwise the window below the upper block is pulled, strictly between the blocks. */
    method BetweenContinuityCheck(maxSeq: int) returns (touching: bool, ghost p: Pull)
      modifies this
      ensures touching <==> lastMinSeq == 0 || maxSeq == 0 || maxSeq + 1 == lastMinSeq
      ensures Made(p, old(Now()), if touching then [] else BetweenWindow(lastMinSeq, maxSeq), Now())
      ensures exchanges == old(exchanges) + p.exchanges
      ensures AllWithin(p.exchanges, maxSeq + 1, lastMinSeq - 1)
      ensures lastMinSeq - 1 !in old(rows) ==> forall e <- p.exchanges :: e.request.end == lastMinSeq - 1
    {
      hide Needed, IsPull, Ascending;
      NoPull(Now());
      p := Pull(Now(), [], [], Now());
      if lastMinSeq != 0 {
        if maxSeq != 0 {
          if maxSeq + 1 != lastMinSeq {
            var startSeq := lastMinSeq - PULL_NUM;
            if startSeq <= maxSeq {
              startSeq := maxSeq + 1;
            }
            var successiveSeqList := SuccessiveSeqList(lastMinSeq - 1, startSeq);
            BetweenWindowIs(lastMinSeq, maxSeq);
            if |successiveSeqList| > 0 {
              p := PullMessageAndReGet(successiveSeqList);
            }
            WindowWithin(p, maxSeq + 1, lastMinSeq - 1);
          } else {
            return true, p;
          }
        } else {
          return true, p;
        }
      } else {
        return true, p;
      }
      return false, p;
    }

    /** messageBlocksEndContinuityCheck: with numbered rows the window below the lowest is pulled; without
        any, the newest are asked for unless the table has an unnumbered row. */
    method EndContinuityCheck(minSeq: int) returns (ghost p: Pull)
      requires minSeq >= 0
      modifies this
      ensures Made(p, old(Now()), if minSeq == 0 then [0, 0] else EndWindow(minSeq), Now())
      ensures exchanges == old(exchanges) + p.exchanges
      ensures minSeq != 0 ==> AllWithin(p.exchanges, 1, minSeq - 1)
      ensures minSeq != 0 && minSeq - 1 !in old(rows) ==> forall e <- p.exchanges :: e.request.end == minSeq - 1
      ensures minSeq == 0 ==> forall e <- p.exchanges :: e.request == Request(0, 0, 2) && 0 !in old(rows)
    {
      hide Needed, IsPull, Span;
      NoPull(Now());
      p := Pull(Now(), [], [], Now());
      if minSeq != 0 {
        var startSeq := minSeq - PULL_NUM;
        if startSeq <= 0 {
          startSeq := 1;
        }
        var seqList := SuccessiveSeqList(minSeq - 1, startSeq);
        SpanIs(startSeq, minSeq - 1);
        if |seqList| > 0 {
          p := PullMessageAndReGet(seqList);
        }
        WindowWithin(p, 1, minSeq - 1);
      } else {
        p := PullMessageAndReGet([0, 0]);
        NewestWithin(p);
      }
    }

    /** The lowest number on the page that is returned, or the number the caller came with. */
    method ThisMinSeq() returns (thisMinSeq: int)
      ensures HaveSeqs(list) == [] ==> thisMinSeq == lastMinSeq
      ensures HaveSeqs(list) != [] ==> thisMinSeq in HaveSeqs(list) && forall s <- HaveSeqs(list) :: thisMinSeq <= s
    {
      thisMinSeq := 0;
      for i := 0 to |list|
        invariant HaveSeqs(list[..i]) == [] <==> thisMinSeq == 0
        invariant thisMinSeq != 0 ==>
                    thisMinSeq in HaveSeqs(list[..i]) && forall s <- HaveSeqs(list[..i]) :: thisMinSeq <= s
      {
        assert list[..i + 1][..i] == list[..i];
        var seq_ := list[i].seq_;
        if seq_ != 0 && thisMinSeq == 0 {
          thisMinSeq := seq_;
        }
        if seq_ < thisMinSeq && seq_ != 0 {
          thisMinSeq := seq_;
        }
      }
      assert list[..|list|] == list;
      if thisMinSeq == 0 {
        thisMinSeq := lastMinSeq;
      }
    }

    /** The pulls of the checks for a page with these extremes, the last only when it is looked below the page. */
    ghost predicate PullsFor(q: Pulls, max: int, min: int, below: bool) {
      && Made(q.inner, q.inner.before,
              if min == 0 then [] else HighestFew(LostSeqs(HaveSeqs(q.inner.before.list), max, min)), q.inner.after)
      && Made(q.between, q.between.before,
              if lastMinSeq == 0 || max == 0 || max + 1 == lastMinSeq then [] else BetweenWindow(lastMinSeq, max), q.between.after)
      && Made(q.end, q.end.before, if !below then [] else if min == 0 then [0, 0] else EndWindow(min), q.end.after)
    }

    /** The three checks of getAdvancedHistoryMessageList on a page that was read from the table. The
        end of the history is concluded locally exactly when the page is short and its numbers are 1 to
        some maximum. The pulls are exactly those of the checks, one after another; at most three requests
        are sent: between the extremes of the page, between the page and the one above, below the page.
        However many of them fail, when none was answered with messages a beginning of the page is returned,
        and it has no gap if the page had none or the request inside it failed with the highest missing
        number not in the table. */
    method GetAdvancedHistoryMessageList()
      returns (nextMinSeq: int, ghost localEnd: bool, ghost max: int, ghost min: int, ghost q: Pulls,
               ghost sent: seq<Exchange>)
      requires NonNegative(list) && !isEnd
      modifies this
      ensures localEnd <==> |old(list)| < count && exists m :: ReachesStart(HaveSeqs(old(list)), m)
      ensures Extremes(HaveSeqs(old(list)), max, min)
      ensures exchanges == old(exchanges) + sent
      ensures PullsFor(q, max, min, |old(list)| < count && !localEnd)
      ensures Consecutive(old(Now()), q, if localEnd then Now().(isEnd := q.end.after.isEnd) else Now(), sent)
      ensures localEnd ==> isEnd
      ensures |sent| <= 3 && AllAllowed(sent, max, min, lastMinSeq)
      ensures errCode == if Failed(sent) then ERR_CODE else old(errCode)
      ensures !Refreshed(sent) ==>
                && isEnd == localEnd && rows == old(rows) && list <= old(list)
                && (NoGapToLeave(q.inner, max, min) ==> NoGap(list, HaveSeqs(old(list)), max))
      ensures forall k | 0 <= k < |sent| && sent[k].reply.Messages? && !Refreshed(sent[k + 1..]) ::
                && rows == sent[k].reply.rows && list <= sent[k].reply.page
                && (localEnd || isEnd == sent[k].reply.isEnd)
      ensures HaveSeqs(list) == [] ==> nextMinSeq == lastMinSeq
      ensures HaveSeqs(list) != [] ==> nextMinSeq in HaveSeqs(list) && forall s <- HaveSeqs(list) :: nextMinSeq <= s
    {
      hide Needed, IsPull, Extremes, HaveSeqs, LostSeqs, ReachesStart, NoGap, NoGapToLeave, AllWithin, AllAllowed, HighestFew, Span,
           Refreshed, Failed, BetweenWindow, EndWindow, Ascending, AsksForMissing;
      ghost var page, first := list, Now();
      localEnd := false;
      HaveSeqsIs(page);
      ghost var inner, between, end;
      var maxSeq, minSeq, lostSeqListLength, touching;
      if |list| < count {
        maxSeq, minSeq, lostSeqListLength, inner := InternalContinuityCheck();
        touching, between := BetweenContinuityCheck(maxSeq);
        NoPull(Now());
        end := Pull(Now(), [], [], Now());
        LocalEndIff(HaveSeqs(page), maxSeq, minSeq);
        ExtremesNonNegative(page, maxSeq, minSeq);
        if minSeq == 1 && lostSeqListLength == 0 {
          isEnd := true;
          localEnd := true;
        } else {
          end := EndContinuityCheck(minSeq);
        }
      } else {
        maxSeq, minSeq, lostSeqListLength, inner := InternalContinuityCheck();
        touching, between := BetweenContinuityCheck(maxSeq);
        NoPull(Now());
        end := Pull(Now(), [], [], Now());
      }
      max, min, q := maxSeq, minSeq, Pulls(inner, between, end);
      sent := inner.exchanges + between.exchanges + end.exchanges;
      PullsAreAllowed(first, q, end.after, sent, max, min, lastMinSeq);
      WhatPullsLeave(first, q, end.after, sent);
      if !Refreshed(sent) {
        FewerNoGap(inner.after.list, list, HaveSeqs(page), max);
      }
      nextMinSeq := ThisMinSeq();
    }
  }

  lemma NoPull(v: View)
    ensures IsPull(Pull(v, [], [], v)) && !Needed(v.rows, []) && forall lo, hi :: AllWithin([], lo, hi)
  {
    NothingNeeded(v.rows);
  }
}
