/** The requests of one synchronisation: how a large notification range is cut into pieces, how the
    other conversations are batched, and what is pulled when any request may fail. */
module MsgRequests {
  import opened MsgHistory

  const SPLIT_PULL_MSG_NUM := 100

  predicate IsNotification(conversationID: string) {
    "n_" <= conversationID
  }

  /** The ranges that are pulled in pieces. The quotient is Go's, which for a negative size differs
      from this one only below zero. */
  predicate Split(c: string, r: Range) {
    Size(r) / SPLIT_PULL_MSG_NUM > 1 && IsNotification(c)
  }

  /** Those of notifications with at least 200 numbers. */
  lemma SplitIff(c: string, r: Range)
    ensures Split(c, r) <==> "n_" <= c && r.hi - r.lo + 1 >= 200
  {
  }

  // ---------- The pieces of a large notification range ----------

  /** What the piecewise loop requests when left more full pieces are allowed. */
  function Chunks(start: int, left: nat, hi: int): seq<Range>
    decreases left
  {
    if left == 0 || start + SPLIT_PULL_MSG_NUM > hi then [Range(start, hi)]
    else [Range(start, start + SPLIT_PULL_MSG_NUM)] + Chunks(start + SPLIT_PULL_MSG_NUM + 1, left - 1, hi)
  }

  function AllChunks(r: Range): seq<Range>
    requires Size(r) >= 0
  {
    Chunks(r.lo, Size(r) / SPLIT_PULL_MSG_NUM, r.hi)
  }

  /** The pieces follow each other without gap or overlap from lo to hi. */
  predicate Tiles(chunks: seq<Range>, lo: int, hi: int) {
    && |chunks| > 0
    && chunks[0].lo == lo
    && chunks[|chunks| - 1].hi == hi
    && (forall i | 0 < i < |chunks| :: chunks[i].lo == chunks[i - 1].hi + 1)
  }

  /** Every piece but the last has 101 numbers, and the last has from 0 to 101. */
  predicate PieceSizes(chunks: seq<Range>) {
    && (forall i | 0 <= i < |chunks| - 1 :: Size(chunks[i]) == 101)
    && (forall i | 0 <= i < |chunks| :: 0 <= Size(chunks[i]) <= 101)
  }

  lemma {:induction false} ChunksTile(start: int, left: nat, hi: int)
    requires start <= hi + 1
    requires hi - start + 1 < SPLIT_PULL_MSG_NUM * (left + 1)
    ensures Tiles(Chunks(start, left, hi), start, hi)
    ensures PieceSizes(Chunks(start, left, hi))
    decreases left
  {
    if left > 0 && start + SPLIT_PULL_MSG_NUM <= hi {
      var next := start + SPLIT_PULL_MSG_NUM + 1;
      ChunksTile(next, left - 1, hi);
      var rest := Chunks(next, left - 1, hi);
      var chunks := Chunks(start, left, hi);
      assert forall i | 0 < i < |chunks| :: chunks[i] == rest[i - 1];
    }
  }

  lemma AllChunksTile(r: Range)
    requires Size(r) >= 0
    ensures Tiles(AllChunks(r), r.lo, r.hi) && PieceSizes(AllChunks(r))
  {
    ChunksTile(r.lo, Size(r) / SPLIT_PULL_MSG_NUM, r.hi);
  }

  lemma {:induction false} TilesOrder(chunks: seq<Range>, lo: int, hi: int, i: nat, j: nat)
    requires Tiles(chunks, lo, hi) && PieceSizes(chunks) && i < j < |chunks|
    ensures chunks[i].hi < chunks[j].lo
    decreases j
  {
    if i < j - 1 {
      TilesOrder(chunks, lo, hi, i, j - 1);
    }
  }

  lemma {:induction false} TilesBounds(chunks: seq<Range>, lo: int, hi: int, i: nat)
    requires Tiles(chunks, lo, hi) && PieceSizes(chunks) && i < |chunks|
    ensures lo <= chunks[i].lo && chunks[i].hi <= hi
  {
    if i > 0 {
      TilesOrder(chunks, lo, hi, 0, i);
    }
    if i < |chunks| - 1 {
      TilesOrder(chunks, lo, hi, i, |chunks| - 1);
    }
  }

  lemma {:induction false} SomePieceHas(chunks: seq<Range>, lo: int, hi: int, s: int, n: nat) returns (i: nat)
    requires Tiles(chunks, lo, hi) && n < |chunks| && lo <= s <= chunks[n].hi
    ensures i <= n && Within(chunks[i], s)
  {
    if n == 0 || chunks[n].lo <= s {
      i := n;
    } else {
      i := SomePieceHas(chunks, lo, hi, s, n - 1);
    }
  }

  /** Every number of the range lies in exactly one piece, and no other number in any. */
  lemma PiecesPartition(r: Range, s: int)
    requires Size(r) >= 0
    ensures Within(r, s) <==> exists i :: 0 <= i < |AllChunks(r)| && Within(AllChunks(r)[i], s)
    ensures forall i, j | 0 <= i < |AllChunks(r)| && 0 <= j < |AllChunks(r)| ::
              Within(AllChunks(r)[i], s) && Within(AllChunks(r)[j], s) ==> i == j
  {
    var chunks := AllChunks(r);
    AllChunksTile(r);
    if Within(r, s) {
      var i := SomePieceHas(chunks, r.lo, r.hi, s, |chunks| - 1);
    }
    forall i | 0 <= i < |chunks| && Within(chunks[i], s)
      ensures Within(r, s)
    {
      TilesBounds(chunks, r.lo, r.hi, i);
    }
    forall i, j | 0 <= i < |chunks| && 0 <= j < |chunks| && Within(chunks[i], s) && Within(chunks[j], s)
      ensures i == j
    {
      if i < j {
        TilesOrder(chunks, r.lo, r.hi, i, j);
      } else if j < i {
        TilesOrder(chunks, r.lo, r.hi, j, i);
      }
    }
  }

  // ---------- The requests of one synchronisation ----------

  function ChunkEvents(c: string, chunks: seq<Range>): seq<Event> {
    seq(|chunks|, i requires 0 <= i < |chunks| => Pulled(map[c := chunks[i]], [SeqRange(c, chunks[i])]))
  }

  lemma {:induction false} ChunkDeliveries(h: seq<Event>, k: string, r: Range, n: nat, c: string, s: int)
    requires Size(r) >= 0 && n <= |AllChunks(r)|
    ensures var h' := h + ChunkEvents(k, AllChunks(r)[..n]);
            && Deliveries(h', c, s) == Deliveries(h, c, s)
                 + (if c == k && n > 0 && r.lo <= s <= AllChunks(r)[n - 1].hi then 1 else 0)
            && (c != k ==> Requests(h', c) == Requests(h, c))
    decreases n
  {
    hide Deliveries, Requests, AllChunks, Tiles, PieceSizes, ChunkEvents;
    var chunks := AllChunks(r);
    if n == 0 {
      NoPieces(k, chunks);
      assert h + [] == h;
    } else {
      ChunkDeliveries(h, k, r, n - 1, c, s);
      PieceFollows(r, n);
      OneMorePiece(k, chunks, n - 1);
      var e := Pulled(map[k := chunks[n - 1]], [SeqRange(k, chunks[n - 1])]);
      var before := h + ChunkEvents(k, chunks[..n - 1]);
      OneMore(before, e, c, s);
      assert h + ChunkEvents(k, chunks[..n]) == before + [e];
    }
  }

  /** Piece n begins where the pieces before it end. */
  lemma PieceFollows(r: Range, n: nat)
    requires Size(r) >= 0 && 0 < n <= |AllChunks(r)|
    ensures var chunks := AllChunks(r);
            && r.lo <= chunks[n - 1].lo && chunks[n - 1].lo <= chunks[n - 1].hi + 1
            && chunks[n - 1].lo == (if n == 1 then r.lo else chunks[n - 2].hi + 1)
            && (n > 1 ==> r.lo <= chunks[n - 2].hi + 1)
  {
    AllChunksTile(r);
    TilesBounds(AllChunks(r), r.lo, r.hi, n - 1);
    hide AllChunks;
  }

  /** A request names each of its conversations once, and without the last one it asks for fewer
      than 100 numbers. */
  ghost predicate SmallRequest(e: Event) {
    && e.Pulled?
    && Listed(e.order, e.ranges)
    && SmallOrder(e.order)
  }

  ghost predicate SmallOrder(order: seq<SeqRange>) {
    order != [] ==> TotalSize(order[..|order| - 1]) < 100
  }

  ghost predicate Listed(order: seq<SeqRange>, ranges: map<string, Range>) {
    && (forall i | 0 <= i < |order| ::
          order[i].conversationID in ranges && ranges[order[i].conversationID] == order[i].range)
    && (forall i, j | 0 <= i < j < |order| :: order[i].conversationID != order[j].conversationID)
    && |order| == |ranges|
  }

  predicate Reached(seqMap: map<string, Range>, m: Cursors, c: string, s: int) {
    c in seqMap && c in m && seqMap[c].lo <= s <= m[c]
  }

  /** What a synchronisation of seqMap may leave behind, whichever pulls failed: exactly the numbers
      from the start of each range up to the new cursor were pulled, each once. */
  ghost predicate Synced(m: Cursors, h: seq<Event>, m': Cursors, h': seq<Event>, seqMap: map<string, Range>) {
    && m.Keys <= m'.Keys <= m.Keys + seqMap.Keys
    && (forall c <- m' | c !in seqMap :: m'[c] == m[c])
    && (forall c <- m' | c in seqMap ::
          (c in m && m'[c] == m[c]) || m'[c] == seqMap[c].hi || Within(seqMap[c], m'[c]))
    && (forall c, s ::
          Deliveries(h', c, s) == Deliveries(h, c, s) + if Reached(seqMap, m', c, s) then 1 else 0)
  }

  lemma SyncedIsExact(m: Cursors, h: seq<Event>, m': Cursors, h': seq<Event>, seqMap: map<string, Range>)
    requires Aligned(m, seqMap) && Synced(m, h, m', h', seqMap)
    ensures Exact(m, h, m', h', {}) && Covers(m, h, m', h', {})
  {
    hide Deliveries;
    forall c, s | c in m || s > 0
      ensures Reached(seqMap, m', c, s) <==> Between(m, m', c, s)
    {
    }
    forall c, s | Between(m, m', c, s)
      ensures Reached(seqMap, m', c, s)
    {
    }
  }

  /** The state between two requests: the settled conversations are pulled to the end of their
      ranges, the others untouched. */
  ghost predicate Settled(m: Cursors, h: seq<Event>, m': Cursors, h': seq<Event>,
                          seqMap: map<string, Range>, settled: set<string>)
    requires settled <= seqMap.Keys
  {
    && m'.Keys == m.Keys + settled
    && (forall c <- m' :: m'[c] == if c in settled then seqMap[c].hi else m[c])
    && (forall c, s :: Deliveries(h', c, s)
                    == Deliveries(h, c, s) + if c in settled && Within(seqMap[c], s) then 1 else 0)
    && (forall c | !(c in seqMap && Split(c, seqMap[c])) ::
          Requests(h', c) == Requests(h, c) + if c in settled then 1 else 0)
  }

  lemma SettledIsSynced(m: Cursors, h: seq<Event>, m': Cursors, h': seq<Event>,
                        seqMap: map<string, Range>, settled: set<string>)
    requires settled <= seqMap.Keys
    requires Aligned(m, seqMap) && Settled(m, h, m', h', seqMap, settled)
    ensures Synced(m, h, m', h', seqMap)
  {
    hide Deliveries, Requests;
  }

  function Ends(ranges: map<string, Range>): Cursors {
    map c | c in ranges :: ranges[c].hi
  }

  /** One batch pulled and its cursors moved. */
  lemma BatchSettles(m: Cursors, h: seq<Event>, m': Cursors, h': seq<Event>, seqMap: map<string, Range>,
                     settled: set<string>, batch: map<string, Range>, order: seq<SeqRange>)
    requires settled <= seqMap.Keys && Settled(m, h, m', h', seqMap, settled)
    requires batch.Keys <= seqMap.Keys && batch.Keys !! settled
    requires forall c <- batch :: batch[c] == seqMap[c]
    ensures Settled(m, h, m' + Ends(batch), h' + [Pulled(batch, order)], seqMap, settled + batch.Keys)
  {
    hide Deliveries, Requests;
    forall c, s
      ensures Deliveries(h' + [Pulled(batch, order)], c, s)
           == Deliveries(h, c, s) + if c in settled + batch.Keys && Within(seqMap[c], s) then 1 else 0
    {
      OneMore(h', Pulled(batch, order), c, s);
    }
    forall c | !(c in seqMap && Split(c, seqMap[c]))
      ensures Requests(h' + [Pulled(batch, order)], c)
           == Requests(h, c) + if c in settled + batch.Keys then 1 else 0
    {
      OneMore(h', Pulled(batch, order), c, 0);
    }
  }

  /** How far the first n pieces of a range reach. */
  function PiecesEnd(r: Range, n: nat): int
    requires Size(r) >= 0 && n <= |AllChunks(r)|
  {
    if n == 0 then r.lo - 1 else AllChunks(r)[n - 1].hi
  }

  lemma PiecesEndBounds(r: Range, n: nat)
    requires Size(r) >= 0 && n <= |AllChunks(r)|
    ensures r.lo - 1 <= PiecesEnd(r, n) <= r.hi
    ensures n == |AllChunks(r)| ==> n > 0 && PiecesEnd(r, n) == r.hi
    ensures n == 0 ==> PiecesEnd(r, n) == r.lo - 1
    ensures n > 0 && Size(r) > 0 ==> r.lo <= PiecesEnd(r, n)
  {
    AllChunksTile(r);
    if n > 0 {
      TilesBounds(AllChunks(r), r.lo, r.hi, n - 1);
    }
  }

  lemma PiecesDelivered(h: seq<Event>, h': seq<Event>, k: string, r: Range, n: nat)
    requires Size(r) >= 0 && n <= |AllChunks(r)|
    requires h' == h + ChunkEvents(k, AllChunks(r)[..n])
    ensures forall c, s :: Deliveries(h', c, s) == Deliveries(h, c, s)
                              + if c == k && r.lo <= s <= PiecesEnd(r, n) then 1 else 0
    ensures forall c | c != k :: Requests(h', c) == Requests(h, c)
  {
    hide Deliveries, Requests;
    forall c, s
      ensures Deliveries(h', c, s) == Deliveries(h, c, s)
                 + if c == k && r.lo <= s <= PiecesEnd(r, n) then 1 else 0
    {
      ChunkDeliveries(h, k, r, n, c, s);
    }
    forall c | c != k
      ensures Requests(h', c) == Requests(h, c)
    {
      ChunkDeliveries(h, k, r, n, c, 0);
    }
  }

  /** The first n pieces of conversation k pulled and its cursor moved behind them. */
  lemma SomePiecesSynced(m: Cursors, h: seq<Event>, m': Cursors, h': seq<Event>, seqMap: map<string, Range>,
                         settled: set<string>, k: string, n: nat, m'': Cursors, h'': seq<Event>)
    requires settled <= seqMap.Keys && Settled(m, h, m', h', seqMap, settled) && Aligned(m, seqMap)
    requires k in seqMap && k !in settled && Split(k, seqMap[k]) && n <= |AllChunks(seqMap[k])|
    requires m'' == if n == 0 then m' else m'[k := PiecesEnd(seqMap[k], n)]
    requires h'' == h' + ChunkEvents(k, AllChunks(seqMap[k])[..n])
    ensures Synced(m, h, m'', h'', seqMap)
  {
    hide Deliveries, Requests, AllChunks, ChunkEvents, PiecesEnd, Reached;
    PiecesDelivered(h', h'', k, seqMap[k], n);
    PiecesEndBounds(seqMap[k], n);
    SomePiecesCursors(m, m', seqMap, settled, k, n, m'');
    forall c, s
      ensures Deliveries(h'', c, s) == Deliveries(h, c, s) + if Reached(seqMap, m'', c, s) then 1 else 0
    {
      assert Deliveries(h', c, s)
          == Deliveries(h, c, s) + if c in settled && Within(seqMap[c], s) then 1 else 0;
      ReachedBySome(m, m', seqMap, settled, k, n, m'', c, s);
    }
  }

  lemma SomePiecesCursors(m: Cursors, m': Cursors, seqMap: map<string, Range>, settled: set<string>, k: string, n: nat,
                          m'': Cursors)
    requires settled <= seqMap.Keys && m'.Keys == m.Keys + settled
    requires forall c <- m' :: m'[c] == if c in settled then seqMap[c].hi else m[c]
    requires k in seqMap && Split(k, seqMap[k]) && n <= |AllChunks(seqMap[k])|
    requires m'' == if n == 0 then m' else m'[k := PiecesEnd(seqMap[k], n)]
    ensures m.Keys <= m''.Keys <= m.Keys + seqMap.Keys
    ensures forall c <- m'' | c !in seqMap :: m''[c] == m[c]
    ensures forall c <- m'' | c in seqMap ::
              (c in m && m''[c] == m[c]) || m''[c] == seqMap[c].hi || Within(seqMap[c], m''[c])
  {
    PiecesEndBounds(seqMap[k], n);
    hide AllChunks, PiecesEnd;
  }

  /** A number is reached when its conversation is settled, or it lies in the pieces done. */
  lemma ReachedBySome(m: Cursors, m': Cursors, seqMap: map<string, Range>, settled: set<string>, k: string, n: nat,
                      m'': Cursors, c: string, s: int)
    requires settled <= seqMap.Keys && m'.Keys == m.Keys + settled && Aligned(m, seqMap)
    requires forall c <- m' :: m'[c] == if c in settled then seqMap[c].hi else m[c]
    requires k in seqMap && k !in settled && Size(seqMap[k]) >= 0 && n <= |AllChunks(seqMap[k])|
    requires seqMap[k].lo - 1 <= PiecesEnd(seqMap[k], n) && (n == 0 ==> PiecesEnd(seqMap[k], n) == seqMap[k].lo - 1)
    requires m'' == if n == 0 then m' else m'[k := PiecesEnd(seqMap[k], n)]
    ensures (if Reached(seqMap, m'', c, s) then 1 else 0)
         == (if c in settled && Within(seqMap[c], s) then 1 else 0)
            + if c == k && seqMap[k].lo <= s <= PiecesEnd(seqMap[k], n) then 1 else 0
  {
    hide AllChunks, PiecesEnd;
  }

  lemma AllPiecesSettle(m: Cursors, h: seq<Event>, m': Cursors, h': seq<Event>, seqMap: map<string, Range>,
                        settled: set<string>, k: string, m'': Cursors, h'': seq<Event>)
    requires settled <= seqMap.Keys && Settled(m, h, m', h', seqMap, settled)
    requires k in seqMap && k !in settled && Split(k, seqMap[k])
    requires m'' == m'[k := seqMap[k].hi]
    requires h'' == h' + ChunkEvents(k, AllChunks(seqMap[k]))
    ensures Settled(m, h, m'', h'', seqMap, settled + {k})
  {
    var n := |AllChunks(seqMap[k])|;
    assert AllChunks(seqMap[k])[..n] == AllChunks(seqMap[k]);
    PiecesDelivered(h', h'', k, seqMap[k], n);
    PiecesEndBounds(seqMap[k], n);
    hide Deliveries, Requests, AllChunks, ChunkEvents, PiecesEnd;
    forall c, s
      ensures Deliveries(h'', c, s)
           == Deliveries(h, c, s) + if c in settled + {k} && Within(seqMap[c], s) then 1 else 0
    {
      assert Deliveries(h', c, s)
          == Deliveries(h, c, s) + if c in settled && Within(seqMap[c], s) then 1 else 0;
    }
  }

  lemma OneMorePiece(c: string, chunks: seq<Range>, n: nat)
    requires n < |chunks|
    ensures ChunkEvents(c, chunks[..n + 1])
         == ChunkEvents(c, chunks[..n]) + [Pulled(map[c := chunks[n]], [SeqRange(c, chunks[n])])]
  {
  }

  lemma IsSplit(c: string, r: Range)
    requires Split(c, r)
    ensures Size(r) >= 0 && Size(r) / SPLIT_PULL_MSG_NUM > 1
  {
  }

  lemma NoPieces(c: string, chunks: seq<Range>)
    ensures ChunkEvents(c, chunks[..0]) == []
    ensures chunks[0..] == chunks
  {
  }

  lemma AllPieces(c: string, r: Range)
    requires Size(r) >= 0
    ensures var chunks := AllChunks(r);
            && chunks == Chunks(r.lo, Size(r) / SPLIT_PULL_MSG_NUM, r.hi)
            && chunks[..|chunks|] == chunks && |chunks| > 0
            && chunks[|chunks| - 1].hi == r.hi
            && (forall n | 0 < n <= |chunks| :: PiecesEnd(r, n) == chunks[n - 1].hi)
  {
    AllChunksTile(r);
  }

  lemma NextPiece(chunks: seq<Range>, n: nat, start: int, left: nat, hi: int)
    requires n <= |chunks| && chunks[n..] == Chunks(start, left, hi)
    ensures n < |chunks|
    ensures chunks[n] == if left == 0 || start + SPLIT_PULL_MSG_NUM > hi then Range(start, hi)
                         else Range(start, start + SPLIT_PULL_MSG_NUM)
    ensures chunks[n + 1..] == if left == 0 || start + SPLIT_PULL_MSG_NUM > hi then []
                               else Chunks(start + SPLIT_PULL_MSG_NUM + 1, left - 1, hi)
  {
    assert chunks[n + 1..] == chunks[n..][1..];
    assert chunks[n] == chunks[n..][0];
  }

  /** The batch being filled, with the counter of the numbers it asks for. */
  ghost predicate Counted(order: seq<SeqRange>, batch: map<string, Range>, msgNum: int) {
    Listed(order, batch) && msgNum == TotalSize(order)
  }

  lemma JoinBatch(order: seq<SeqRange>, batch: map<string, Range>, msgNum: int, k: string, v: Range,
                  order': seq<SeqRange>, batch': map<string, Range>, msgNum': int)
    requires Counted(order, batch, msgNum) && msgNum < SPLIT_PULL_MSG_NUM && k !in batch
    requires order' == order + [SeqRange(k, v)] && batch' == batch[k := v]
    requires msgNum' == if Size(v) > 0 then msgNum + Size(v) else msgNum
    ensures Counted(order', batch', msgNum') && Listed(order', batch') && SmallOrder(order')
    ensures TotalSize(order') == msgNum'
  {
    assert order'[..|order'| - 1] == order;
    assert TotalSize(order') == msgNum';
    hide TotalSize;
    assert forall i | 0 <= i < |order'| ::
        order'[i].conversationID in batch' && batch'[order'[i].conversationID] == order'[i].range;
  }

  lemma NothingDone(m: Cursors, h: seq<Event>, seqMap: map<string, Range>)
    ensures Settled(m, h, m, h, seqMap, {}) && Parts(seqMap, {}, map[], seqMap.Keys) && OnlyAsks(h, h, seqMap) && AllFull(h, h, seqMap)
    ensures Aligned(m, seqMap) ==> Synced(m, h, m, h, seqMap)
    ensures |seqMap| == 0 ==> seqMap == map[] && m + Ends(seqMap) == m
  {
    if Aligned(m, seqMap) {
      SettledIsSynced(m, h, m, h, seqMap, {});
    }
    assert |seqMap| == 0 ==> seqMap.Keys == {};
  }

  lemma NoBatch()
    ensures Counted([], map[], 0)
  {
  }

  /** h' is h followed by small requests only. */
  ghost predicate OnlySmall(h: seq<Event>, h': seq<Event>) {
    h <= h' && forall i | |h| <= i < |h'| :: SmallRequest(h'[i])
  }

  /** The request asks only for numbers of these ranges, and for at most 101 at a time of one that is cut. */
  predicate AsksWithin(ranges: map<string, Range>, seqMap: map<string, Range>) {
    forall c <- ranges ::
      && c in seqMap && seqMap[c].lo <= ranges[c].lo && ranges[c].hi <= seqMap[c].hi
      && (Split(c, seqMap[c]) ==> Size(ranges[c]) <= 101)
  }

  /** A request for one piece, or for at least 100 numbers. */
  ghost predicate FullRequest(e: Event, seqMap: map<string, Range>) {
    e.Pulled? && (TotalSize(e.order) >= 100 || exists c <- e.ranges :: c in seqMap && Split(c, seqMap[c]))
  }

  /** No request but the last could have taken in another conversation. */
  ghost predicate AllFull(h: seq<Event>, h': seq<Event>, seqMap: map<string, Range>) {
    h <= h' && forall i | |h| <= i < |h'| :: FullRequest(h'[i], seqMap)
  }

  ghost predicate FullButLast(h: seq<Event>, h': seq<Event>, seqMap: map<string, Range>) {
    h <= h' && (h' != h ==> AllFull(h, h'[..|h'| - 1], seqMap))
  }

  lemma LastAfterFull(h: seq<Event>, h1: seq<Event>, h2: seq<Event>, seqMap: map<string, Range>)
    requires AllFull(h, h1, seqMap) && (h2 == h1 || (|h2| == |h1| + 1 && h1 <= h2))
    ensures FullButLast(h, h2, seqMap)
  {
    hide FullRequest;
    assert |h2| > |h1| ==> h2[..|h2| - 1] == h1;
  }

  lemma PiecesAreFull(h: seq<Event>, h': seq<Event>, seqMap: map<string, Range>, k: string, chunks: seq<Range>)
    requires AllFull(h, h', seqMap) && k in seqMap && Split(k, seqMap[k])
    ensures AllFull(h, h' + ChunkEvents(k, chunks), seqMap)
  {
    var h'' := h' + ChunkEvents(k, chunks);
    hide Split, TotalSize;
    forall i | |h'| <= i < |h''|
      ensures FullRequest(h''[i], seqMap)
    {
      assert k in h''[i].ranges;
    }
  }

  lemma BatchIsFull(h: seq<Event>, h': seq<Event>, seqMap: map<string, Range>, batch: map<string, Range>, order: seq<SeqRange>)
    requires AllFull(h, h', seqMap) && TotalSize(order) >= 100
    ensures AllFull(h, h' + [Pulled(batch, order)], seqMap)
  {
    hide TotalSize, Split;
  }

  /** h' is h followed by small requests for numbers of these ranges. */
  ghost predicate OnlyAsks(h: seq<Event>, h': seq<Event>, seqMap: map<string, Range>) {
    h <= h' && forall i | |h| <= i < |h'| :: SmallRequest(h'[i]) && AsksWithin(h'[i].ranges, seqMap)
  }

  lemma AsksAreSmall(h: seq<Event>, h': seq<Event>, seqMap: map<string, Range>)
    requires OnlyAsks(h, h', seqMap)
    ensures OnlySmall(h, h')
  {
    hide SmallRequest, AsksWithin;
  }

  lemma PiecesAsk(h: seq<Event>, h': seq<Event>, seqMap: map<string, Range>, k: string, n: nat)
    requires OnlyAsks(h, h', seqMap) && k in seqMap && Size(seqMap[k]) >= 0 && n <= |AllChunks(seqMap[k])|
    ensures OnlyAsks(h, h' + ChunkEvents(k, AllChunks(seqMap[k])[..n]), seqMap)
  {
    var r := seqMap[k];
    var chunks := AllChunks(r);
    AllChunksTile(r);
    forall i | 0 <= i < n
      ensures r.lo <= chunks[i].lo && chunks[i].hi <= r.hi && Size(chunks[i]) <= 101
    {
      TilesBounds(chunks, r.lo, r.hi, i);
    }
    hide AllChunks, Tiles, PieceSizes;
  }

  lemma BatchAsks(h: seq<Event>, h': seq<Event>, seqMap: map<string, Range>, batch: map<string, Range>, order: seq<SeqRange>)
    requires OnlyAsks(h, h', seqMap) && Listed(order, batch) && SmallOrder(order)
    requires batch.Keys <= seqMap.Keys && forall c <- batch :: batch[c] == seqMap[c] && !Split(c, seqMap[c])
    ensures OnlyAsks(h, h' + [Pulled(batch, order)], seqMap)
  {
    hide Listed, SmallOrder;
  }

  /** Every conversation is settled, in the batch being filled, or still to come. */
  ghost predicate Parts(seqMap: map<string, Range>, settled: set<string>, batch: map<string, Range>, remaining: set<string>) {
    && seqMap.Keys == settled + batch.Keys + remaining
    && settled !! batch.Keys && settled !! remaining && batch.Keys !! remaining
    && (forall c <- batch :: batch[c] == seqMap[c] && !Split(c, seqMap[c]))
  }

  lemma NextPart(seqMap: map<string, Range>, settled: set<string>, batch: map<string, Range>, remaining: set<string>, k: string)
    requires Parts(seqMap, settled, batch, remaining) && k in remaining
    ensures k in seqMap && k !in batch && k !in settled
    ensures Parts(seqMap, settled + {k}, batch, remaining - {k})
    ensures !Split(k, seqMap[k]) ==> Parts(seqMap, settled, batch[k := seqMap[k]], remaining - {k})
  {
  }

  lemma LastPart(seqMap: map<string, Range>, settled: set<string>, batch: map<string, Range>)
    requires Parts(seqMap, settled, batch, {})
    ensures settled + batch.Keys == seqMap.Keys
  {
  }

  lemma FlushPart(seqMap: map<string, Range>, settled: set<string>, batch: map<string, Range>, remaining: set<string>)
    requires Parts(seqMap, settled, batch, remaining)
    ensures settled <= seqMap.Keys && batch.Keys <= seqMap.Keys && batch.Keys !! settled
    ensures forall c <- batch :: batch[c] == seqMap[c] && !Split(c, seqMap[c])
    ensures Parts(seqMap, settled + batch.Keys, map[], remaining)
  {
  }

  lemma AllSettled(m: Cursors, h: seq<Event>, m': Cursors, h': seq<Event>, seqMap: map<string, Range>)
    requires Settled(m, h, m', h', seqMap, seqMap.Keys)
    ensures m' == m + Ends(seqMap)
    ensures forall c <- seqMap | !Split(c, seqMap[c]) :: Requests(h', c) == Requests(h, c) + 1
    ensures Aligned(m, seqMap) ==> Synced(m, h, m', h', seqMap)
  {
    if Aligned(m, seqMap) {
      SettledIsSynced(m, h, m', h', seqMap, seqMap.Keys);
    }
  }

  /** The last loop writes the end of every range, also of those settled before. */
  lemma LastCursors(m: Cursors, h: seq<Event>, m': Cursors, h': seq<Event>,
                    seqMap: map<string, Range>, settled: set<string>)
    requires settled <= seqMap.Keys && Settled(m, h, m', h', seqMap, settled)
    ensures m' + Ends(seqMap) == m + Ends(seqMap)
  {
    hide Deliveries, Requests;
  }

  lemma SmallerWithoutLast(order: seq<SeqRange>, batch: map<string, Range>, msgNum: int)
    requires Counted(order, batch, msgNum) && msgNum < SPLIT_PULL_MSG_NUM
    ensures Listed(order, batch) && SmallOrder(order)
  {
  }

  // ---------- Comparing with the server's maxima ----------

  /** The ranges above the cursors; a conversation without a cursor starts at 0. */
  function NeedSync(m: Cursors, maxSeqs: map<string, int>): map<string, Range> {
    map c | c in maxSeqs && (c in m ==> maxSeqs[c] > m[c]) ::
      if c in m then Range(m[c] + 1, maxSeqs[c]) else Range(0, maxSeqs[c])
  }

  /** The ranges in terms of the cursors and the maxima: up to the maximum, from the number after the cursor. */
  lemma NeedSyncIs(m: Cursors, maxSeqs: map<string, int>, c: string)
    ensures c in NeedSync(m, maxSeqs) <==> c in maxSeqs && (c in m ==> m[c] < maxSeqs[c])
    ensures c in NeedSync(m, maxSeqs) ==>
              var r := NeedSync(m, maxSeqs)[c]; r.hi == maxSeqs[c] && r.lo == if c in m then m[c] + 1 else 0
  {
  }

  /** Every request asks, of each conversation that it names, only for numbers above the cursor and up to the
      server's maximum, or from 0 without a cursor. */
  ghost predicate AsksUpTo(h: seq<Event>, h': seq<Event>, m: Cursors, maxSeqs: map<string, int>) {
    && h <= h'
    && forall i, c | |h| <= i < |h'| && h'[i].Pulled? && c in h'[i].ranges ::
         && c in maxSeqs && h'[i].ranges[c].hi <= maxSeqs[c]
         && (if c in m then m[c] < h'[i].ranges[c].lo else 0 <= h'[i].ranges[c].lo)
  }

  lemma NeedSyncAsksUpTo(h: seq<Event>, h': seq<Event>, m: Cursors, maxSeqs: map<string, int>)
    requires OnlyAsks(h, h', NeedSync(m, maxSeqs))
    ensures AsksUpTo(h, h', m, maxSeqs)
  {
    hide SmallRequest;
  }

  lemma NeedSyncAligned(m: Cursors, maxSeqs: map<string, int>)
    ensures Aligned(m, NeedSync(m, maxSeqs))
  {
  }

  /** One notification cursor set without pulling, after a reinstallation. */
  lemma SkipCovers(m: Cursors, h: seq<Event>, c: string, seq_: int)
    ensures Covers(m, h, m[c := seq_], h + [Skipped(c, Range(CursorOf(m, c) + 1, seq_))], {})
  {
    hide Deliveries;
    var e := Skipped(c, Range(CursorOf(m, c) + 1, seq_));
    forall k, s
      ensures Deliveries(h + [e], k, s) == Deliveries(h, k, s) + Times(e, k, s)
    {
      OneMore(h, e, k, s);
    }
  }

  // ---------- Stopping and starting again ----------

  /** Of the original ranges, exactly what lies up to the cursors has been pulled, each number once. */
  ghost predicate Resumable(m0: Cursors, h0: seq<Event>, m: Cursors, h: seq<Event>, maxSeqs: map<string, int>) {
    Synced(m0, h0, m, h, NeedSync(m0, maxSeqs))
  }

  /** Running again with the same maxima continues where the last run stopped. */
  lemma ResumeStep(m0: Cursors, h0: seq<Event>, m: Cursors, h: seq<Event>, m': Cursors, h': seq<Event>,
                   maxSeqs: map<string, int>)
    requires Resumable(m0, h0, m, h, maxSeqs) && Synced(m, h, m', h', NeedSync(m, maxSeqs))
    ensures Resumable(m0, h0, m', h', maxSeqs)
  {
    hide Deliveries;
    var r0, r1 := NeedSync(m0, maxSeqs), NeedSync(m, maxSeqs);
    forall c <- m'
      ensures c !in r0 ==> c in m0 && m'[c] == m0[c]
      ensures c in r0 ==> (c in m0 && m'[c] == m0[c]) || m'[c] == r0[c].hi || Within(r0[c], m'[c])
    {
    }
    forall c, s
      ensures Reached(r1, m', c, s) ==> !Reached(r0, m, c, s)
      ensures Reached(r0, m', c, s) <==> Reached(r0, m, c, s) || Reached(r1, m', c, s)
    {
    }
    forall c, s
      ensures Deliveries(h', c, s) == Deliveries(h0, c, s) + if Reached(r0, m', c, s) then 1 else 0
    {
      assert Deliveries(h', c, s) == Deliveries(h, c, s) + if Reached(r1, m', c, s) then 1 else 0;
    }
  }

  lemma NothingCovered(m: Cursors, h: seq<Event>)
    ensures Covers(m, h, m, h, {}) && Exact(m, h, m, h, {})
  {
  }

  lemma DoneIsComplete(m0: Cursors, h0: seq<Event>, m: Cursors, h: seq<Event>, m': Cursors, h': seq<Event>,
                       maxSeqs: map<string, int>)
    requires Resumable(m0, h0, m, h, maxSeqs) && Resumable(m0, h0, m', h', maxSeqs)
    requires m' == m + Ends(NeedSync(m, maxSeqs))
    ensures forall c, s :: Deliveries(h', c, s) == Deliveries(h0, c, s)
                             + var ranges := NeedSync(m0, maxSeqs); if c in ranges && Within(ranges[c], s) then 1 else 0
  {
    hide Deliveries;
    var ranges := NeedSync(m0, maxSeqs);
    forall c <- ranges
      ensures c in m' && m'[c] == ranges[c].hi
    {
    }
    forall c, s
      ensures Reached(ranges, m', c, s) <==> c in ranges && Within(ranges[c], s)
    {
    }
  }
}
