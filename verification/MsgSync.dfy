/** The message synchroniser: one cursor per conversation, advanced by pushes and by pulls that may
    fail. Sequence numbers are mathematical integers; Go's map iteration order is an arbitrary
    choice, and so is the outcome of every request to the server and of every table write. */
module MsgSync {
  import opened MsgHistory
  import opened MsgMistakes
  import opened MsgPush
  import opened MsgPushes
  import opened MsgRequests
  import opened MsgRuns
  import opened SeqLists

  class MsgSyncer {
    var syncedMaxSeqs: map<string, int>
    var reinstalled: bool
    /** Whether every request to the server succeeds, and every write to the table; otherwise each of
        them may fail. */
    const serverWorks: bool
    const tableWorks: bool
    ghost var history: seq<Event>

    /** The synchroniser as it is now. */
    ghost function Here(): Point
      reads this
    {
      Point(syncedMaxSeqs, history, reinstalled)
    }

    /** One request to the server; any request may fail. */
    method PullMsgBySeqRange(seqMap: map<string, Range>, ghost order: seq<SeqRange>) returns (ok: bool)
      modifies this`history
      ensures history == if ok then old(history) + [Pulled(seqMap, order)] else old(history)
      ensures serverWorks ==> ok
    {
      ok := *;
      ok := ok || serverWorks;
      if ok {
        history := history + [Pulled(seqMap, order)];
      }
    }

    method PullPiece(k: string, piece: Range, ghost before: seq<Event>, ghost chunks: seq<Range>, ghost n: nat)
      returns (ok: bool)
      requires n < |chunks| && piece == chunks[n]
      requires history == before + ChunkEvents(k, chunks[..n])
      modifies this`history, this`syncedMaxSeqs
      ensures history == before + ChunkEvents(k, chunks[..if ok then n + 1 else n])
      ensures syncedMaxSeqs == if ok then old(syncedMaxSeqs)[k := piece.hi] else old(syncedMaxSeqs)
      ensures serverWorks ==> ok
    {
      OneMorePiece(k, chunks, n);
      hide ChunkEvents;
      ok := PullMsgBySeqRange(map[k := piece], [SeqRange(k, piece)]);
      if ok {
        syncedMaxSeqs := syncedMaxSeqs[k := piece.hi];
      }
    }

    /** The loop over the pieces of one large notification range; it writes its own counter. On a
        failed pull it stops with the first n pieces done. */
    method SyncPieces(k: string, v: Range) returns (ok: bool, ghost n: nat)
      requires Split(k, v)
      modifies this`history, this`syncedMaxSeqs
      ensures n <= |AllChunks(v)| && (ok <==> n == |AllChunks(v)|)
      ensures history == old(history) + ChunkEvents(k, AllChunks(v)[..n])
      ensures syncedMaxSeqs == if n == 0 then old(syncedMaxSeqs)
                               else old(syncedMaxSeqs)[k := PiecesEnd(v, n)]
      ensures ok ==> history == old(history) + ChunkEvents(k, AllChunks(v))
      ensures ok ==> syncedMaxSeqs == old(syncedMaxSeqs)[k := v.hi]
      ensures serverWorks ==> ok
    {
      hide ChunkEvents, Chunks, AllChunks, PiecesEnd, Split;
      IsSplit(k, v);
      NoPieces(k, AllChunks(v));
      AllPieces(k, v);
      ghost var chunks := AllChunks(v);
      var count := Size(v) / SPLIT_PULL_MSG_NUM;
      var startSeq := v.lo;
      var end := 0;
      n := 0;
      var i := 0;
      ghost var before := history;
      while i <= count
        invariant 0 <= i <= count + 1
        invariant n <= |chunks|
        invariant i <= count ==> chunks[n..] == Chunks(startSeq, count - i, v.hi)
        invariant i == count + 1 ==> n == |chunks|
        invariant history == before + ChunkEvents(k, chunks[..n])
        invariant syncedMaxSeqs == if n == 0 then old(syncedMaxSeqs)
                                   else old(syncedMaxSeqs)[k := chunks[n - 1].hi]
        decreases count - i
      {
        NextPiece(chunks, n, startSeq, count - i, v.hi);
        var piece;
        if i == count {
          piece := Range(startSeq, v.hi);
        } else {
          end := startSeq + SPLIT_PULL_MSG_NUM;
          if end > v.hi {
            end := v.hi;
            i := count;
          }
          piece := Range(startSeq, end);
        }
        ok := PullPiece(k, piece, before, chunks, n);
        if !ok {
          return;
        }
        n := n + 1;
        startSeq := end + 1;
        i := i + 1;
      }
      ok := true;
    }
  
    /** One batch: the cursors move only when the pull succeeded. */
    method PullBatch(ghost seqMap: map<string, Range>, batch: map<string, Range>, ghost order: seq<SeqRange>,
                     ghost m: Cursors, ghost h: seq<Event>, ghost settled: set<string>, ghost remaining: set<string>)
      returns (ok: bool)
      requires Parts(seqMap, settled, batch, remaining) && settled <= seqMap.Keys
      requires Settled(m, h, syncedMaxSeqs, history, seqMap, settled) && Aligned(m, seqMap)
      requires OnlyAsks(h, history, seqMap) && Listed(order, batch) && SmallOrder(order)
      modifies this`history, this`syncedMaxSeqs
      ensures OnlyAsks(h, history, seqMap) && Parts(seqMap, settled + batch.Keys, map[], remaining)
      ensures settled + batch.Keys <= seqMap.Keys
      ensures history == old(history) || history == old(history) + [Pulled(batch, order)]
      ensures Synced(m, h, syncedMaxSeqs, history, seqMap)
      ensures ok ==> Settled(m, h, syncedMaxSeqs, history, seqMap, settled + batch.Keys)
      ensures serverWorks ==> ok
    {
      hide Settled, Synced, Listed, TotalSize, SmallOrder, Ends, Aligned, Parts, OnlyAsks;
      ghost var m', h' := syncedMaxSeqs, history;
      FlushPart(seqMap, settled, batch, remaining);
      SettledIsSynced(m, h, m', h', seqMap, settled);
      ok := PullMsgBySeqRange(batch, order);
      if ok {
        syncedMaxSeqs := syncedMaxSeqs + Ends(batch);
        BatchAsks(h, h', seqMap, batch, order);
        BatchSettles(m, h, m', h', seqMap, settled, batch, order);
        SettledIsSynced(m, h, syncedMaxSeqs, history, seqMap, settled + batch.Keys);
      }
    }

    /** Pull every range, in pieces or in batches, in any order of the conversations. Whether it
        succeeds or stops at a failed pull, exactly the numbers up to the new cursors were pulled,
        each once; when it succeeds every cursor is at the end of its range. */
    method SyncAndTriggerMsgs(seqMap: map<string, Range>) returns (ok: bool)
      requires Aligned(syncedMaxSeqs, seqMap)
      modifies this`history, this`syncedMaxSeqs
      ensures Synced(old(syncedMaxSeqs), old(history), syncedMaxSeqs, history, seqMap)
      ensures ok ==> syncedMaxSeqs == old(syncedMaxSeqs) + Ends(seqMap)
      ensures ok ==> forall c <- seqMap | !Split(c, seqMap[c]) ::
                       Requests(history, c) == Requests(old(history), c) + 1
      ensures OnlyAsks(old(history), history, seqMap)
      ensures FullButLast(old(history), history, seqMap)
      ensures seqMap == map[] ==> history == old(history) && syncedMaxSeqs == old(syncedMaxSeqs)
      ensures serverWorks ==> ok
    {
      ghost var m, h := syncedMaxSeqs, history;
      ghost var settled: set<string> := {};
      NothingDone(m, h, seqMap);
      hide Settled, Synced, Counted, Listed, SmallOrder, AllChunks, ChunkEvents, PiecesEnd, Ends, Aligned, Parts, OnlyAsks,
           AllFull, FullButLast, TotalSize;
      LastAfterFull(h, h, h, seqMap);
      if |seqMap| == 0 {
        return true;
      }
      var tempSeqMap: map<string, Range> := map[];
      ghost var order: seq<SeqRange> := [];
      NoBatch();
      var msgNum := 0;
      var remaining := seqMap.Keys;
      while remaining != {}
        invariant Parts(seqMap, settled, tempSeqMap, remaining)
        invariant settled <= seqMap.Keys
        invariant Settled(m, h, syncedMaxSeqs, history, seqMap, settled)
        invariant Counted(order, tempSeqMap, msgNum) && msgNum < SPLIT_PULL_MSG_NUM
        invariant OnlyAsks(h, history, seqMap) && AllFull(h, history, seqMap)
        decreases remaining
      {
        var k :| k in remaining;
        NextPart(seqMap, settled, tempSeqMap, remaining, k);
        remaining := remaining - {k};
        var v := seqMap[k];
        var oneConversationSyncNum := Size(v);
        ghost var m', h' := syncedMaxSeqs, history;
        if oneConversationSyncNum / SPLIT_PULL_MSG_NUM > 1 && IsNotification(k) {
          ghost var n;
          ok, n := SyncPieces(k, v);
          SomePiecesSynced(m, h, m', h', seqMap, settled, k, n, syncedMaxSeqs, history);
          PiecesAsk(h, h', seqMap, k, n);
          PiecesAreFull(h, h', seqMap, k, AllChunks(v)[..n]);
          LastAfterFull(h, history, history, seqMap);
          if !ok {
            return;
          }
          AllPiecesSettle(m, h, m', h', seqMap, settled, k, syncedMaxSeqs, history);
          settled := settled + {k};
          continue;
        }
        ghost var order0, temp0, msgNum0 := order, tempSeqMap, msgNum;
        tempSeqMap := tempSeqMap[k := v];
        order := order + [SeqRange(k, v)];
        if oneConversationSyncNum > 0 {
          msgNum := msgNum + oneConversationSyncNum;
        }
        JoinBatch(order0, temp0, msgNum0, k, v, order, tempSeqMap, msgNum);
        if msgNum >= SPLIT_PULL_MSG_NUM {
          BatchIsFull(h, h', seqMap, tempSeqMap, order);
          ok := PullBatch(seqMap, tempSeqMap, order, m, h, settled, remaining);
          LastAfterFull(h, history, history, seqMap);
          if !ok {
            return;
          }
          settled := settled + tempSeqMap.Keys;
          tempSeqMap, order := map[], [];
          msgNum := 0;
          NoBatch();
        }
      }
      SmallerWithoutLast(order, tempSeqMap, msgNum);
      ghost var h' := history;
      ok := PullBatch(seqMap, tempSeqMap, order, m, h, settled, {});
      LastAfterFull(h, h', history, seqMap);
      if !ok {
        return;
      }
      LastPart(seqMap, settled, tempSeqMap);
      AllSettled(m, h, syncedMaxSeqs, history, seqMap);
      LastCursors(m, h, syncedMaxSeqs, history, seqMap, seqMap.Keys);
      syncedMaxSeqs := syncedMaxSeqs + Ends(seqMap);
    }
  
    /** loadSeq: the cursors stored in the database. A conversation whose maximum cannot be read gets
        none; an empty conversation list means that the app was reinstalled. */
    constructor (conversationIDs: seq<string>, normalSeqs: map<string, int>, notificationSeqs: map<string, int>,
                 serverWorks: bool, tableWorks: bool)
      ensures this.serverWorks == serverWorks && this.tableWorks == tableWorks
      ensures reinstalled <==> conversationIDs == []
      ensures syncedMaxSeqs == (map c | c in conversationIDs && c in normalSeqs :: normalSeqs[c]) + notificationSeqs
      ensures history == []
    {
      reinstalled := |conversationIDs| == 0;
      this.serverWorks, this.tableWorks := serverWorks, tableWorks;
      history := [];
      syncedMaxSeqs := map[];
      new;
      for i := 0 to |conversationIDs|
        invariant reinstalled <==> conversationIDs == []
        invariant history == []
        invariant syncedMaxSeqs == map c | c in conversationIDs[..i] && c in normalSeqs :: normalSeqs[c]
      {
        var v := conversationIDs[i];
        if v in normalSeqs {
          syncedMaxSeqs := syncedMaxSeqs[v := normalSeqs[v]];
        }
      }
      assert conversationIDs[..|conversationIDs|] == conversationIDs;
      syncedMaxSeqs := syncedMaxSeqs + notificationSeqs;
    }

    /** NewMsgSyncer: there is no synchroniser when one of the two lists cannot be read. */
    static method NewMsgSyncer(listed: bool, notificationsListed: bool, conversationIDs: seq<string>,
        normalSeqs: map<string, int>, notificationSeqs: map<string, int>, serverWorks: bool, tableWorks: bool)
        returns (m: MsgSyncer?)
      ensures m == null <==> !listed || !notificationsListed
      ensures m != null ==>
                && fresh(m) && m.history == [] && (m.reinstalled <==> conversationIDs == [])
                && m.syncedMaxSeqs == (map c | c in conversationIDs && c in normalSeqs :: normalSeqs[c]) + notificationSeqs
    {
      m := null;
      if listed && notificationsListed {
        m := new MsgSyncer(conversationIDs, normalSeqs, notificationSeqs, serverWorks, tableWorks);
      }
    }

    method RangesAbove(maxSeqs: map<string, int>) returns (needSyncSeqMap: map<string, Range>)
      ensures needSyncSeqMap == NeedSync(syncedMaxSeqs, maxSeqs)
    {
      needSyncSeqMap := map[];
      var remaining := maxSeqs.Keys;
      while remaining != {}
        invariant remaining <= maxSeqs.Keys
        invariant needSyncSeqMap
               == map c | c in NeedSync(syncedMaxSeqs, maxSeqs) && c !in remaining :: NeedSync(syncedMaxSeqs, maxSeqs)[c]
        decreases remaining
      {
        var conversationID :| conversationID in remaining;
        remaining := remaining - {conversationID};
        var maxSeq := maxSeqs[conversationID];
        if conversationID in syncedMaxSeqs {
          var syncedMaxSeq := syncedMaxSeqs[conversationID];
          if maxSeq > syncedMaxSeq {
            needSyncSeqMap := needSyncSeqMap[conversationID := Range(syncedMaxSeq + 1, maxSeq)];
          }
        } else {
          needSyncSeqMap := needSyncSeqMap[conversationID := Range(0, maxSeq)];
        }
      }
    }

    /** The notification cursors are set to the server's maxima without pulling anything; a failed
        table write leaves the cursor alone. */
    method SkipNotifications(notificationsSeqMap: map<string, int>)
      modifies this`history, this`syncedMaxSeqs
      ensures Covers(old(syncedMaxSeqs), old(history), syncedMaxSeqs, history, {})
      ensures old(syncedMaxSeqs).Keys <= syncedMaxSeqs.Keys
      ensures forall c <- syncedMaxSeqs ::
                (c in old(syncedMaxSeqs) && syncedMaxSeqs[c] == old(syncedMaxSeqs)[c])
                || (c in notificationsSeqMap && syncedMaxSeqs[c] == notificationsSeqMap[c])
      ensures tableWorks ==> syncedMaxSeqs == old(syncedMaxSeqs) + notificationsSeqMap
      ensures OnlySkips(old(syncedMaxSeqs), old(history), history, notificationsSeqMap) && NoRequests(old(history), history)
      ensures SameOutside(old(syncedMaxSeqs), old(history), syncedMaxSeqs, history, notificationsSeqMap.Keys)
    {
      ghost var m, h := syncedMaxSeqs, history;
      NothingCovered(m, h);
      assert OnlySkips(m, h, h, notificationsSeqMap) && SameOutside(m, h, m, h, notificationsSeqMap.Keys);
      hide Covers, OnlySkips, SameOutside;
      var remaining := notificationsSeqMap.Keys;
      while remaining != {}
        invariant remaining <= notificationsSeqMap.Keys
        invariant Covers(m, h, syncedMaxSeqs, history, {})
        invariant OnlySkips(m, h, history, notificationsSeqMap) && NoRequests(h, history)
        invariant forall c <- remaining :: CursorOf(syncedMaxSeqs, c) == CursorOf(m, c)
        invariant SameOutside(m, h, syncedMaxSeqs, history, notificationsSeqMap.Keys)
        invariant m.Keys <= syncedMaxSeqs.Keys
        invariant forall c <- syncedMaxSeqs ::
                    (c in m && syncedMaxSeqs[c] == m[c])
                    || (c in notificationsSeqMap && syncedMaxSeqs[c] == notificationsSeqMap[c])
        invariant tableWorks ==> forall c <- notificationsSeqMap ::
                    c in remaining || (c in syncedMaxSeqs && syncedMaxSeqs[c] == notificationsSeqMap[c])
        decreases remaining
      {
        var conversationID :| conversationID in remaining;
        remaining := remaining - {conversationID};
        var seq_ := notificationsSeqMap[conversationID];
        var written: bool := *;
        if written || tableWorks {
          ghost var m1, h1 := syncedMaxSeqs, history;
          history := history + [Skipped(conversationID, Range(CursorOf(syncedMaxSeqs, conversationID) + 1, seq_))];
          syncedMaxSeqs := syncedMaxSeqs[conversationID := seq_];
          ghost var given := Range(CursorOf(m1, conversationID) + 1, seq_);
          SkipCovers(m1, h1, conversationID, seq_);
          OneMoreSkip(m, h, h1, notificationsSeqMap, conversationID);
          SkipSame(m, h, m1, h1, notificationsSeqMap.Keys, conversationID, given, seq_);
          CoversTransitive(m, h, m1, h1, syncedMaxSeqs, history, {}, {});
        }
      }
    }

    /** Outside the pass after a reinstallation nothing happens but requests, and the cursors only advance,
        over numbers pulled exactly once. In that pass numbers of notifications are given up, whose cursors
        may go back; for every other conversation it is exact. */
    method CompareSeqsAndBatchSync(maxSeqToSync: map<string, int>) returns (ok: bool)
      modifies this
      ensures !reinstalled
      ensures Covers(old(syncedMaxSeqs), old(history), syncedMaxSeqs, history, {})
      ensures !old(reinstalled) ==>
                var ranges := NeedSync(old(syncedMaxSeqs), maxSeqToSync);
                && Exact(old(syncedMaxSeqs), old(history), syncedMaxSeqs, history, {})
                && Synced(old(syncedMaxSeqs), old(history), syncedMaxSeqs, history, ranges)
                && (ok ==> syncedMaxSeqs == old(syncedMaxSeqs) + Ends(ranges))
                && OnlySmall(old(history), history) && FullButLast(old(history), history, ranges)
                && AsksUpTo(old(history), history, old(syncedMaxSeqs), maxSeqToSync)
      ensures old(reinstalled) ==>
                && OnlySkips(old(syncedMaxSeqs), old(history), history, Notifications(maxSeqToSync))
                && AsksUpTo(old(history), history, old(syncedMaxSeqs), maxSeqToSync - Notifications(maxSeqToSync).Keys)
                && ExactOutside(old(syncedMaxSeqs), old(history), syncedMaxSeqs, history, Notifications(maxSeqToSync).Keys)
      ensures ok ==> forall c | tableWorks || !old(reinstalled) || !IsNotification(c) ::
                       IsAt(old(syncedMaxSeqs), syncedMaxSeqs, maxSeqToSync, c, old(reinstalled))
      ensures serverWorks ==> ok
    {
      hide Covers, Exact, Synced, Ends, NeedSync, Aligned, OnlySmall, OnlyAsks, FullButLast, AsksUpTo, OnlySkips, NoRequests,
           ExactOutside, IsAt;
      ghost var m, h, pass := syncedMaxSeqs, history, reinstalled;
      var messagesSeqMap := maxSeqToSync;
      NothingCovered(m, h);
      if reinstalled {
        SkipNotifications(Notifications(maxSeqToSync));
        messagesSeqMap := map c | c in maxSeqToSync && !IsNotification(c) :: maxSeqToSync[c];
        assert messagesSeqMap == maxSeqToSync - Notifications(maxSeqToSync).Keys;
      }
      var needSyncSeqMap := RangesAbove(messagesSeqMap);
      reinstalled := false;
      ghost var m1, h1 := syncedMaxSeqs, history;
      NeedSyncAligned(m1, messagesSeqMap);
      ok := SyncAndTriggerMsgs(needSyncSeqMap);
      SyncedIsExact(m1, h1, syncedMaxSeqs, history, needSyncSeqMap);
      CoversTransitive(m, h, m1, h1, syncedMaxSeqs, history, {}, {});
      AsksAreSmall(h1, history, needSyncSeqMap);
      NeedSyncAsksUpTo(h1, history, m1, messagesSeqMap);
      PullsToMaxima(m, maxSeqToSync);
      if pass {
        PassToMaxima(m, m1, maxSeqToSync);
        SkipsThenRequests(m, h, h1, history, Notifications(maxSeqToSync));
        AsksAfterSkips(m, h, m1, h1, history, Notifications(maxSeqToSync), messagesSeqMap);
        PassIsExactOutside(m, h, m1, h1, syncedMaxSeqs, history, Notifications(maxSeqToSync).Keys);
      }
    }

    /** If a synchronisation stops at failed pulls and is run again with the same maxima, nothing happens
        but requests, and at every point exactly the numbers up to the cursors have been pulled, each once; once
        an attempt succeeds, every number of every original range has been pulled exactly once. */
    method FailAndResume(maxSeqToSync: map<string, int>, attempts: nat) returns (done: bool)
      requires !reinstalled
      modifies this
      ensures Synced(old(syncedMaxSeqs), old(history), syncedMaxSeqs, history,
                     NeedSync(old(syncedMaxSeqs), maxSeqToSync))
      ensures done ==> forall c, s ::
                Deliveries(history, c, s) == Deliveries(old(history), c, s)
                  + var ranges := NeedSync(old(syncedMaxSeqs), maxSeqToSync);
                    if c in ranges && Within(ranges[c], s) then 1 else 0
      ensures OnlySmall(old(history), history)
      ensures serverWorks && attempts > 0 ==> done
    {
      assert OnlySmall(history, history);
      hide Deliveries, OnlySmall;
      ghost var m, h := syncedMaxSeqs, history;
      done := false;
      for i := 0 to attempts
        invariant !reinstalled && Resumable(m, h, syncedMaxSeqs, history, maxSeqToSync)
        invariant OnlySmall(h, history)
        invariant !done && (serverWorks ==> i == 0)
      {
        ghost var m1, h1 := syncedMaxSeqs, history;
        done := CompareSeqsAndBatchSync(maxSeqToSync);
        OnlySmallTransitive(h, h1, history);
        ResumeStep(m, h, m1, h1, syncedMaxSeqs, history, maxSeqToSync);
        if done {
          DoneIsComplete(m, h, m1, h1, syncedMaxSeqs, history, maxSeqToSync);
          return;
        }
      }
    }

    /** The inner loop of a push: a message without a number is passed on at once, the others are
        stored behind those of the earlier conversations. */
    method StoreMessages(conversationID: string, msgs: seq<int>, lastSeq0: int, storage0: seq<Msg>)
      returns (lastSeq: int, storageMsgs: seq<Msg>)
      modifies this`history
      ensures history == old(history) + OnlineEvents(conversationID, Zeros(msgs))
      ensures storageMsgs == storage0 + Tag(conversationID, Nonzero(msgs))
      ensures lastSeq == if Nonzero(msgs) == [] then lastSeq0 else Nonzero(msgs)[|Nonzero(msgs)| - 1]
    {
      lastSeq, storageMsgs := lastSeq0, storage0;
      ghost var h := history;
      assert msgs[..0] == [];
      assert h + OnlineEvents(conversationID, 0) == h && storage0 + Tag(conversationID, []) == storage0;
      for j := 0 to |msgs|
        invariant history == h + OnlineEvents(conversationID, Zeros(msgs[..j]))
        invariant storageMsgs == storage0 + Tag(conversationID, Nonzero(msgs[..j]))
        invariant var own := Nonzero(msgs[..j]); lastSeq == if own == [] then lastSeq0 else own[|own| - 1]
      {
        OneMoreMessage(conversationID, msgs[..j], msgs[j]);
        assert msgs[..j + 1] == msgs[..j] + [msgs[j]];
        hide Nonzero, Zeros, Tag, OnlineEvents;
        if msgs[j] == 0 {
          history := history + [Online(conversationID)];
          continue;
        }
        lastSeq := msgs[j];
        storageMsgs := storageMsgs + [Msg(conversationID, msgs[j])];
      }
      assert msgs[..|msgs|] == msgs;
    }

    /** The body of the push loop: pass the stored messages on, or queue a range, or neither. */
    method PushConversation(conversationID: string, msgs: seq<int>, ghost st: PushState,
                            needSyncSeqMap0: map<string, Range>, lastSeq0: int, storage0: seq<Msg>)
      returns (needSyncSeqMap: map<string, Range>, lastSeq: int, storageMsgs: seq<Msg>)
      requires st == PushState(syncedMaxSeqs, history, needSyncSeqMap0, lastSeq0, storage0, st.inexact)
      modifies this`history, this`syncedMaxSeqs
      ensures var st' := PushOne(st, conversationID, msgs);
              st' == PushState(syncedMaxSeqs, history, needSyncSeqMap, lastSeq, storageMsgs, st'.inexact)
    {
      hide Nonzero, Tag, Zeros, OnlineEvents, Fills;
      needSyncSeqMap := needSyncSeqMap0;
      lastSeq, storageMsgs := StoreMessages(conversationID, msgs, lastSeq0, storage0);
      var synced := if conversationID in syncedMaxSeqs then syncedMaxSeqs[conversationID] else 0;
      if lastSeq == synced + |storageMsgs| && lastSeq != 0 {
        history := history + [Triggered(conversationID, storageMsgs)];
        syncedMaxSeqs := syncedMaxSeqs[conversationID := lastSeq];
      } else if lastSeq != 0 && lastSeq > synced {
        needSyncSeqMap := needSyncSeqMap[conversationID := Range(synced + 1, lastSeq)];
      }
    }

    /** The conversations of one push, one after another in any order. */
    method PushAll(pullMsgs: map<string, seq<int>>) returns (needSyncSeqMap: map<string, Range>, ghost order: seq<string>)
      modifies this`history, this`syncedMaxSeqs
      ensures IsOrder(order, pullMsgs.Keys)
      ensures var st := PushedIn(old(syncedMaxSeqs), old(history), order, pullMsgs);
              st.cursors == syncedMaxSeqs && st.history == history && st.needSync == needSyncSeqMap
      ensures PassesOn(old(history), history, pullMsgs)
    {
      ghost var m, h := syncedMaxSeqs, history;
      ghost var st := StartState(m, h);
      order := [];
      needSyncSeqMap := map[];
      var lastSeq := 0;
      var storageMsgs: seq<Msg> := [];
      var remaining := pullMsgs.Keys;
      hide PushOne, PassesOn;
      while remaining != {}
        invariant remaining <= pullMsgs.Keys
        invariant IsOrder(order, pullMsgs.Keys - remaining)
        invariant st == PushedIn(m, h, order, pullMsgs)
        invariant st == PushState(syncedMaxSeqs, history, needSyncSeqMap, lastSeq, storageMsgs, st.inexact)
        decreases remaining
      {
        var conversationID :| conversationID in remaining;
        OrderOneMore(order, pullMsgs.Keys, remaining, conversationID);
        PushedInOneMore(m, h, order, pullMsgs, conversationID);
        remaining := remaining - {conversationID};
        order := order + [conversationID];
        needSyncSeqMap, lastSeq, storageMsgs :=
          PushConversation(conversationID, pullMsgs[conversationID], st, needSyncSeqMap, lastSeq, storageMsgs);
        st := PushOne(st, conversationID, pullMsgs[conversationID]);
      }
      PushedInPassesOn(m, h, order, pullMsgs);
    }

    /** Handle the messages of one push: pass on what is complete, then pull what was queued. Nothing is
        added but the push's own messages and small requests. The conversations passed on by mistake are
        exactly those that the order in which they were handled makes so. When the server works each
        conversation ends at the last number met, in particular one with strictly increasing numbers above
        its cursor at the last of them. */
    method PushTriggerAndSync(pullMsgs: map<string, seq<int>>)
      returns (ghost inexact: set<string>, ghost order: seq<string>)
      modifies this`history, this`syncedMaxSeqs
      ensures IsOrder(order, pullMsgs.Keys) && inexact == MistakesOf(order, pullMsgs, old(syncedMaxSeqs))
      ensures inexact <= pullMsgs.Keys
      ensures HalfOf(old(syncedMaxSeqs), old(history), syncedMaxSeqs, history, order, pullMsgs)
      ensures Untouched(old(syncedMaxSeqs), syncedMaxSeqs, pullMsgs.Keys)
      ensures forall c | GapFree(pullMsgs, old(syncedMaxSeqs), c) ::
                && syncedMaxSeqs == old(syncedMaxSeqs)[c := LastOf([c], pullMsgs)]
                && history == old(history) + OnlineEvents(c, Zeros(pullMsgs[c])) + [Triggered(c, Tag(c, Nonzero(pullMsgs[c])))]
      ensures pullMsgs == map[] ==> syncedMaxSeqs == old(syncedMaxSeqs) && history == old(history)
      ensures Exact(old(syncedMaxSeqs), old(history), syncedMaxSeqs, history, inexact)
      ensures Covers(old(syncedMaxSeqs), old(history), syncedMaxSeqs, history, inexact)
      ensures forall c | pullMsgs.Keys == {c} ::
                inexact == SingleInexact(c, pullMsgs[c], CursorOf(old(syncedMaxSeqs), c))
      ensures serverWorks ==> syncedMaxSeqs == Arrival(order, pullMsgs, old(syncedMaxSeqs))
      ensures serverWorks ==> forall c | pullMsgs.Keys == {c} && Rising(pullMsgs[c], CursorOf(old(syncedMaxSeqs), c)) ::
                var own := Nonzero(pullMsgs[c]);
                syncedMaxSeqs == old(syncedMaxSeqs)[c := own[|own| - 1]]
    {
      hide Exact, Covers, Nonzero, Rising, SingleInexact, PassesOn, Untouched, PushedIn, Synced, OnlySmall, FullButLast, Split, Ends,
           Aligned, HalfOf, GapFree, OnlineEvents, Tag, Zeros;
      ghost var m, h := syncedMaxSeqs, history;
      if |pullMsgs| == 0 {
        EmptyPush(pullMsgs, m, h);
        return {}, [];
      }
      var needSyncSeqMap;
      needSyncSeqMap, order := PushAll(pullMsgs);
      hide MistakesOf, IsOrder, Arrival;
      ghost var m1, h1 := syncedMaxSeqs, history;
      PushedInParts(m, h, order, pullMsgs);
      var _ := SyncAndTriggerMsgs(needSyncSeqMap);
      inexact := MistakesOf(order, pullMsgs, m);
      AsksAreSmall(h1, history, needSyncSeqMap);
      PushThenPull(m, h, order, pullMsgs, m1, h1, syncedMaxSeqs, history);
      MistakesInKeys(order, pullMsgs, m);
      PushedAlone(m, h, order, pullMsgs, syncedMaxSeqs, history);
    }

    /** A push carries messages and notifications. */
    method DoPushMsg(msgs: map<string, seq<int>>, notificationMsgs: map<string, seq<int>>) returns (ghost g: Handling)
      modifies this`history, this`syncedMaxSeqs
      ensures StepOf(Push(msgs, notificationMsgs), old(Here()), Here(), g)
      ensures serverWorks ==> Arrives(Push(msgs, notificationMsgs), old(Here()), Here(), g, tableWorks)
    {
      hide Exact, Covers, Nonzero, Rising, SingleInexact, MistakesOf, IsOrder, HalfOf, Untouched, NoneWentBack, Arrival, FillsInterval;
      ghost var m, h := syncedMaxSeqs, history;
      ghost var x1, order := PushTriggerAndSync(msgs);
      ghost var m1, h1 := syncedMaxSeqs, history;
      ghost var x2, notificationOrder := PushTriggerAndSync(notificationMsgs);
      g := Handling(order, m1, h1, notificationOrder);
      WeakerExcept(m1, h1, syncedMaxSeqs, history, x2, x1 + x2);
      ExactTransitive(m, h, m1, h1, syncedMaxSeqs, history, x1, x1 + x2);
      CoversTransitive(m, h, m1, h1, syncedMaxSeqs, history, x1, x1 + x2);
      ExactForward(m, h, syncedMaxSeqs, history, x1 + x2);
    }

    /** After a reconnection the server is asked for its maxima; without an answer nothing happens. */
    method DoConnected(answered: bool, maxSeqs: map<string, int>)
      modifies this
      ensures StepOf(Connected(answered, maxSeqs), old(Here()), Here(), NOT_A_PUSH)
      ensures serverWorks ==> Arrives(Connected(answered, maxSeqs), old(Here()), Here(), NOT_A_PUSH, tableWorks)
    {
      NothingCovered(syncedMaxSeqs, history);
      ExactForward(syncedMaxSeqs, history, syncedMaxSeqs, history, {});
      assert OnlySmall(history, history) && AsksUpTo(history, history, syncedMaxSeqs, maxSeqs);
      hide Exact, Covers, OnlySmall, AsksUpTo, NoneWentBack, OnlySkips, ExactOutside, Ends, NeedSync, Notifications, IsAt;
      if answered {
        ghost var m, h, pass := syncedMaxSeqs, history, reinstalled;
        var _ := CompareSeqsAndBatchSync(maxSeqs);
        if !pass {
          ExactForward(m, h, syncedMaxSeqs, history, {});
        }
      }
    }

    /** handlePushMsgAndEvent. */
    method HandleCommand(cmd: Command) returns (ghost g: Handling)
      modifies this
      ensures StepOf(cmd, old(Here()), Here(), g)
      ensures serverWorks ==> Arrives(cmd, old(Here()), Here(), g, tableWorks)
    {
      hide Exact, Covers, OnlySmall, AsksUpTo, NoneWentBack, OnlySkips, ExactOutside, HalfOf, MistakesOf, Arrival, Ends,
           NeedSync, Notifications, IsAt;
      g := NOT_A_PUSH;
      match cmd {
        case Connected(answered, maxSeqs) => DoConnected(answered, maxSeqs);
        case MaxSeq(maxSeqs) =>
          ghost var m, h, pass := syncedMaxSeqs, history, reinstalled;
          var _ := CompareSeqsAndBatchSync(maxSeqs);
          if !pass {
            ExactForward(m, h, syncedMaxSeqs, history, {});
          }
        case Push(msgs, notificationMsgs) => g := DoPushMsg(msgs, notificationMsgs);
      }
    }

    /** Any run of commands, with any pulls failing. Every number a cursor moved over came with a push and
        was passed on, lay in a pulled range, or was given up in the pass after a reinstallation. Without the
        flag of a reinstallation it was delivered exactly once, nothing beyond the cursor was delivered,
        nothing was given up, and no cursor went back; with it the same holds of every command but the
        one that clears it, and of all conversations but the notifications in that one. Exempt are exactly
        the conversations passed on by mistake: none, when every push carries one conversation with
        strictly increasing numbers above its cursor. When the server works, every command also brings the
        cursors where it should. */
    method DoListener(cmds: seq<Command>) returns (ghost trace: seq<Point>, ghost hs: seq<Handling>)
      modifies this
      ensures IsRun(cmds, trace, hs)
      ensures trace[0] == old(Here()) && trace[|cmds|] == Here()
      ensures Covers(old(syncedMaxSeqs), old(history), syncedMaxSeqs, history, MistakesUpTo(cmds, trace, hs, |cmds|))
      ensures OnlyFrom(old(history), history, cmds, old(reinstalled) && !reinstalled)
      ensures !old(reinstalled) || reinstalled ==>
                Exact(old(syncedMaxSeqs), old(history), syncedMaxSeqs, history, MistakesUpTo(cmds, trace, hs, |cmds|))
      ensures (forall i | 0 <= i < |cmds| :: Orderly(cmds[i], trace[i].cursors)) ==> MistakesUpTo(cmds, trace, hs, |cmds|) == {}
      ensures forall i | 0 <= i < |cmds| :: PassedOnSince(cmds[i], trace[i], hs[i], history)
      ensures serverWorks ==> forall i | 0 <= i < |cmds| :: Arrives(cmds[i], trace[i], trace[i + 1], hs[i], tableWorks)
    {
      hide Exact, Covers, Orderly, StepOf, Arrives, OnlyFrom, PassedOnSince;
      trace, hs := [Here()], [];
      for i := 0 to |cmds|
        invariant |trace| == i + 1 && |hs| == i
        invariant trace[0] == old(Here()) && trace[i] == Here()
        invariant forall j | 0 <= j < i :: StepOf(cmds[j], trace[j], trace[j + 1], hs[j])
        invariant serverWorks ==> forall j | 0 <= j < i :: Arrives(cmds[j], trace[j], trace[j + 1], hs[j], tableWorks)
      {
        ghost var g := HandleCommand(cmds[i]);
        trace := trace + [Here()];
        hs := hs + [g];
      }
      RunCovers(cmds, trace, hs, |cmds|);
      RunIsFrom(cmds, trace, hs, 0, |cmds|);
      assert cmds[0..|cmds|] == cmds;
      forall i | 0 <= i < |cmds|
        ensures PassedOnSince(cmds[i], trace[i], hs[i], history)
      {
        RunPassesOn(cmds, trace, hs, i, |cmds|);
      }
      if !old(reinstalled) || reinstalled {
        RunIsExact(cmds, trace, hs, 0, |cmds|);
      }
      if forall i | 0 <= i < |cmds| :: Orderly(cmds[i], trace[i].cursors) {
        OrderlyRun(cmds, trace, hs, |cmds|);
      }
    }
  }

  lemma OrderOneMore(order: seq<string>, keys: set<string>, remaining: set<string>, c: string)
    requires remaining <= keys && c in remaining && IsOrder(order, keys - remaining)
    ensures c !in order && IsOrder(order + [c], keys - (remaining - {c}))
  {
  }

  lemma MistakesInKeys(order: seq<string>, pushes: map<string, seq<int>>, m: Cursors)
    requires IsOrder(order, pushes.Keys)
    ensures MistakesOf(order, pushes, m) <= pushes.Keys
  {
    MistakesAreHandled(order, pushes, m);
    hide MistakesOf;
  }

  lemma PushedInOneMore(m: Cursors, h: seq<Event>, order: seq<string>, pushes: map<string, seq<int>>, c: string)
    requires c in pushes
    ensures PushedIn(m, h, order + [c], pushes) == PushOne(PushedIn(m, h, order, pushes), c, pushes[c])
  {
    assert (order + [c])[..|order|] == order;
    hide PushOne;
  }

  lemma PushedInPassesOn(m: Cursors, h: seq<Event>, order: seq<string>, pushes: map<string, seq<int>>)
    requires IsOrder(order, pushes.Keys)
    ensures PassesOn(h, PushedIn(m, h, order, pushes).history, pushes)
  {
    PushedInCarried(m, h, order, pushes.Keys, pushes);
    PushedInOnlineOnce(m, h, order, pushes);
    hide OnlyCarried, OnlineOnce, PushedIn;
  }

  lemma PushedInParts(m: Cursors, h: seq<Event>, order: seq<string>, pushes: map<string, seq<int>>)
    requires IsOrder(order, pushes.Keys)
    ensures var st := PushedIn(m, h, order, pushes);
            && Aligned(st.cursors, st.needSync)
            && Tracks(st, order, pushes, m)
            && st.cursors + Ends(st.needSync) == Arrival(order, pushes, m)
            && Exact(m, h, st.cursors, st.history, MistakesOf(order, pushes, m))
            && Covers(m, h, st.cursors, st.history, MistakesOf(order, pushes, m))
  {
    PushedInTracks(m, h, order, pushes.Keys, pushes);
    PushedInExact(m, h, order, pushes.Keys, pushes, {});
    PushedInArrives(m, h, order, pushes.Keys, pushes);
    PushInvParts(m, h, PushedIn(m, h, order, pushes));
    hide PushedIn, PushInv, Exact, Covers, Aligned, Arrival, Ends, MistakesOf, LastOf, CountOf, Members;
  }

  /** A push followed by pulling what it queued, whichever of the pulls fail. */
  lemma PushThenPull(m: Cursors, h: seq<Event>, order: seq<string>, pushes: map<string, seq<int>>,
      m1: Cursors, h1: seq<Event>, m2: Cursors, h2: seq<Event>)
    requires IsOrder(order, pushes.Keys)
    requires var st := PushedIn(m, h, order, pushes);
             st.cursors == m1 && st.history == h1 && Synced(m1, h1, m2, h2, st.needSync)
    requires var queue := PushedIn(m, h, order, pushes).needSync;
             OnlyAsks(h1, h2, queue) && FullButLast(h1, h2, queue) && (queue == map[] ==> h2 == h1 && m2 == m1)
    requires PassesOn(h, h1, pushes) && OnlySmall(h1, h2)
    ensures HalfOf(m, h, m2, h2, order, pushes) && Untouched(m, m2, pushes.Keys)
    ensures Exact(m, h, m2, h2, MistakesOf(order, pushes, m))
    ensures Covers(m, h, m2, h2, MistakesOf(order, pushes, m))
  {
    var st, x := PushedIn(m, h, order, pushes), MistakesOf(order, pushes, m);
    PushedInParts(m, h, order, pushes);
    QueuedOnly(m, m1, h1, m2, h2, st, order, pushes);
    PushedInIs(m, h, order, pushes.Keys, pushes);
    SyncedTouches(m1, h1, m2, h2, st.needSync);
    hide Exact, Covers, Synced, PassesOn, OnlyAsks, FullButLast, OnlySmall, EventsOf, PassedTo, QueueOf, MistakesOf, PushedIn, Aligned, Tracks,
         Untouched, Arrival, IsOrder;
    RequestsAfter(h, h1, h2, pushes);
    SyncedIsExact(m1, h1, m2, h2, st.needSync);
    WeakerExcept(m1, h1, m2, h2, {}, x);
    ExactTransitive(m, h, m1, h1, m2, h2, x, x);
    CoversTransitive(m, h, m1, h1, m2, h2, x, x);
  }

  /** What this means for a push of one conversation. */
  lemma PushedAlone(m: Cursors, h: seq<Event>, order: seq<string>, pushes: map<string, seq<int>>, m': Cursors, h': seq<Event>)
    requires IsOrder(order, pushes.Keys) && HalfOf(m, h, m', h', order, pushes)
    ensures forall c | pushes.Keys == {c} :: MistakesOf(order, pushes, m) == SingleInexact(c, pushes[c], CursorOf(m, c))
    ensures forall c | pushes.Keys == {c} && Rising(pushes[c], CursorOf(m, c)) ::
              var own := Nonzero(pushes[c]); own != [] && Arrival(order, pushes, m) == m[c := own[|own| - 1]]
    ensures forall c | GapFree(pushes, m, c) ::
              && m' == m[c := LastOf([c], pushes)]
              && h' == h + OnlineEvents(c, Zeros(pushes[c])) + [Triggered(c, Tag(c, Nonzero(pushes[c])))]
  {
    forall c | GapFree(pushes, m, c)
      ensures m' == m[c := LastOf([c], pushes)]
      ensures h' == h + OnlineEvents(c, Zeros(pushes[c])) + [Triggered(c, Tag(c, Nonzero(pushes[c])))]
    {
      GapFreeIsPassedOn(m, h, m', h', order, pushes, c);
      OneStored(c, pushes);
      hide Nonzero, Zeros, Tag, OnlineEvents, HalfOf, LastOf, FillsInterval;
    }
    hide Nonzero, Zeros, Tag, OnlineEvents, HalfOf, LastOf, Arrival, Rising, SingleInexact, MistakesOf, GapFree;
    forall c | pushes.Keys == {c}
      ensures MistakesOf(order, pushes, m) == SingleInexact(c, pushes[c], CursorOf(m, c))
      ensures Rising(pushes[c], CursorOf(m, c)) ==>
                var own := Nonzero(pushes[c]); own != [] && Arrival(order, pushes, m) == m[c := own[|own| - 1]]
    {
      MistakesOfOne(c, pushes, m, order);
      if Rising(pushes[c], CursorOf(m, c)) {
        RisingArrives(c, pushes, m, order);
      }
    }
  }

  lemma EmptyPush(pushes: map<string, seq<int>>, m: Cursors, h: seq<Event>)
    requires |pushes| == 0
    ensures pushes == map[] && IsOrder([], pushes.Keys) && MistakesOf([], pushes, m) == {}
    ensures forall c :: pushes.Keys != {c} && !GapFree(pushes, m, c)
    ensures HalfOf(m, h, m, h, [], pushes) && Untouched(m, m, pushes.Keys) && Arrival([], pushes, m) == m
    ensures Exact(m, h, m, h, {}) && Covers(m, h, m, h, {})
  {
    assert pushes.Keys == {};
    assert forall c: string :: c in {c};
    assert h + EventsOf([], pushes, m) == h;
    NothingCovered(m, h);
    hide Deliveries;
  }

  /** Pulling what a push queued touches no other conversation. */
  lemma QueuedOnly(m: Cursors, m1: Cursors, h1: seq<Event>, m2: Cursors, h2: seq<Event>, st: PushState,
      order: seq<string>, pushes: map<string, seq<int>>)
    requires Tracks(st, order, pushes, m) && IsOrder(order, pushes.Keys) && st.cursors == m1
    requires Synced(m1, h1, m2, h2, st.needSync)
    ensures Untouched(m, m2, pushes.Keys)
  {
    assert (set c | c in order) == pushes.Keys;
    SyncedTouches(m1, h1, m2, h2, st.needSync);
    hide MistakesOf, LastOf, CountOf, Synced, Untouched;
    UntouchedTwice(m, m1, m2, pushes.Keys, st.needSync.Keys);
  }

  lemma SyncedTouches(m: Cursors, h: seq<Event>, m': Cursors, h': seq<Event>, seqMap: map<string, Range>)
    requires Synced(m, h, m', h', seqMap)
    ensures Untouched(m, m', seqMap.Keys)
  {
    hide Deliveries, Reached;
  }

  lemma UntouchedTwice(m0: Cursors, m1: Cursors, m2: Cursors, keys: set<string>, fewer: set<string>)
    requires Untouched(m0, m1, keys) && Untouched(m1, m2, fewer) && fewer <= keys
    ensures Untouched(m0, m2, keys)
  {
  }
}
