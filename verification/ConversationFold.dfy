/** Folding a batch of messages into conversations, and merging the batch with the conversations of the
    database. Conversations are objects that are updated in place. */
module ConversationFold {

  /** What the fold changes of a conversation. */
  datatype Summary = Summary(unread: int, latest: string, sendTime: int)

  class LocalConversation {
    const conversationID: string
    var unreadCount: int
    var latestMsg: string
    var latestMsgSendTime: int

    constructor (conversationID: string, unreadCount: int, latestMsg: string, latestMsgSendTime: int)
      ensures this.conversationID == conversationID
      ensures View() == Summary(unreadCount, latestMsg, latestMsgSendTime)
    {
      this.conversationID, this.unreadCount := conversationID, unreadCount;
      this.latestMsg, this.latestMsgSendTime := latestMsg, latestMsgSendTime;
    }

    function View(): Summary
      reads this
    {
      Summary(unreadCount, latestMsg, latestMsgSendTime)
    }
  }

  /** Every conversation is stored under its own ID, so no object is stored twice. */
  predicate Keyed(cs: map<string, LocalConversation>) {
    forall k <- cs :: cs[k].conversationID == k
  }

  ghost function ViewOf(cs: map<string, LocalConversation>): map<string, Summary>
    reads cs.Values
  {
    map k | k in cs :: cs[k].View()
  }

  // ---------- Merging ----------

  /** Unread counts add up; the later message stays, the first one if they are equally late. */
  function Merge(a: Summary, b: Summary): Summary {
    if b.sendTime > a.sendTime then Summary(a.unread + b.unread, b.latest, b.sendTime)
    else a.(unread := a.unread + b.unread)
  }

  function Add(m: map<string, Summary>, id: string, s: Summary): map<string, Summary> {
    m[id := if id in m then Merge(m[id], s) else s]
  }

  method UpdateConversation(lc: LocalConversation, cs: map<string, LocalConversation>)
      returns (updated: map<string, LocalConversation>)
    requires Keyed(cs) && lc !in cs.Values
    modifies cs.Values
    ensures Keyed(updated) && updated.Values <= cs.Values + {lc}
    ensures ViewOf(updated) == Add(old(ViewOf(cs)), lc.conversationID, lc.View())
  {
    var id := lc.conversationID;
    if id !in cs {
      updated := cs[id := lc];
    } else {
      var oldC := cs[id];
      if lc.latestMsgSendTime > oldC.latestMsgSendTime {
        oldC.unreadCount := oldC.unreadCount + lc.unreadCount;
        oldC.latestMsg := lc.latestMsg;
        oldC.latestMsgSendTime := lc.latestMsgSendTime;
        updated := cs[id := oldC];
      } else {
        oldC.unreadCount := oldC.unreadCount + lc.unreadCount;
        updated := cs[id := oldC];
      }
      assert updated == cs;
    }
  }

  /** All messages of one conversation folded in order. */
  function Fold(xs: seq<Summary>): Summary
    requires xs != []
  {
    if |xs| == 1 then xs[0] else Merge(Fold(xs[..|xs| - 1]), xs[|xs| - 1])
  }

  function SumUnread(xs: seq<Summary>): int {
    if xs == [] then 0 else SumUnread(xs[..|xs| - 1]) + xs[|xs| - 1].unread
  }

  predicate IsLatest(xs: seq<Summary>, r: Summary, i: int) {
    && 0 <= i < |xs|
    && xs[i].sendTime == r.sendTime && xs[i].latest == r.latest
    && (forall j | 0 <= j < |xs| :: xs[j].sendTime <= r.sendTime)
    && (forall j | 0 <= j < i :: xs[j].sendTime < r.sendTime)
  }

  /** The fold has the sum of the unread counts, and the first of the latest messages. */
  lemma {:induction false} FoldIs(xs: seq<Summary>) returns (i: int)
    requires xs != []
    ensures Fold(xs).unread == SumUnread(xs)
    ensures IsLatest(xs, Fold(xs), i)
  {
    i := 0;
    var n := |xs| - 1;
    if n == 0 {
      assert xs[..0] == [];
      assert SumUnread(xs[..0]) == 0;
    } else {
      i := FoldIs(xs[..n]);
      if xs[n].sendTime > Fold(xs[..n]).sendTime {
        i := n;
      }
    }
  }

  lemma SumAppend(a: seq<Summary>, x: Summary)
    ensures SumUnread(a + [x]) == SumUnread(a) + x.unread
  {
    assert (a + [x])[..|a + [x]| - 1] == a;
  }

  lemma {:induction false} SumRemove(xs: seq<Summary>, i: nat)
    requires i < |xs|
    ensures SumUnread(xs) == SumUnread(xs[..i] + xs[i + 1..]) + xs[i].unread
  {
    var n := |xs| - 1;
    if i == n {
      assert xs[..i] + xs[i + 1..] == xs[..n];
    } else {
      SumRemove(xs[..n], i);
      SumAppend(xs[..n][..i] + xs[..n][i + 1..], xs[n]);
      assert xs[..i] + xs[i + 1..] == xs[..n][..i] + xs[..n][i + 1..] + [xs[n]];
    }
  }

  lemma {:induction false} SumPermutation(xs: seq<Summary>, ys: seq<Summary>)
    requires multiset(xs) == multiset(ys)
    ensures SumUnread(xs) == SumUnread(ys)
  {
    if xs == [] {
      assert |multiset(ys)| == 0;
    } else {
      var n := |xs| - 1;
      assert xs[n] in multiset(xs);
      var i :| 0 <= i < |ys| && ys[i] == xs[n];
      var rest := ys[..i] + ys[i + 1..];
      WithoutOne(xs, n);
      WithoutOne(ys, i);
      assert xs[..n] + xs[n + 1..] == xs[..n];
      SumPermutation(xs[..n], rest);
      SumRemove(ys, i);
    }
  }

  lemma WithoutOne(xs: seq<Summary>, i: nat)
    requires i < |xs|
    ensures multiset(xs[..i] + xs[i + 1..]) == multiset(xs) - multiset{xs[i]}
  {
    assert xs == xs[..i] + [xs[i]] + xs[i + 1..];
  }

  /** The order of arrival does not matter: any permutation of the messages gives the same unread count
      and the same send time, and the same latest message unless different messages tie for it. */
  lemma FoldPermutation(xs: seq<Summary>, ys: seq<Summary>)
    requires xs != [] && multiset(xs) == multiset(ys)
    ensures ys != []
    ensures Fold(xs).unread == Fold(ys).unread
    ensures Fold(xs).sendTime == Fold(ys).sendTime
    ensures (forall a, b | a in xs && b in xs && a.sendTime == b.sendTime == Fold(xs).sendTime :: a.latest == b.latest)
              ==> Fold(xs) == Fold(ys)
  {
    assert xs[0] in multiset(ys);
    forall x
      ensures x in xs <==> x in ys
    {
      assert x in multiset(xs) <==> x in multiset(ys);
    }
    SumPermutation(xs, ys);
    var i := FoldIs(xs);
    var j := FoldIs(ys);
    hide Fold, SumUnread;
    assert xs[i] in ys && ys[j] in xs;
  }

  /** Batches may be cut anywhere. */
  lemma {:induction false} FoldConcat(xs: seq<Summary>, ys: seq<Summary>)
    requires xs != [] && ys != []
    ensures Fold(xs + ys) == Merge(Fold(xs), Fold(ys))
  {
    var n := |ys| - 1;
    assert (xs + ys)[..|xs + ys| - 1] == xs + ys[..n];
    if n == 0 {
      assert xs + ys[..n] == xs;
    } else {
      FoldConcat(xs, ys[..n]);
    }
  }

  // ---------- The batch against the database ----------

  /** The conversations of the database after those of the batch have been merged into them. */
  function Merged(local: map<string, Summary>, generated: map<string, Summary>): map<string, Summary> {
    map k | k in local :: if k in generated then Merge(local[k], generated[k]) else local[k]
  }

  function Restrict(m: map<string, Summary>, keys: set<string>): map<string, Summary> {
    map k | k in m && k in keys :: m[k]
  }

  /** diff: conversations of the batch that the database has are merged into the database's objects; the
      others are new, and are kept only if their names and pictures can be filled in. */
  method Diff(local: map<string, LocalConversation>, generated: map<string, LocalConversation>, fillable: bool)
      returns (cc: map<string, LocalConversation>, nc: map<string, LocalConversation>, named: bool)
    requires Keyed(local) && Keyed(generated) && local.Values !! generated.Values
    modifies local.Values
    ensures ViewOf(local) == Merged(old(ViewOf(local)), ViewOf(generated))
    ensures ViewOf(generated) == old(ViewOf(generated))
    ensures cc.Keys == local.Keys * generated.Keys && forall k <- cc :: cc[k] == local[k]
    ensures nc == if named then generated - local.Keys else map[]
    ensures named <==> fillable || generated.Keys <= local.Keys
  {
    hide Merge, Merged, ViewOf, Divided, Restrict;
    cc, nc := map[], map[];
    var newConversations: map<string, LocalConversation> := map[];
    var todo := generated.Keys;
    ghost var before, batch := ViewOf(local), ViewOf(generated);
    ghost var done: set<string> := {};
    NothingMerged(before, batch);
    NothingDivided(local, generated);
    while todo != {}
      invariant todo == generated.Keys - done && done <= generated.Keys
      invariant ViewOf(generated) == batch
      invariant ViewOf(local) == Merged(before, Restrict(batch, done))
      invariant Divided(local, generated, done, cc, newConversations)
      decreases todo
    {
      var k :| k in todo;
      todo := todo - {k};
      assert generated[k].conversationID == k;
      DividedStep(local, generated, done, cc, newConversations, k);
      MergedStep(before, batch, done, k, local, generated);
      done := done + {k};
      if generated[k].conversationID in local {
        MergeInPlace(k, local, generated);
        cc := cc[k := local[k]];
      } else {
        newConversations := newConversations[k := generated[k]];
      }
    }
    AllDivided(local, generated, done, cc, newConversations);
    named := fillable || |newConversations| == 0;
    if named {
      nc := newConversations;
    }
  }

  /** The conversations looked at so far, divided into those the database has and the new ones. */
  ghost predicate Divided(local: map<string, LocalConversation>, generated: map<string, LocalConversation>,
      done: set<string>, cc: map<string, LocalConversation>, newConversations: map<string, LocalConversation>) {
    && cc.Keys == local.Keys * done && (forall k <- cc :: cc[k] == local[k])
    && done <= generated.Keys
    && newConversations.Keys == done - local.Keys && (forall k <- newConversations :: newConversations[k] == generated[k])
  }

  lemma NothingDivided(local: map<string, LocalConversation>, generated: map<string, LocalConversation>)
    ensures Divided(local, generated, {}, map[], map[])
  {
  }

  lemma DividedStep(local: map<string, LocalConversation>, generated: map<string, LocalConversation>, done: set<string>,
      cc: map<string, LocalConversation>, newConversations: map<string, LocalConversation>, k: string)
    requires Divided(local, generated, done, cc, newConversations) && k in generated
    ensures k in local ==> Divided(local, generated, done + {k}, cc[k := local[k]], newConversations)
    ensures k !in local ==> Divided(local, generated, done + {k}, cc, newConversations[k := generated[k]])
  {
    if k in local {
      assert cc[k := local[k]].Keys == cc.Keys + {k};
    } else {
      assert newConversations[k := generated[k]].Keys == newConversations.Keys + {k};
    }
  }

  lemma AllDivided(local: map<string, LocalConversation>, generated: map<string, LocalConversation>, done: set<string>,
      cc: map<string, LocalConversation>, newConversations: map<string, LocalConversation>)
    requires Divided(local, generated, done, cc, newConversations) && done == generated.Keys
    ensures cc.Keys == local.Keys * generated.Keys && forall k <- cc :: cc[k] == local[k]
    ensures newConversations == generated - local.Keys
    ensures generated.Keys <= local.Keys <==> |newConversations| == 0
    ensures Restrict(ViewOf(generated), done) == ViewOf(generated)
  {
  }

  method MergeInPlace(k: string, local: map<string, LocalConversation>, generated: map<string, LocalConversation>)
    requires Keyed(local) && local.Values !! generated.Values && k in local && k in generated
    modifies local.Values
    ensures k in old(ViewOf(local)) && k in ViewOf(generated)
    ensures ViewOf(local) == old(ViewOf(local))[k := Merge(old(ViewOf(local))[k], ViewOf(generated)[k])]
    ensures ViewOf(generated) == old(ViewOf(generated))
  {
    var localC, v := local[k], generated[k];
    if v.latestMsgSendTime > localC.latestMsgSendTime {
      localC.unreadCount := localC.unreadCount + v.unreadCount;
      localC.latestMsg := v.latestMsg;
      localC.latestMsgSendTime := v.latestMsgSendTime;
    } else {
      localC.unreadCount := localC.unreadCount + v.unreadCount;
    }
  }

  lemma NothingMerged(before: map<string, Summary>, batch: map<string, Summary>)
    ensures Merged(before, Restrict(batch, {})) == before
  {
  }

  /** Merging one more conversation of the batch. */
  lemma MergedStep(before: map<string, Summary>, batch: map<string, Summary>, done: set<string>, k: string,
      local: map<string, LocalConversation>, generated: map<string, LocalConversation>)
    requires k in generated && k !in done
    requires batch == ViewOf(generated) && ViewOf(local) == Merged(before, Restrict(batch, done))
    ensures k in batch && (k in local <==> k in before)
    ensures var m := Merged(before, Restrict(batch, done));
            && m.Keys == before.Keys
            && Merged(before, Restrict(batch, done + {k})) == if k in before then m[k := Merge(m[k], batch[k])] else m
  {
    assert ViewOf(local).Keys == local.Keys;
  }

  // ---------- Conservation of the total unread count ----------

  ghost function Total(m: map<string, Summary>): int
    decreases |m|
  {
    if m == map[] then 0
    else
      var k :| k in m;
      m[k].unread + Total(m - {k})
  }

  lemma {:induction false} TotalRemove(m: map<string, Summary>, k: string)
    requires k in m
    ensures Total(m) == m[k].unread + Total(m - {k})
    decreases |m|
  {
    var j :| j in m && Total(m) == m[j].unread + Total(m - {j});
    if j != k {
      TotalRemove(m - {j}, k);
      TotalRemove(m - {k}, j);
      assert m - {j} - {k} == m - {k} - {j};
    }
  }

  lemma {:induction false} TotalMerged(local: map<string, Summary>, generated: map<string, Summary>)
    ensures Total(Merged(local, generated)) == Total(local) + Total(Restrict(generated, local.Keys))
    decreases |local|
  {
    if local == map[] {
      assert Merged(local, generated) == map[] && Restrict(generated, local.Keys) == map[];
    } else {
      var k :| k in local;
      var rest := local - {k};
      TotalMerged(rest, generated);
      TotalRemove(local, k);
      TotalRemove(Merged(local, generated), k);
      assert Merged(local, generated) - {k} == Merged(rest, generated);
      if k in generated {
        TotalRemove(Restrict(generated, local.Keys), k);
        assert Restrict(generated, local.Keys) - {k} == Restrict(generated, rest.Keys);
      } else {
        assert Restrict(generated, local.Keys) == Restrict(generated, rest.Keys);
      }
    }
  }

  lemma {:induction false} TotalSplit(m: map<string, Summary>, keys: set<string>)
    ensures Total(m) == Total(Restrict(m, keys)) + Total(m - keys)
    decreases |m|
  {
    if m == map[] {
      assert Restrict(m, keys) == map[] && m - keys == map[];
    } else {
      var k :| k in m;
      TotalSplit(m - {k}, keys);
      TotalRemove(m, k);
      if k in keys {
        TotalRemove(Restrict(m, keys), k);
        assert Restrict(m, keys) - {k} == Restrict(m - {k}, keys);
        assert m - {k} - keys == m - keys;
      } else {
        TotalRemove(m - keys, k);
        assert Restrict(m, keys) == Restrict(m - {k}, keys);
        assert m - {k} - keys == m - keys - {k};
      }
    }
  }

  /** The total unread count of the changed and the new conversations is that of the database plus that
      of the batch, exactly when the new conversations could be named or have nothing unread. */
  lemma UnreadConservedIff(local: map<string, Summary>, generated: map<string, Summary>, named: bool)
    ensures var nc := if named then generated - local.Keys else map[];
            Total(Merged(local, generated)) + Total(nc) == Total(local) + Total(generated)
            <==> named || Total(generated - local.Keys) == 0
  {
    TotalMerged(local, generated);
    TotalSplit(generated, local.Keys);
  }
}
