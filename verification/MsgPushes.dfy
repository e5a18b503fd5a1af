/** What a whole push does, in whatever order its conversations are handled: which events it adds, and
    where the cursors are once what it queued has been pulled. */
module MsgPushes {
  import opened MsgHistory
  import opened MsgMistakes
  import opened MsgPush
  import opened MsgRequests

  /** The state of a push after the conversations in the order. */
  ghost function PushedIn(m: Cursors, h: seq<Event>, order: seq<string>, pushes: map<string, seq<int>>): PushState {
    if order == [] then StartState(m, h)
    else
      var front, c := order[..|order| - 1], order[|order| - 1];
      PushOne(PushedIn(m, h, front, pushes), c, PushedFor(pushes, c))
  }

  lemma FrontOrder(order: seq<string>, keys: set<string>)
    requires IsOrder(order, keys) && order != []
    ensures var front, c := order[..|order| - 1], order[|order| - 1];
            c in keys && c !in front && IsOrder(front, keys - {c}) && order == front + [c]
  {
  }

  lemma {:induction false} PushedInTracks(m: Cursors, h: seq<Event>, order: seq<string>, keys: set<string>,
      pushes: map<string, seq<int>>)
    requires IsOrder(order, keys) && keys <= pushes.Keys
    ensures Tracks(PushedIn(m, h, order, pushes), order, pushes, m)
    decreases |order|
  {
    hide Tracks, PushOne, IsOrder, StartState;
    if order == [] {
      StartTracks(m, h, pushes);
    } else {
      FrontOrder(order, keys);
      var front, c := order[..|order| - 1], order[|order| - 1];
      PushedInTracks(m, h, front, keys - {c}, pushes);
      TracksStep(PushedIn(m, h, front, pushes), front, pushes, m, c);
    }
  }

  /** The push is exact up to the conversations passed on by mistake. */
  lemma {:induction false} PushedInExact(m: Cursors, h: seq<Event>, order: seq<string>, keys: set<string>,
      pushes: map<string, seq<int>>, remaining: set<string>)
    requires IsOrder(order, keys) && keys !! remaining
    ensures PushInv(m, h, PushedIn(m, h, order, pushes), remaining)
    decreases |order|
  {
    hide PushInv, PushOne, IsOrder, StartState;
    if order == [] {
      StartHolds(m, h, remaining);
    } else {
      FrontOrder(order, keys);
      var front, c := order[..|order| - 1], order[|order| - 1];
      PushedInExact(m, h, front, keys - {c}, pushes, remaining + {c});
      PushStep(m, h, PushedIn(m, h, front, pushes), remaining + {c}, c, PushedFor(pushes, c));
      assert remaining + {c} - {c} == remaining;
    }
  }

  // ---------- What a push passes on ----------

  /** The message came with the push. */
  predicate Carried(x: Msg, pushes: map<string, seq<int>>) {
    x.seq_ != 0 && x.seq_ in PushedFor(pushes, x.conversationID)
  }

  /** A small request, or messages of the push passed on under one of its conversations. */
  ghost predicate OfPush(e: Event, pushes: map<string, seq<int>>) {
    match e
    case Pulled(_, _) => SmallRequest(e)
    case Triggered(c, msgs) => c in pushes && forall x <- msgs :: Carried(x, pushes)
    case Online(c) => 0 in PushedFor(pushes, c)
    case Skipped(_, _) => false
  }

  ghost predicate OnlyCarried(h: seq<Event>, h': seq<Event>, pushes: map<string, seq<int>>) {
    h <= h' && forall i | |h| <= i < |h'| :: OfPush(h'[i], pushes)
  }

  /** Every message of the push without a number was passed on once. */
  ghost predicate OnlineOnce(h: seq<Event>, h': seq<Event>, pushes: map<string, seq<int>>) {
    forall c :: multiset(h')[Online(c)] == multiset(h)[Online(c)] + Zeros(PushedFor(pushes, c))
  }

  /** Whatever the push added to the history is a small request or came with it. */
  ghost predicate PassesOn(h: seq<Event>, h': seq<Event>, pushes: map<string, seq<int>>) {
    OnlyCarried(h, h', pushes) && OnlineOnce(h, h', pushes)
  }

  lemma {:induction false} NonzeroMembers(seqs: seq<int>)
    ensures forall s :: s in Nonzero(seqs) <==> s != 0 && s in seqs
    ensures Zeros(seqs) > 0 <==> 0 in seqs
  {
    if seqs != [] {
      NonzeroMembers(seqs[..|seqs| - 1]);
    }
  }

  /** What one conversation adds: its messages without a number, then perhaps all messages stored. */
  lemma PushOneAdds(st: PushState, c: string, msgs: seq<int>)
    ensures var st', online := PushOne(st, c, msgs), st.history + OnlineEvents(c, Zeros(msgs));
            st'.history == online || st'.history == online + [Triggered(c, st'.storage)]
  {
    hide Nonzero, Zeros, Tag, Fills, OnlineEvents;
  }

  lemma AddsCarried(h: seq<Event>, h': seq<Event>, h'': seq<Event>, c: string, n: nat, storage: seq<Msg>,
      pushes: map<string, seq<int>>)
    requires OnlyCarried(h, h', pushes) && c in pushes && (n > 0 ==> 0 in pushes[c])
    requires forall x <- storage :: Carried(x, pushes)
    requires h'' == h' + OnlineEvents(c, n) || h'' == h' + OnlineEvents(c, n) + [Triggered(c, storage)]
    ensures OnlyCarried(h, h'', pushes)
  {
    hide Carried, SmallRequest;
    assert OfPush(Triggered(c, storage), pushes);
  }

  lemma {:induction false} PushedInCarried(m: Cursors, h: seq<Event>, order: seq<string>, keys: set<string>,
      pushes: map<string, seq<int>>)
    requires IsOrder(order, keys) && keys <= pushes.Keys
    ensures var st := PushedIn(m, h, order, pushes);
            OnlyCarried(h, st.history, pushes) && forall x <- st.storage :: Carried(x, pushes)
    decreases |order|
  {
    hide IsOrder, PushOne, OnlyCarried;
    if order == [] {
      NothingAdded(h, pushes);
    } else {
      FrontOrder(order, keys);
      var front, c := order[..|order| - 1], order[|order| - 1];
      PushedInCarried(m, h, front, keys - {c}, pushes);
      var st := PushedIn(m, h, front, pushes);
      var st' := PushOne(st, c, pushes[c]);
      StoredCarried(st, c, pushes);
      PushOneAdds(st, c, pushes[c]);
      NonzeroMembers(pushes[c]);
      AddsCarried(h, st.history, st'.history, c, Zeros(pushes[c]), st'.storage, pushes);
    }
  }

  lemma NothingAdded(h: seq<Event>, pushes: map<string, seq<int>>)
    ensures OnlyCarried(h, h, pushes)
  {
  }

  lemma StoredCarried(st: PushState, c: string, pushes: map<string, seq<int>>)
    requires c in pushes && forall x <- st.storage :: Carried(x, pushes)
    ensures forall x <- PushOne(st, c, pushes[c]).storage :: Carried(x, pushes)
  {
    NonzeroMembers(pushes[c]);
    PushOneParts(st, c, pushes[c]);
    hide PushOne, Nonzero, Zeros, Fills;
  }

  lemma {:induction false} OnlineCount(c: string, n: nat, k: string)
    ensures multiset(OnlineEvents(c, n))[Online(k)] == if k == c then n else 0
  {
    if n > 0 {
      OnlineCount(c, n - 1, k);
      assert OnlineEvents(c, n) == OnlineEvents(c, n - 1) + [Online(c)];
    }
  }

  lemma {:induction false} PushedInOnline(m: Cursors, h: seq<Event>, order: seq<string>, keys: set<string>,
      pushes: map<string, seq<int>>, k: string)
    requires IsOrder(order, keys)
    ensures multiset(PushedIn(m, h, order, pushes).history)[Online(k)]
         == multiset(h)[Online(k)] + if k in keys then Zeros(PushedFor(pushes, k)) else 0
    decreases |order|
  {
    hide PushOne, Zeros;
    if order != [] {
      FrontOrder(order, keys);
      var front, c := order[..|order| - 1], order[|order| - 1];
      PushedInOnline(m, h, front, keys - {c}, pushes, k);
      hide IsOrder;
      PushOneAdds(PushedIn(m, h, front, pushes), c, PushedFor(pushes, c));
      OnlineCount(c, Zeros(PushedFor(pushes, c)), k);
    }
  }

  lemma PushedInOnlineOnce(m: Cursors, h: seq<Event>, order: seq<string>, pushes: map<string, seq<int>>)
    requires IsOrder(order, pushes.Keys)
    ensures OnlineOnce(h, PushedIn(m, h, order, pushes).history, pushes)
  {
    hide IsOrder, PushedIn, Zeros;
    assert Zeros([]) == 0 by { NonzeroMembers([]); }
    var h' := PushedIn(m, h, order, pushes).history;
    forall c
      ensures multiset(h')[Online(c)] == multiset(h)[Online(c)] + Zeros(PushedFor(pushes, c))
    {
      PushedInOnline(m, h, order, pushes.Keys, pushes, c);
    }
  }

  /** The requests that follow change nothing about it. */
  lemma RequestsAfter(h: seq<Event>, h1: seq<Event>, h2: seq<Event>, pushes: map<string, seq<int>>)
    requires PassesOn(h, h1, pushes) && OnlySmall(h1, h2)
    ensures PassesOn(h, h2, pushes)
  {
    hide Zeros, Listed, SmallOrder, Carried;
    forall i | |h| <= i < |h2|
      ensures OfPush(h2[i], pushes)
    {
      assert i < |h1| ==> h2[i] == h1[i];
    }
    assert h2 == h1 + h2[|h1|..];
    forall c
      ensures multiset(h2)[Online(c)] == multiset(h1)[Online(c)]
    {
      assert Online(c) !in h2[|h1|..];
    }
  }

  // ---------- Exactly what is passed on, and what is queued ----------

  /** The messages stored when the conversations in the order have been met. */
  function StoredBy(order: seq<string>, pushes: map<string, seq<int>>): seq<Msg> {
    if order == [] then []
    else
      var c := order[|order| - 1];
      StoredBy(order[..|order| - 1], pushes) + Tag(c, Nonzero(PushedFor(pushes, c)))
  }

  /** The last conversation is passed on: its last number is cursor + count of all stored. */
  predicate Complete(order: seq<string>, pushes: map<string, seq<int>>, m: Cursors) {
    && order != [] && LastOf(order, pushes) != 0
    && LastOf(order, pushes) == CursorOf(m, order[|order| - 1]) + |StoredBy(order, pushes)|
  }

  /** What is passed on: messages without a number one by one, and all stored ones with each conversation
      that is complete. */
  function EventsOf(order: seq<string>, pushes: map<string, seq<int>>, m: Cursors): seq<Event> {
    if order == [] then []
    else
      var c := order[|order| - 1];
      EventsOf(order[..|order| - 1], pushes, m) + OnlineEvents(c, Zeros(PushedFor(pushes, c)))
      + if Complete(order, pushes, m) then [Triggered(c, StoredBy(order, pushes))] else []
  }

  /** The cursors behind what was passed on. */
  function PassedTo(order: seq<string>, pushes: map<string, seq<int>>, m: Cursors): Cursors {
    if order == [] then m
    else
      var before := PassedTo(order[..|order| - 1], pushes, m);
      if Complete(order, pushes, m) then before[order[|order| - 1] := LastOf(order, pushes)] else before
  }

  /** The ranges queued: from behind the cursor to the last number met, of each conversation that is not
      complete and whose cursor is below it. */
  function QueueOf(order: seq<string>, pushes: map<string, seq<int>>, m: Cursors): map<string, Range> {
    if order == [] then map[]
    else
      var c, last := order[|order| - 1], LastOf(order, pushes);
      var before := QueueOf(order[..|order| - 1], pushes, m);
      if !Complete(order, pushes, m) && last != 0 && last > CursorOf(m, c)
      then before[c := Range(CursorOf(m, c) + 1, last)] else before
  }

  lemma PushOneIs(st: PushState, c: string, msgs: seq<int>)
    ensures var own, cursor, st' := Nonzero(msgs), CursorOf(st.cursors, c), PushOne(st, c, msgs);
            var last := if own == [] then st.lastSeq else own[|own| - 1];
            var complete := last != 0 && last == cursor + |st'.storage|;
            && st'.lastSeq == last && st'.storage == st.storage + Tag(c, own)
            && st'.history == st.history + OnlineEvents(c, Zeros(msgs))
                              + (if complete then [Triggered(c, st'.storage)] else [])
            && st'.cursors == (if complete then st.cursors[c := last] else st.cursors)
            && st'.needSync == if !complete && last != 0 && last > cursor then st.needSync[c := Range(cursor + 1, last)]
                               else st.needSync
  {
    hide Nonzero, Zeros, Tag, Fills, OnlineEvents;
  }

  lemma {:induction false} PushedInIs(m: Cursors, h: seq<Event>, order: seq<string>, keys: set<string>,
      pushes: map<string, seq<int>>)
    requires IsOrder(order, keys) && keys <= pushes.Keys
    ensures var st := PushedIn(m, h, order, pushes);
            && st.lastSeq == LastOf(order, pushes) && st.storage == StoredBy(order, pushes)
            && st.history == h + EventsOf(order, pushes, m)
            && st.cursors == PassedTo(order, pushes, m) && st.needSync == QueueOf(order, pushes, m)
    decreases |order|
  {
    hide IsOrder, PushOne, Nonzero, Zeros, Tag, OnlineEvents, Tracks;
    if order != [] {
      FrontOrder(order, keys);
      var front, c := order[..|order| - 1], order[|order| - 1];
      PushedInIs(m, h, front, keys - {c}, pushes);
      var st := PushedIn(m, h, front, pushes);
      PushedInTracks(m, h, front, keys - {c}, pushes);
      NotYetTouched(st, front, pushes, m, c);
      PushOneIs(st, c, pushes[c]);
    }
  }

  /** What one half of a push does, in this order of its conversations and whichever pulls fail: first what
      is complete is passed on, then only what was queued is asked for, and only those cursors move on. */
  ghost predicate HalfOf(m: Cursors, h: seq<Event>, m': Cursors, h': seq<Event>, order: seq<string>, pushes: map<string, seq<int>>) {
    var passed := h + EventsOf(order, pushes, m);
    && PassesOn(h, h', pushes)
    && OnlyAsks(passed, h', QueueOf(order, pushes, m)) && FullButLast(passed, h', QueueOf(order, pushes, m))
    && (QueueOf(order, pushes, m) == map[] ==> h' == passed)
    && Untouched(PassedTo(order, pushes, m), m', QueueOf(order, pushes, m).Keys)
  }

  /** What the conversations after it do not change. */
  lemma {:induction false} EventsAt(order: seq<string>, keys: set<string>, pushes: map<string, seq<int>>, m: Cursors, j: nat)
    requires IsOrder(order, keys) && j < |order|
    ensures var c, upTo, events := order[j], order[..j + 1], EventsOf(order, pushes, m);
            if Complete(upTo, pushes, m) then Triggered(c, StoredBy(upTo, pushes)) in events
            else forall e <- events :: !(e.Triggered? && e.conversationID == c)
    decreases |order|
  {
    hide Complete, LastOf, StoredBy, IsOrder, Nonzero, Zeros;
    FrontOrder(order, keys);
    var front, last := order[..|order| - 1], order[|order| - 1];
    if j < |front| {
      EventsAt(front, keys - {last}, pushes, m, j);
      assert order[..j + 1] == front[..j + 1] && front[j] == order[j] && order[j] != last;
    } else {
      assert order[..j + 1] == order;
      NoEventsOf(front, keys - {last}, pushes, m, last);
    }
  }

  lemma {:induction false} NoEventsOf(order: seq<string>, keys: set<string>, pushes: map<string, seq<int>>, m: Cursors, c: string)
    requires IsOrder(order, keys) && c !in keys
    ensures forall e <- EventsOf(order, pushes, m) :: !(e.Triggered? && e.conversationID == c)
    decreases |order|
  {
    hide Complete, LastOf, StoredBy, IsOrder, Nonzero, Zeros;
    if order != [] {
      FrontOrder(order, keys);
      NoEventsOf(order[..|order| - 1], keys - {order[|order| - 1]}, pushes, m, c);
    }
  }

  lemma {:induction false} CursorAt(order: seq<string>, keys: set<string>, pushes: map<string, seq<int>>, m: Cursors, j: nat)
    requires IsOrder(order, keys) && j < |order|
    ensures var c, upTo, m' := order[j], order[..j + 1], PassedTo(order, pushes, m);
            Complete(upTo, pushes, m) ==> c in m' && m'[c] == LastOf(upTo, pushes)
    decreases |order|
  {
    hide Complete, LastOf, IsOrder;
    FrontOrder(order, keys);
    var front, last := order[..|order| - 1], order[|order| - 1];
    if j < |front| {
      CursorAt(front, keys - {last}, pushes, m, j);
      assert order[..j + 1] == front[..j + 1] && front[j] == order[j] && order[j] != last;
    } else {
      assert order[..j + 1] == order;
    }
  }

  lemma {:induction false} QueueAt(order: seq<string>, keys: set<string>, pushes: map<string, seq<int>>, m: Cursors, j: nat)
    requires IsOrder(order, keys) && j < |order|
    ensures var c, upTo, queue := order[j], order[..j + 1], QueueOf(order, pushes, m);
            var last := LastOf(upTo, pushes);
            && queue.Keys <= keys
            && (c in queue <==> !Complete(upTo, pushes, m) && last != 0 && last > CursorOf(m, c))
            && (c in queue ==> queue[c] == Range(CursorOf(m, c) + 1, last))
    decreases |order|
  {
    hide Complete, LastOf, IsOrder;
    FrontOrder(order, keys);
    var front, last := order[..|order| - 1], order[|order| - 1];
    QueueKeys(front, keys - {last}, pushes, m);
    if j < |front| {
      QueueAt(front, keys - {last}, pushes, m, j);
      assert order[..j + 1] == front[..j + 1] && front[j] == order[j] && order[j] != last;
    } else {
      assert order[..j + 1] == order;
    }
  }

  lemma {:induction false} QueueKeys(order: seq<string>, keys: set<string>, pushes: map<string, seq<int>>, m: Cursors)
    requires IsOrder(order, keys)
    ensures QueueOf(order, pushes, m).Keys <= keys
    decreases |order|
  {
    hide Complete, LastOf, IsOrder;
    if order != [] {
      FrontOrder(order, keys);
      QueueKeys(order[..|order| - 1], keys - {order[|order| - 1]}, pushes, m);
    }
  }

  /** In a push of any conversations, a conversation whose last number is cursor + count of all stored is
      passed on with exactly the messages stored, and its cursor moves there, whichever pulls fail; no other
      conversation is passed on. */
  lemma PassedOnIff(m: Cursors, h: seq<Event>, m': Cursors, h': seq<Event>, order: seq<string>,
      pushes: map<string, seq<int>>, j: nat)
    requires HalfOf(m, h, m', h', order, pushes) && IsOrder(order, pushes.Keys) && j < |order|
    ensures h <= h'
    ensures var c, upTo := order[j], order[..j + 1];
            var stored := StoredBy(upTo, pushes);
            if LastOf(upTo, pushes) != 0 && LastOf(upTo, pushes) == CursorOf(m, c) + |stored| then
              && Triggered(c, stored) in h'[|h|..] && c in m' && m'[c] == LastOf(upTo, pushes)
            else
              forall e <- h'[|h|..] :: !(e.Triggered? && e.conversationID == c)
  {
    EventsAt(order, pushes.Keys, pushes, m, j);
    CursorAt(order, pushes.Keys, pushes, m, j);
    QueueAt(order, pushes.Keys, pushes, m, j);
    var c, upTo, events := order[j], order[..j + 1], EventsOf(order, pushes, m);
    assert upTo[|upTo| - 1] == c;
    hide EventsOf, PassedTo, QueueOf, LastOf, StoredBy, PassesOn, IsOrder;
    AfterEvents(h, h', events, QueueOf(order, pushes, m));
  }

  lemma AfterEvents(h: seq<Event>, h': seq<Event>, events: seq<Event>, queue: map<string, Range>)
    requires OnlyAsks(h + events, h', queue)
    ensures h <= h' && forall e: Event :: !e.Pulled? ==> (e in h'[|h|..] <==> e in events)
  {
    hide Listed, SmallOrder, AsksWithin;
    var rest := h'[|h + events|..];
    assert h'[|h|..] == events + rest;
    assert forall i | 0 <= i < |rest| :: rest[i] == h'[|h + events| + i];
  }

  /** The push carries one conversation, and its numbers are those missing up to the last one, each once. */
  ghost predicate GapFree(pushes: map<string, seq<int>>, m: Cursors, c: string) {
    && pushes.Keys == {c}
    && var own := Nonzero(pushes[c]); own != [] && FillsInterval(own, CursorOf(m, c), own[|own| - 1])
  }

  /** Such a push is passed on in the order in which it came, and asks for nothing. */
  lemma GapFreeIsPassedOn(m: Cursors, h: seq<Event>, m': Cursors, h': seq<Event>, order: seq<string>,
      pushes: map<string, seq<int>>, c: string)
    requires HalfOf(m, h, m', h', order, pushes) && IsOrder(order, pushes.Keys) && GapFree(pushes, m, c)
    ensures var own := Nonzero(pushes[c]);
            && m' == m[c := own[|own| - 1]]
            && h' == h + OnlineEvents(c, Zeros(pushes[c])) + [Triggered(c, Tag(c, own))]
  {
    hide EventsOf, PassedTo, QueueOf, Nonzero, Zeros, Tag, OnlineEvents, FillsInterval, PassesOn, OnlyAsks, FullButLast, IsOrder, Untouched;
    LastIsCount(pushes[c], CursorOf(m, c));
    OneInOrder(order, c);
    OneHalf(c, pushes, m);
    UntouchedIsSame(PassedTo([c], pushes, m), m', QueueOf([c], pushes, m));
  }

  lemma LastIsCount(msgs: seq<int>, cursor: int)
    requires var own := Nonzero(msgs); own != [] && FillsInterval(own, cursor, own[|own| - 1])
    ensures var own := Nonzero(msgs); own[|own| - 1] != 0 && own[|own| - 1] == cursor + |own|
  {
    var own := Nonzero(msgs);
    NonzeroHasNoZero(msgs);
    assert own[|own| - 1] in own;
    LastAboveCursor(own, cursor);
    FillsLength(own, cursor, own[|own| - 1]);
    hide Nonzero, FillsInterval;
  }

  lemma OneHalf(c: string, pushes: map<string, seq<int>>, m: Cursors)
    requires c in pushes && Nonzero(pushes[c]) != []
    ensures var own := Nonzero(pushes[c]);
            var last, online := own[|own| - 1], OnlineEvents(c, Zeros(pushes[c]));
            if last != 0 && last == CursorOf(m, c) + |own| then
              && EventsOf([c], pushes, m) == online + [Triggered(c, Tag(c, own))]
              && PassedTo([c], pushes, m) == m[c := last] && QueueOf([c], pushes, m) == map[]
            else
              && EventsOf([c], pushes, m) == online && PassedTo([c], pushes, m) == m
              && QueueOf([c], pushes, m) == if last != 0 && last > CursorOf(m, c) then map[c := Range(CursorOf(m, c) + 1, last)]
                                            else map[]
  {
    hide Nonzero, Zeros, Tag, OnlineEvents, StoredBy, LastOf;
    TagLength(c, Nonzero(pushes[c]));
    OneStored(c, pushes);
    assert [c][..0] == [];
    NothingHandled(pushes, m);
  }

  lemma NothingHandled(pushes: map<string, seq<int>>, m: Cursors)
    ensures EventsOf([], pushes, m) == [] && PassedTo([], pushes, m) == m && QueueOf([], pushes, m) == map[]
  {
  }

  lemma OneStored(c: string, pushes: map<string, seq<int>>)
    requires c in pushes
    ensures StoredBy([c], pushes) == Tag(c, Nonzero(pushes[c]))
    ensures var own := Nonzero(pushes[c]); LastOf([c], pushes) == if own == [] then 0 else own[|own| - 1]
  {
    assert [c][..0] == [];
    assert StoredBy([], pushes) == [] && [] + Tag(c, Nonzero(pushes[c])) == Tag(c, Nonzero(pushes[c]));
    hide Nonzero, Tag;
  }

  lemma LastAboveCursor(own: seq<int>, cursor: int)
    requires own != [] && FillsInterval(own, cursor, own[|own| - 1])
    ensures cursor < own[|own| - 1]
  {
    DistinctCount(own, own[|own| - 1]);
  }

  lemma UntouchedIsSame(m: Cursors, m': Cursors, queue: map<string, Range>)
    requires Untouched(m, m', queue.Keys) && queue == map[]
    ensures m' == m
  {
  }

  // ---------- Where the cursors are in the end ----------

  /** When everything queued is pulled, each conversation is at the last number met so far, or where it
      was if that is not above its cursor. */
  function Arrival(order: seq<string>, pushes: map<string, seq<int>>, m: Cursors): Cursors {
    if order == [] then m
    else
      var c, last := order[|order| - 1], LastOf(order, pushes);
      var before := Arrival(order[..|order| - 1], pushes, m);
      if last != 0 && last > CursorOf(m, c) then before[c := last] else before
  }

  lemma PushOneArrives(st: PushState, c: string, msgs: seq<int>)
    requires c !in st.needSync
    ensures var st' := PushOne(st, c, msgs);
            st'.cursors + Ends(st'.needSync)
            == if st'.lastSeq != 0 && st'.lastSeq > CursorOf(st.cursors, c)
               then (st.cursors + Ends(st.needSync))[c := st'.lastSeq] else st.cursors + Ends(st.needSync)
  {
    hide Nonzero, Zeros, Tag, Fills, OnlineEvents;
  }

  lemma {:induction false} PushedInArrives(m: Cursors, h: seq<Event>, order: seq<string>, keys: set<string>,
      pushes: map<string, seq<int>>)
    requires IsOrder(order, keys) && keys <= pushes.Keys
    ensures var st := PushedIn(m, h, order, pushes); st.cursors + Ends(st.needSync) == Arrival(order, pushes, m)
    decreases |order|
  {
    hide IsOrder, PushOne, Ends, LastOf;
    if order == [] {
      NothingQueued(m);
    } else {
      FrontOrder(order, keys);
      var front, c := order[..|order| - 1], order[|order| - 1];
      PushedInArrives(m, h, front, keys - {c}, pushes);
      var st := PushedIn(m, h, front, pushes);
      PushedInTracks(m, h, front, keys - {c}, pushes);
      PushedInTracks(m, h, order, keys, pushes);
      NotYetTouched(st, front, pushes, m, c);
      PushOneArrives(st, c, pushes[c]);
    }
  }

  lemma NothingQueued(m: Cursors)
    ensures m + Ends(map[]) == m
  {
  }

  lemma NotYetTouched(st: PushState, order: seq<string>, pushes: map<string, seq<int>>, m: Cursors, c: string)
    requires Tracks(st, order, pushes, m) && c !in order
    ensures c !in st.needSync && CursorOf(st.cursors, c) == CursorOf(m, c)
  {
    hide LastOf, CountOf, MistakesOf;
  }

  /** Each conversation ends at the last number met when it was handled, if that is above its cursor, and
      stays otherwise. */
  lemma {:induction false} ArrivalIs(order: seq<string>, keys: set<string>, pushes: map<string, seq<int>>, m: Cursors, j: nat)
    requires IsOrder(order, keys) && j < |order|
    ensures var c, last, m' := order[j], LastOf(order[..j + 1], pushes), Arrival(order, pushes, m);
            if last != 0 && last > CursorOf(m, c) then c in m' && m'[c] == last
            else (c in m' <==> c in m) && (c in m ==> m'[c] == m[c])
    decreases |order|
  {
    hide LastOf, IsOrder;
    FrontOrder(order, keys);
    var front, c := order[..|order| - 1], order[|order| - 1];
    if j < |front| {
      ArrivalIs(front, keys - {c}, pushes, m, j);
      assert order[..j + 1] == front[..j + 1] && front[j] == order[j] && order[j] != c;
    } else {
      assert order[..j + 1] == order;
      ArrivalElsewhere(front, keys - {c}, pushes, m, c);
    }
  }

  /** No other conversation moves. */
  lemma {:induction false} ArrivalElsewhere(order: seq<string>, keys: set<string>, pushes: map<string, seq<int>>, m: Cursors, c: string)
    requires IsOrder(order, keys) && c !in keys
    ensures var m' := Arrival(order, pushes, m); (c in m' <==> c in m) && (c in m ==> m'[c] == m[c])
    decreases |order|
  {
    hide LastOf, IsOrder;
    if order != [] {
      FrontOrder(order, keys);
      ArrivalElsewhere(order[..|order| - 1], keys - {order[|order| - 1]}, pushes, m, c);
    }
  }

  /** Strictly increasing numbers above the cursor of one conversation move it to the last of them. */
  lemma RisingArrives(c: string, pushes: map<string, seq<int>>, m: Cursors, order: seq<string>)
    requires pushes.Keys == {c} && IsOrder(order, {c}) && Rising(pushes[c], CursorOf(m, c))
    ensures var own := Nonzero(pushes[c]); own != [] && Arrival(order, pushes, m) == m[c := own[|own| - 1]]
  {
    OneInOrder(order, c);
    NonzeroHasNoZero(pushes[c]);
    var own := Nonzero(pushes[c]);
    assert order[..0] == [] && own[|own| - 1] in own;
    AscendingGrowth(own, CursorOf(m, c), |own| - 1);
    hide Nonzero, IsOrder;
  }
}
