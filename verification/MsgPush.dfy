/** What a push of messages does, conversation by conversation. The last sequence number and the
    stored messages are shared by all conversations of one push, as in the source. */
module MsgPush {
  import opened MsgHistory
  import opened SeqLists

  datatype PushState = PushState(
    cursors: Cursors, history: seq<Event>, needSync: map<string, Range>,
    lastSeq: int, storage: seq<Msg>,
    /** Conversations whose stored messages passed the test without being exactly the missing ones. */
    inexact: set<string>)

  function Nonzero(seqs: seq<int>): seq<int> {
    if seqs == [] then []
    else
      var last := seqs[|seqs| - 1];
      Nonzero(seqs[..|seqs| - 1]) + if last == 0 then [] else [last]
  }

  function Zeros(seqs: seq<int>): nat {
    if seqs == [] then 0
    else Zeros(seqs[..|seqs| - 1]) + if seqs[|seqs| - 1] == 0 then 1 else 0
  }

  function Tag(c: string, seqs: seq<int>): seq<Msg> {
    seq(|seqs|, i requires 0 <= i < |seqs| => Msg(c, seqs[i]))
  }

  lemma {:induction false} TagCount(c: string, seqs: seq<int>, s: int)
    ensures multiset(Tag(c, seqs))[Msg(c, s)] == multiset(seqs)[s]
  {
    if seqs != [] {
      var front, last := seqs[..|seqs| - 1], seqs[|seqs| - 1];
      TagCount(c, front, s);
      assert seqs == front + [last];
      assert Tag(c, seqs) == Tag(c, front) + [Msg(c, last)];
    }
  }

  function OnlineEvents(c: string, n: nat): seq<Event> {
    seq(n, _ => Online(c))
  }

  lemma {:induction false} OnlineDeliversNothing(h: seq<Event>, k: string, n: nat, c: string, s: int)
    ensures Deliveries(h + OnlineEvents(k, n), c, s) == Deliveries(h, c, s)
  {
    if n == 0 {
      assert h + OnlineEvents(k, 0) == h;
    } else {
      OnlineDeliversNothing(h, k, n - 1, c, s);
      OneMore(h + OnlineEvents(k, n - 1), Online(k), c, s);
      assert h + OnlineEvents(k, n) == (h + OnlineEvents(k, n - 1)) + [Online(k)];
    }
  }

  /** Among the stored messages, those of conversation c are the numbers above lo up to hi, once each. */
  ghost predicate Fills(storage: seq<Msg>, c: string, lo: int, hi: int) {
    forall s :: multiset(storage)[Msg(c, s)] == if lo < s <= hi then 1 else 0
  }

  /** The push loop's body for one conversation. */
  ghost function PushOne(st: PushState, c: string, msgs: seq<int>): PushState {
    var own := Nonzero(msgs);
    var lastSeq := if own == [] then st.lastSeq else own[|own| - 1];
    var storage := st.storage + Tag(c, own);
    var history := st.history + OnlineEvents(c, Zeros(msgs));
    var cursor := CursorOf(st.cursors, c);
    if lastSeq == cursor + |storage| && lastSeq != 0 then
      PushState(st.cursors[c := lastSeq], history + [Triggered(c, storage)], st.needSync, lastSeq, storage,
                if Fills(storage, c, cursor, lastSeq) then st.inexact else st.inexact + {c})
    else if lastSeq != 0 && lastSeq > cursor then
      PushState(st.cursors, history, st.needSync[c := Range(cursor + 1, lastSeq)], lastSeq, storage, st.inexact)
    else
      PushState(st.cursors, history, st.needSync, lastSeq, storage, st.inexact)
  }

  /** What holds after any part of the conversations has been handled. */
  ghost predicate PushInv(m: Cursors, h: seq<Event>, st: PushState, remaining: set<string>) {
    && Exact(m, h, st.cursors, st.history, st.inexact)
    && Covers(m, h, st.cursors, st.history, st.inexact)
    && Aligned(st.cursors, st.needSync)
    && st.needSync.Keys !! remaining
  }

  lemma OnlineStep(m: Cursors, h: seq<Event>, st: PushState, remaining: set<string>, c: string, n: nat)
    requires PushInv(m, h, st, remaining)
    ensures PushInv(m, h, st.(history := st.history + OnlineEvents(c, n)), remaining)
  {
    var h' := st.history + OnlineEvents(c, n);
    forall k, s
      ensures Deliveries(h', k, s) == Deliveries(st.history, k, s)
    {
      OnlineDeliversNothing(st.history, c, n, k, s);
    }
    hide Deliveries;
  }

  lemma TriggerExact(m: Cursors, h: seq<Event>, c: string, storage: seq<Msg>, lastSeq: int)
    requires CursorOf(m, c) <= lastSeq
    ensures var x := if Fills(storage, c, CursorOf(m, c), lastSeq) then {} else {c};
            && Exact(m, h, m[c := lastSeq], h + [Triggered(c, storage)], x)
            && Covers(m, h, m[c := lastSeq], h + [Triggered(c, storage)], x)
  {
    hide Deliveries;
    var e := Triggered(c, storage);
    forall k, s
      ensures Deliveries(h + [e], k, s)
           == Deliveries(h, k, s) + if k == c then multiset(storage)[Msg(c, s)] else 0
    {
      OneMore(h, e, k, s);
    }
  }

  lemma WeakerExcept(m: Cursors, h: seq<Event>, m': Cursors, h': seq<Event>, x: set<string>, y: set<string>)
    requires x <= y
    ensures Exact(m, h, m', h', x) ==> Exact(m, h, m', h', y)
    ensures Covers(m, h, m', h', x) ==> Covers(m, h, m', h', y)
  {
    hide Deliveries;
  }

  lemma TriggerStep(m: Cursors, h: seq<Event>, st: PushState, remaining: set<string>,
                    c: string, storage: seq<Msg>, lastSeq: int, st': PushState)
    requires PushInv(m, h, st, remaining) && c in remaining && CursorOf(st.cursors, c) <= lastSeq
    requires st'.cursors == st.cursors[c := lastSeq] && st'.history == st.history + [Triggered(c, storage)]
    requires st'.needSync == st.needSync
    requires st'.inexact == if Fills(storage, c, CursorOf(st.cursors, c), lastSeq) then st.inexact
                            else st.inexact + {c}
    ensures PushInv(m, h, st', remaining - {c})
  {
    var x := if Fills(storage, c, CursorOf(st.cursors, c), lastSeq) then {} else {c};
    TriggerExact(st.cursors, st.history, c, storage, lastSeq);
    hide Fills, Exact, Covers;
    WeakerExcept(st.cursors, st.history, st'.cursors, st'.history, x, st'.inexact);
    ExactTransitive(m, h, st.cursors, st.history, st'.cursors, st'.history, st.inexact, st'.inexact);
    CoversTransitive(m, h, st.cursors, st.history, st'.cursors, st'.history, st.inexact, st'.inexact);
  }

  lemma QueueStep(m: Cursors, h: seq<Event>, st: PushState, remaining: set<string>,
                  c: string, lastSeq: int, st': PushState)
    requires PushInv(m, h, st, remaining) && c in remaining && CursorOf(st.cursors, c) < lastSeq
    requires st'.cursors == st.cursors && st'.history == st.history && st'.inexact == st.inexact
    requires st'.needSync == st.needSync[c := Range(CursorOf(st.cursors, c) + 1, lastSeq)]
    ensures PushInv(m, h, st', remaining - {c})
  {
    hide Exact, Covers;
  }

  lemma PushStep(m: Cursors, h: seq<Event>, st: PushState, remaining: set<string>, c: string, msgs: seq<int>)
    requires PushInv(m, h, st, remaining) && c in remaining
    ensures PushInv(m, h, PushOne(st, c, msgs), remaining - {c})
    ensures st.inexact <= PushOne(st, c, msgs).inexact <= st.inexact + {c}
  {
    var st' := PushOne(st, c, msgs);
    var st1 := st.(history := st.history + OnlineEvents(c, Zeros(msgs)));
    hide PushInv, OnlineEvents, Nonzero, Zeros, Tag, Fills;
    OnlineStep(m, h, st, remaining, c, Zeros(msgs));
    var cursor := CursorOf(st.cursors, c);
    if st'.lastSeq == cursor + |st'.storage| && st'.lastSeq != 0 {
      TriggerStep(m, h, st1, remaining, c, st'.storage, st'.lastSeq, st');
    } else if st'.lastSeq != 0 && st'.lastSeq > cursor {
      QueueStep(m, h, st1, remaining, c, st'.lastSeq, st');
    } else {
      SameParts(m, h, st1, st', remaining, c);
    }
  }

  lemma SameParts(m: Cursors, h: seq<Event>, st: PushState, st': PushState, remaining: set<string>, c: string)
    requires PushInv(m, h, st, remaining)
    requires st'.cursors == st.cursors && st'.history == st.history
    requires st'.needSync == st.needSync && st'.inexact == st.inexact
    ensures PushInv(m, h, st', remaining - {c})
  {
    hide Exact, Covers, Aligned;
  }

  lemma OneMoreMessage(c: string, msgs: seq<int>, s: int)
    ensures Nonzero(msgs + [s]) == Nonzero(msgs) + if s == 0 then [] else [s]
    ensures Zeros(msgs + [s]) == Zeros(msgs) + if s == 0 then 1 else 0
    ensures OnlineEvents(c, Zeros(msgs) + 1) == OnlineEvents(c, Zeros(msgs)) + [Online(c)]
    ensures Tag(c, Nonzero(msgs) + [s]) == Tag(c, Nonzero(msgs)) + [Msg(c, s)]
    ensures Nonzero(msgs) + [] == Nonzero(msgs)
  {
    assert (msgs + [s])[..|msgs|] == msgs;
  }

  lemma PushInvParts(m: Cursors, h: seq<Event>, st: PushState)
    requires PushInv(m, h, st, {})
    ensures Exact(m, h, st.cursors, st.history, st.inexact)
    ensures Covers(m, h, st.cursors, st.history, st.inexact)
    ensures Aligned(st.cursors, st.needSync)
  {
  }

  // ---------- When a push leaves gaps ----------

  function StartState(m: Cursors, h: seq<Event>): PushState {
    PushState(m, h, map[], 0, [], {})
  }

  lemma StartHolds(m: Cursors, h: seq<Event>, remaining: set<string>)
    ensures PushInv(m, h, StartState(m, h), remaining)
  {
    hide Deliveries;
  }

  lemma TaggedFills(c: string, seqs: seq<int>, lo: int, hi: int)
    ensures Fills(Tag(c, seqs), c, lo, hi) <==> FillsInterval(seqs, lo, hi)
  {
    forall s
      ensures multiset(Tag(c, seqs))[Msg(c, s)] == multiset(seqs)[s]
    {
      TagCount(c, seqs, s);
    }
    hide Tag;
  }

  /** The numbers are distinct and lie above the cursor, none beyond the last one. */
  predicate FreshNumbers(seqs: seq<int>, cursor: int)
    requires seqs != []
  {
    Distinct(seqs) && forall i | 0 <= i < |seqs| :: cursor < seqs[i] <= seqs[|seqs| - 1]
  }

  function SingleInexact(c: string, msgs: seq<int>, cursor: int): set<string> {
    var own := Nonzero(msgs);
    if own != [] && own[|own| - 1] == cursor + |own| && !FreshNumbers(own, cursor) then {c} else {}
  }

  /** A push of one conversation is passed on although it is not exactly what was missing, just when
      the last number is cursor + count but the numbers are not distinct and in between. */
  lemma SinglePush(m: Cursors, h: seq<Event>, c: string, msgs: seq<int>)
    ensures PushOne(StartState(m, h), c, msgs).inexact == SingleInexact(c, msgs, CursorOf(m, c))
  {
    var own, cursor := Nonzero(msgs), CursorOf(m, c);
    FirstPush(m, h, c, msgs);
    if own != [] && own[|own| - 1] == cursor + |own| {
      FreshFills(c, own, cursor);
    }
    hide Nonzero, Tag, Fills, FreshNumbers, PushOne;
  }

  lemma FreshFills(c: string, seqs: seq<int>, cursor: int)
    requires seqs != [] && seqs[|seqs| - 1] == cursor + |seqs|
    ensures Fills(Tag(c, seqs), c, cursor, seqs[|seqs| - 1]) <==> FreshNumbers(seqs, cursor)
  {
    FillsIntervalIff(seqs, cursor, seqs[|seqs| - 1]);
    TaggedFills(c, seqs, cursor, seqs[|seqs| - 1]);
    hide Tag, Fills, FillsInterval, Distinct;
  }

  /** The first conversation of a push starts with nothing stored. */
  lemma FirstPush(m: Cursors, h: seq<Event>, c: string, msgs: seq<int>)
    ensures var own, cursor, st := Nonzero(msgs), CursorOf(m, c), PushOne(StartState(m, h), c, msgs);
            if own == [] then st.inexact == {}
            else
              var last := own[|own| - 1];
              if last == cursor + |own|
              then && st.cursors == m[c := last] && st.needSync == map[]
                   && st.inexact == if Fills(Tag(c, own), c, cursor, last) then {} else {c}
              else && st.cursors == m && st.inexact == {}
                   && st.needSync == if last > cursor then map[c := Range(cursor + 1, last)] else map[]
    ensures var own, st := Nonzero(msgs), PushOne(StartState(m, h), c, msgs);
            own != [] && own[|own| - 1] == CursorOf(m, c) + |own| ==>
              st.history == h + OnlineEvents(c, Zeros(msgs)) + [Triggered(c, Tag(c, own))]
  {
    var own := Nonzero(msgs);
    FirstStorage(c, own);
    NonzeroHasNoZero(msgs);
    assert own != [] ==> own[|own| - 1] in own;
    hide Nonzero, Zeros, Tag, Fills, OnlineEvents;
  }

  lemma FirstStorage(c: string, own: seq<int>)
    ensures [] + Tag(c, own) == Tag(c, own) && |Tag(c, own)| == |own|
  {
  }

  lemma {:induction false} NonzeroHasNoZero(seqs: seq<int>)
    ensures 0 !in Nonzero(seqs)
  {
    if seqs != [] {
      NonzeroHasNoZero(seqs[..|seqs| - 1]);
    }
  }

  /** A push of one conversation with strictly increasing numbers above the cursor is never inexact:
      it is passed on when it has no gap, and otherwise everything up to its last number is pulled. */
  lemma IncreasingPush(m: Cursors, h: seq<Event>, c: string, msgs: seq<int>)
    requires Ascending(Nonzero(msgs)) && (Nonzero(msgs) != [] ==> CursorOf(m, c) < Nonzero(msgs)[0])
    ensures var own, cursor, st := Nonzero(msgs), CursorOf(m, c), PushOne(StartState(m, h), c, msgs);
            && st.inexact == {}
            && (own != [] ==>
                  var last := own[|own| - 1];
                  if forall s | cursor < s <= last :: s in own
                  then st.cursors == m[c := last] && st.needSync == map[]
                  else st.cursors == m && st.needSync == map[c := Range(cursor + 1, last)])
  {
    var own, cursor := Nonzero(msgs), CursorOf(m, c);
    FirstPush(m, h, c, msgs);
    SinglePush(m, h, c, msgs);
    if own != [] {
      PushTestMeansNoGap(cursor, own);
      AscendingIsFresh(own, cursor);
      AscendingGrowth(own, cursor, |own| - 1);
    }
    hide Nonzero, Tag, Fills, FillsInterval, PushOne, Ascending, FreshNumbers;
  }

  /** The numbers of the push are strictly increasing and lie above the cursor, and there are some. */
  predicate Rising(msgs: seq<int>, cursor: int) {
    var own := Nonzero(msgs);
    own != [] && Ascending(own) && cursor < own[0]
  }

  lemma AscendingIsFresh(seqs: seq<int>, cursor: int)
    requires seqs != [] && Ascending(seqs) && cursor < seqs[0]
    ensures FreshNumbers(seqs, cursor)
  {
  }

  /** A repeated number can hide a missing one: with cursor 1, a push of 3 and 3 moves the cursor to
      3 although 2 was never passed on. */
  lemma RepeatedNumberHidesGap()
    ensures var st := PushOne(StartState(map["si_a" := 1], []), "si_a", [3, 3]);
            && st.cursors["si_a"] == 3 && st.needSync == map[]
            && Deliveries(st.history, "si_a", 2) == 0
  {
    var c := "si_a";
    TwoNumbers(c, 3, 3);
    FirstPush(map[c := 1], [], c, [3, 3]);
    hide *;
    PassedOn(c);
  }

  lemma TwoNumbers(c: string, a: int, b: int)
    requires a != 0 && b != 0
    ensures Nonzero([a]) == [a] && Zeros([a]) == 0
    ensures Nonzero([a, b]) == [a, b] && Zeros([a, b]) == 0
  {
    OneMoreMessage(c, [], a);
    OneMoreMessage(c, [a], b);
    assert [] + [a] == [a] && [a] + [b] == [a, b];
    assert Nonzero([]) == [] && Zeros([]) == 0;
    hide Nonzero, Zeros;
  }

  lemma PassedOn(c: string)
    ensures CursorOf(map[c := 1], c) == 1
    ensures Deliveries([] + OnlineEvents(c, 0) + [Triggered(c, Tag(c, [3, 3]))], c, 2) == 0
  {
    var e := Triggered(c, Tag(c, [3, 3]));
    assert Tag(c, [3, 3]) == [Msg(c, 3), Msg(c, 3)];
    assert [] + OnlineEvents(c, 0) + [e] == [] + [e];
    OneMore([], e, c, 2);
  }

  /** In a push of two conversations the second is compared with the messages of both: after 1 and 2
      of the first, a lone 3 of the second moves its cursor from 0 to 3. */
  lemma SecondConversationSkips()
    ensures var st := PushOne(PushOne(StartState(map[], []), "si_a", [1, 2]), "si_b", [3]);
            && st.cursors["si_b"] == 3 && st.needSync == map[]
            && Deliveries(st.history, "si_b", 1) == 0
  {
    var storage := [Msg("si_a", 1), Msg("si_a", 2)];
    var st1 := PushOne(StartState(map[], []), "si_a", [1, 2]);
    assert st1.cursors == map["si_a" := 2] && st1.storage == storage
           && st1.history == [Triggered("si_a", storage)] && st1.lastSeq == 2 && st1.needSync == map[] by {
      TwoNumbers("si_a", 1, 2);
      assert [] + Tag("si_a", [1, 2]) == storage;
      assert [] + OnlineEvents("si_a", 0) + [Triggered("si_a", storage)] == [Triggered("si_a", storage)];
    }
    hide Deliveries;
    SecondPush(st1);
  }

  lemma SecondPush(st1: PushState)
    requires st1.cursors == map["si_a" := 2] && st1.storage == [Msg("si_a", 1), Msg("si_a", 2)]
    requires st1.history == [Triggered("si_a", st1.storage)] && st1.lastSeq == 2 && st1.needSync == map[]
    ensures var st := PushOne(st1, "si_b", [3]);
            && "si_b" in st.cursors && st.cursors["si_b"] == 3 && st.needSync == map[]
            && Deliveries(st.history, "si_b", 1) == 0
  {
    var storage := st1.storage + [Msg("si_b", 3)];
    var e0, e := Triggered("si_a", st1.storage), Triggered("si_b", storage);
    TwoNumbers("si_b", 3, 3);
    assert Tag("si_b", [3]) == [Msg("si_b", 3)];
    assert st1.history + OnlineEvents("si_b", 0) == st1.history;
    var st := PushOne(st1, "si_b", [3]);
    assert st.history == st1.history + [e];
    OneMore(st1.history, e, "si_b", 1);
    OneMore([], e0, "si_b", 1);
    assert [] + [e0] == st1.history;
  }
}
