/** When a push of any number of conversations passes on what is not what was missing. All conversations
    of a push share the last number and the stored messages, so the order in which they are handled
    matters. */
module MsgMistakes {
  import opened MsgHistory
  import opened MsgPush
  import opened SeqLists

  /** The conversation's messages are passed on although they are not exactly what was missing: the last
      number met so far is cursor + count of all messages stored so far, but messages of earlier
      conversations are among them, or its own numbers are not distinct and in between. */
  predicate Mistaken(lastSeq: int, stored: nat, msgs: seq<int>, cursor: int) {
    var own := Nonzero(msgs);
    var last := if own == [] then lastSeq else own[|own| - 1];
    && last != 0 && last == cursor + stored + |own|
    && (stored > 0 || (own != [] && !FreshNumbers(own, cursor)))
  }

  predicate Foreign(storage: seq<Msg>, c: string) {
    forall x <- storage :: x.conversationID != c
  }

  lemma {:induction false} ForeignCount(storage: seq<Msg>, c: string, s: int)
    requires Foreign(storage, c)
    ensures multiset(storage)[Msg(c, s)] == 0
  {
    assert Msg(c, s) !in storage;
  }

  /** What the stored messages fill depends only on the conversation's own numbers. */
  lemma OwnFill(storage: seq<Msg>, c: string, own: seq<int>, lo: int, hi: int)
    requires Foreign(storage, c)
    ensures Fills(storage + Tag(c, own), c, lo, hi) <==> FillsInterval(own, lo, hi)
  {
    forall s
      ensures multiset(storage + Tag(c, own))[Msg(c, s)] == multiset(own)[s]
    {
      ForeignCount(storage, c, s);
      TagCount(c, own, s);
    }
    hide Tag, Foreign;
  }

  /** What one conversation changes in the state of a push. */
  lemma PushOneParts(st: PushState, c: string, msgs: seq<int>)
    ensures var own, cursor, st' := Nonzero(msgs), CursorOf(st.cursors, c), PushOne(st, c, msgs);
            var last := if own == [] then st.lastSeq else own[|own| - 1];
            && st'.lastSeq == last
            && st'.storage == st.storage + Tag(c, own)
            && (st'.cursors == st.cursors || st'.cursors == st.cursors[c := last])
            && (st'.needSync == st.needSync || st'.needSync == st.needSync[c := Range(cursor + 1, last)])
            && st'.inexact == (if last == cursor + |st'.storage| && last != 0 && !Fills(st'.storage, c, cursor, last)
                               then st.inexact + {c} else st.inexact)
  {
    hide Nonzero, Zeros, Tag, Fills, OnlineEvents;
  }

  /** The exact condition, for any state of a push that has stored no message of this conversation yet. */
  lemma MistakenIff(st: PushState, c: string, msgs: seq<int>)
    requires Foreign(st.storage, c)
    ensures PushOne(st, c, msgs).inexact
            == st.inexact + if Mistaken(st.lastSeq, |st.storage|, msgs, CursorOf(st.cursors, c)) then {c} else {}
  {
    var own, cursor := Nonzero(msgs), CursorOf(st.cursors, c);
    var last := if own == [] then st.lastSeq else own[|own| - 1];
    PushOneParts(st, c, msgs);
    TagLength(c, own);
    if last == cursor + |st.storage| + |own| {
      OwnFill(st.storage, c, own, cursor, last);
      FillsIff(|st.storage|, own, cursor, last);
    }
    hide PushOne, Nonzero, Tag, Fills, FillsInterval, FreshNumbers, Foreign;
  }

  lemma TagLength(c: string, own: seq<int>)
    ensures |Tag(c, own)| == |own|
    ensures forall i | 0 <= i < |own| :: Tag(c, own)[i] == Msg(c, own[i])
  {
  }

  lemma FillsIff(stored: nat, own: seq<int>, cursor: int, last: int)
    requires last == cursor + stored + |own| && (own != [] ==> last == own[|own| - 1])
    ensures FillsInterval(own, cursor, last) <==> stored == 0 && (own == [] || FreshNumbers(own, cursor))
  {
    if stored == 0 {
      FillsIntervalIff(own, cursor, last);
    } else if FillsInterval(own, cursor, last) {
      FillsLength(own, cursor, last);
    }
    hide FillsInterval;
  }

  // ---------- A whole push ----------

  function PushedFor(pushes: map<string, seq<int>>, c: string): seq<int> {
    if c in pushes then pushes[c] else []
  }

  /** The last number met in the conversations handled so far. */
  function LastOf(order: seq<string>, pushes: map<string, seq<int>>): int {
    if order == [] then 0
    else
      var own := Nonzero(PushedFor(pushes, order[|order| - 1]));
      if own == [] then LastOf(order[..|order| - 1], pushes) else own[|own| - 1]
  }

  /** How many numbered messages they have. */
  function CountOf(order: seq<string>, pushes: map<string, seq<int>>): nat {
    if order == [] then 0
    else CountOf(order[..|order| - 1], pushes) + |Nonzero(PushedFor(pushes, order[|order| - 1]))|
  }

  /** The conversations that are passed on by mistake when a push is handled in this order. */
  function MistakesOf(order: seq<string>, pushes: map<string, seq<int>>, m: Cursors): set<string> {
    if order == [] then {}
    else
      var front, c := order[..|order| - 1], order[|order| - 1];
      MistakesOf(front, pushes, m)
      + if Mistaken(LastOf(front, pushes), CountOf(front, pushes), PushedFor(pushes, c), CursorOf(m, c)) then {c} else {}
  }

  /** An order in which each of the conversations comes once. */
  ghost predicate IsOrder(order: seq<string>, keys: set<string>) {
    && (forall i, j | 0 <= i < j < |order| :: order[i] != order[j])
    && (forall c :: c in order <==> c in keys)
  }

  /** The state after the conversations in the order have been handled. */
  ghost predicate Tracks(st: PushState, order: seq<string>, pushes: map<string, seq<int>>, m: Cursors) {
    Totals(st, order, pushes, m) && Members(st, order, m)
  }

  ghost predicate Totals(st: PushState, order: seq<string>, pushes: map<string, seq<int>>, m: Cursors) {
    && st.lastSeq == LastOf(order, pushes)
    && |st.storage| == CountOf(order, pushes)
    && st.inexact == MistakesOf(order, pushes, m)
  }

  ghost predicate Members(st: PushState, order: seq<string>, m: Cursors) {
    && (forall x <- st.storage :: x.conversationID in order)
    && Untouched(m, st.cursors, set c | c in order)
    && st.needSync.Keys <= (set c | c in order)
  }

  lemma StartTracks(m: Cursors, h: seq<Event>, pushes: map<string, seq<int>>)
    ensures Tracks(StartState(m, h), [], pushes, m)
  {
  }

  lemma TracksStep(st: PushState, order: seq<string>, pushes: map<string, seq<int>>, m: Cursors, c: string)
    requires Tracks(st, order, pushes, m) && c !in order && c in pushes
    ensures Tracks(PushOne(st, c, pushes[c]), order + [c], pushes, m)
  {
    TotalsStep(st, order, pushes, m, c);
    MembersStep(st, order, m, c, pushes[c]);
    hide PushOne, Totals, Members;
  }

  lemma TotalsStep(st: PushState, order: seq<string>, pushes: map<string, seq<int>>, m: Cursors, c: string)
    requires Tracks(st, order, pushes, m) && c !in order && c in pushes
    ensures Totals(PushOne(st, c, pushes[c]), order + [c], pushes, m)
  {
    assert Foreign(st.storage, c);
    MistakenIff(st, c, pushes[c]);
    PushOneParts(st, c, pushes[c]);
    TagLength(c, Nonzero(pushes[c]));
    HandledOneMore(order, c, pushes, m);
    TouchedOneMore(m, st.cursors, st.cursors, order, c);
    hide PushOne, Nonzero, Tag, Mistaken, Foreign, Untouched, LastOf, CountOf, MistakesOf, Fills;
  }

  lemma MembersStep(st: PushState, order: seq<string>, m: Cursors, c: string, msgs: seq<int>)
    requires Members(st, order, m) && c !in order
    ensures Members(PushOne(st, c, msgs), order + [c], m)
  {
    PushOneParts(st, c, msgs);
    TagMembers(st.storage, c, Nonzero(msgs));
    TouchedOneMore(m, st.cursors, PushOne(st, c, msgs).cursors, order, c);
    assert (set k | k in order + [c]) == (set k | k in order) + {c};
    hide PushOne, Nonzero, Tag, Untouched, Fills;
  }

  lemma HandledOneMore(order: seq<string>, c: string, pushes: map<string, seq<int>>, m: Cursors)
    ensures var own := Nonzero(PushedFor(pushes, c));
            && LastOf(order + [c], pushes) == (if own == [] then LastOf(order, pushes) else own[|own| - 1])
            && CountOf(order + [c], pushes) == CountOf(order, pushes) + |own|
    ensures MistakesOf(order + [c], pushes, m)
            == MistakesOf(order, pushes, m)
               + if Mistaken(LastOf(order, pushes), CountOf(order, pushes), PushedFor(pushes, c), CursorOf(m, c)) then {c} else {}
    ensures (set k | k in order + [c]) == (set k | k in order) + {c}
    ensures forall k :: k in order + [c] <==> k in order || k == c
  {
    var more := order + [c];
    assert more[..|more| - 1] == order;
    hide Nonzero, Mistaken;
  }

  lemma TouchedOneMore(m: Cursors, before: Cursors, after: Cursors, order: seq<string>, c: string)
    requires Untouched(m, before, set k | k in order) && c !in order
    requires after.Keys == before.Keys || after.Keys == before.Keys + {c}
    requires forall k <- before :: k != c ==> after[k] == before[k]
    ensures Untouched(m, after, (set k | k in order) + {c})
    ensures CursorOf(before, c) == CursorOf(m, c)
  {
  }

  lemma TagMembers(storage: seq<Msg>, c: string, own: seq<int>)
    ensures forall x <- storage + Tag(c, own) :: x in storage || x.conversationID == c
  {
  }

  /** A push of one conversation: the condition is the one for a first conversation. */
  lemma MistakesOfOne(c: string, pushes: map<string, seq<int>>, m: Cursors, order: seq<string>)
    requires pushes.Keys == {c} && IsOrder(order, {c})
    ensures MistakesOf(order, pushes, m) == SingleInexact(c, pushes[c], CursorOf(m, c))
  {
    OneInOrder(order, c);
    assert order[..0] == [];
    NonzeroHasNoZero(pushes[c]);
    var own := Nonzero(pushes[c]);
    assert own != [] ==> own[|own| - 1] in own;
    hide Nonzero, FreshNumbers;
  }

  lemma OneInOrder(order: seq<string>, c: string)
    requires IsOrder(order, {c})
    ensures order == [c]
  {
    assert c in order;
    assert |order| > 1 ==> order[0] != order[1];
    assert forall i | 0 <= i < |order| :: order[i] in order;
  }

  lemma {:induction false} MistakesAreHandled(order: seq<string>, pushes: map<string, seq<int>>, m: Cursors)
    ensures forall c <- MistakesOf(order, pushes, m) :: c in order
  {
    if order != [] {
      MistakesAreHandled(order[..|order| - 1], pushes, m);
    }
  }

  /** The first conversation that has numbers is never mistaken when they are distinct, and any later one
      is exactly when its last number happens to be cursor + count of all. */
  lemma MistakenCases(lastSeq: int, stored: nat, msgs: seq<int>, cursor: int)
    requires Nonzero(msgs) != []
    ensures var own := Nonzero(msgs);
            var last := own[|own| - 1];
            && (stored > 0 ==> (Mistaken(lastSeq, stored, msgs, cursor) <==> last == cursor + stored + |own|))
            && (stored == 0 ==> (Mistaken(lastSeq, stored, msgs, cursor) <==> last == cursor + |own| && !FreshNumbers(own, cursor)))
  {
    NonzeroHasNoZero(msgs);
    var own := Nonzero(msgs);
    assert own[|own| - 1] in own;
    hide Nonzero, FreshNumbers;
  }
}
