/** The three numbers kept for a conversation, and how snapshots, new messages, read notifications of the
    user's devices, and messages marked as read on this device change them: the recorder, the number up
    to which the user has read, and the unread count. */
module UnreadAccounting {

  datatype Account = Account(recorder: int, hasRead: int, unread: int)

  function Clamp(n: int): int {
    if n < 0 then 0 else n
  }

  function Max(a: int, b: int): int {
    if a > b then a else b
  }

  datatype Event =
    | Snapshot(maxSeq: int, hasReadSeq: int)
    | NewMessage(seq_: int)
    | OwnRead(hasReadSeq: int)
    | ReadHere(count: nat)
    | ReadAllHere

  function Step(a: Account, e: Event): Account {
    match e
    case Snapshot(maxSeq, hasReadSeq) => Account(maxSeq, hasReadSeq, Clamp(maxSeq - hasReadSeq))
    case NewMessage(seq_) =>
      if seq_ > a.recorder then a.(recorder := a.recorder + 1, unread := a.unread + 1) else a
    case OwnRead(hasReadSeq) =>
      if hasReadSeq > a.hasRead then a.(hasRead := hasReadSeq, unread := Clamp(a.unread - (hasReadSeq - a.hasRead)))
      else a
    case ReadHere(count) => a.(unread := Clamp(a.unread - count))
    case ReadAllHere => a.(unread := 0)
  }

  function Run(a: Account, events: seq<Event>): Account {
    if events == [] then a else Step(Run(a, events[..|events| - 1]), events[|events| - 1])
  }

  // ---------- Read notifications commute ----------

  function MaxRead(hasRead: int, tips: seq<int>): int {
    if tips == [] then hasRead else Max(MaxRead(hasRead, tips[..|tips| - 1]), tips[|tips| - 1])
  }

  function Reads(tips: seq<int>): seq<Event> {
    seq(|tips|, i requires 0 <= i < |tips| => OwnRead(tips[i]))
  }

  /** Any read notifications, repeated or out of order, leave the highest number read, and take from the
      unread count, never below zero, as many as that number has grown. */
  lemma {:induction false} ReadsClosedForm(a: Account, tips: seq<int>)
    requires a.unread >= 0
    ensures var b := Run(a, Reads(tips));
            && b.recorder == a.recorder
            && b.hasRead == MaxRead(a.hasRead, tips)
            && b.unread == Clamp(a.unread - (b.hasRead - a.hasRead))
            && b.hasRead >= a.hasRead
  {
    if tips != [] {
      var front := tips[..|tips| - 1];
      ReadsClosedForm(a, front);
      assert Reads(tips)[..|tips| - 1] == Reads(front);
    }
  }

  function Heres(counts: seq<nat>): seq<Event> {
    seq(|counts|, i requires 0 <= i < |counts| => ReadHere(counts[i]))
  }

  function SumOf(counts: seq<nat>): nat {
    if counts == [] then 0 else SumOf(counts[..|counts| - 1]) + counts[|counts| - 1]
  }

  /** Messages marked as read here, in any portions, take as many off the unread count, never below zero, and
      nothing else changes. */
  lemma {:induction false} HereClosedForm(a: Account, counts: seq<nat>)
    requires a.unread >= 0
    ensures Run(a, Heres(counts))
         == a.(unread := if a.unread >= SumOf(counts) then a.unread - SumOf(counts) else 0)
  {
    if counts != [] {
      var front := counts[..|counts| - 1];
      HereClosedForm(a, front);
      assert Heres(counts)[..|counts| - 1] == Heres(front);
    }
  }

  lemma {:induction false} MaxReadIs(hasRead: int, tips: seq<int>)
    ensures MaxRead(hasRead, tips) >= hasRead && forall t <- tips :: MaxRead(hasRead, tips) >= t
    ensures MaxRead(hasRead, tips) == hasRead || MaxRead(hasRead, tips) in tips
  {
    if tips != [] {
      MaxReadIs(hasRead, tips[..|tips| - 1]);
      assert forall t <- tips :: t in tips[..|tips| - 1] || t == tips[|tips| - 1];
    }
  }

  /** Lists of notifications with the same elements, however ordered and repeated, have the same effect. */
  lemma ReadsCommute(a: Account, tips: seq<int>, other: seq<int>)
    requires a.unread >= 0 && forall t :: t in tips <==> t in other
    ensures Run(a, Reads(tips)) == Run(a, Reads(other))
  {
    ReadsClosedForm(a, tips);
    ReadsClosedForm(a, other);
    MaxReadIs(a.hasRead, tips);
    MaxReadIs(a.hasRead, other);
    hide Run, MaxRead;
  }

  // ---------- The unread count agrees with the other two ----------

  predicate Agrees(a: Account) {
    a.unread == Clamp(a.recorder - a.hasRead)
  }

  /** A message is counted although the user has read past everything counted so far, or unread messages
      are marked as read on this device, which does not record how far the user has read. */
  predicate Breaks(a: Account, e: Event) {
    || (e.NewMessage? && e.seq_ > a.recorder && a.recorder < a.hasRead)
    || (e.ReadHere? && e.count > 0 && a.unread > 0)
    || (e.ReadAllHere? && a.unread > 0)
  }

  lemma AgreesStepIff(a: Account, e: Event)
    requires Agrees(a)
    ensures Agrees(Step(a, e)) <==> !Breaks(a, e)
  {
  }

  ghost predicate AlwaysAgrees(a: Account, events: seq<Event>) {
    forall n | 0 <= n <= |events| :: Agrees(Run(a, events[..n]))
  }

  ghost predicate NeverBroken(a: Account, events: seq<Event>) {
    forall n | 0 <= n < |events| :: !Breaks(Run(a, events[..n]), events[n])
  }

  /** From a state that agrees, such as any snapshot, the unread count is the recorder less the number
      read throughout a run exactly when no event of the run breaks that. */
  lemma {:induction false} AgreesThroughoutIff(a: Account, events: seq<Event>)
    requires Agrees(a)
    ensures AlwaysAgrees(a, events) <==> NeverBroken(a, events)
  {
    assert events[..0] == [];
    if events == [] {
      assert AlwaysAgrees(a, events);
    } else {
      var n := |events| - 1;
      AgreesThroughoutIff(a, events[..n]);
      PrefixesSplit(a, events);
      assert events[..n + 1] == events;
      if AlwaysAgrees(a, events[..n]) {
        assert events[..n][..n] == events[..n];
        assert Agrees(Run(a, events[..n]));
        AgreesStepIff(Run(a, events[..n]), events[n]);
      }
    }
  }

  lemma PrefixesSplit(a: Account, events: seq<Event>)
    requires events != []
    ensures var n := |events| - 1;
            && (AlwaysAgrees(a, events) <==> AlwaysAgrees(a, events[..n]) && Agrees(Run(a, events)))
            && (NeverBroken(a, events) <==> NeverBroken(a, events[..n]) && !Breaks(Run(a, events[..n]), events[n]))
  {
    var n := |events| - 1;
    assert forall k | 0 <= k <= n :: events[..n][..k] == events[..k];
    assert forall k | 0 <= k < n :: events[..n][k] == events[k];
    assert events[..|events|] == events;
    hide Run, Agrees, Breaks;
    if AlwaysAgrees(a, events) {
      forall k | 0 <= k <= n
        ensures Agrees(Run(a, events[..n][..k]))
      {
        assert events[..n][..k] == events[..k];
      }
    }
    if AlwaysAgrees(a, events[..n]) && Agrees(Run(a, events)) {
      forall k | 0 <= k <= n + 1
        ensures Agrees(Run(a, events[..k]))
      {
        if k <= n {
          assert events[..n][..k] == events[..k];
        }
      }
    }
    if NeverBroken(a, events) {
      forall k | 0 <= k < n
        ensures !Breaks(Run(a, events[..n][..k]), events[..n][k])
      {
        assert events[..n][..k] == events[..k];
      }
    }
    if NeverBroken(a, events[..n]) && !Breaks(Run(a, events[..n]), events[n]) {
      forall k | 0 <= k < |events|
        ensures !Breaks(Run(a, events[..k]), events[k])
      {
        if k < n {
          assert events[..n][..k] == events[..k];
        }
      }
    }
  }

  /** A message that was read on another device before it arrives here is counted as unread. */
  lemma ReadElsewhereFirst(m: int)
    ensures var events := [Snapshot(m, m), OwnRead(m + 1), NewMessage(m + 1)];
            Run(Account(0, 0, 0), events) == Account(m + 1, m + 1, 1)
  {
    var a := Account(0, 0, 0);
    var events := [Snapshot(m, m), OwnRead(m + 1), NewMessage(m + 1)];
    assert events[..2] == [Snapshot(m, m), OwnRead(m + 1)];
    assert events[..2][..1] == [Snapshot(m, m)];
    assert events[..2][..1][..0] == [];
    assert Run(a, [Snapshot(m, m)]) == Account(m, m, 0);
    assert Run(a, events[..2]) == Account(m, m + 1, 0);
  }

  /** A message marked as read here is taken off a second time when the notification of it comes back. */
  lemma ReadHereThenNotified(m: int)
    ensures var events := [Snapshot(m + 2, m), ReadHere(1), OwnRead(m + 1)];
            Run(Account(0, 0, 0), events) == Account(m + 2, m + 1, 0)
  {
    var a := Account(0, 0, 0);
    var events := [Snapshot(m + 2, m), ReadHere(1), OwnRead(m + 1)];
    assert events[..2] == [Snapshot(m + 2, m), ReadHere(1)];
    assert events[..2][..1] == [Snapshot(m + 2, m)];
    assert events[..2][..1][..0] == [];
    assert Run(a, [Snapshot(m + 2, m)]) == Account(m + 2, m, 2);
    assert Run(a, events[..2]) == Account(m + 2, m, 1);
  }

  /** Marking everything as read here is repaired by the notification of it. */
  lemma ReadAllThenNotified(a: Account)
    requires a.unread >= 0 && a.recorder > a.hasRead
    ensures Agrees(Step(Step(a, ReadAllHere), OwnRead(a.recorder)))
  {
  }
}
