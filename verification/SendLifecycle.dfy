/** The life of a sent message in the message table and the table of messages being sent.

    Any number of calls of SendMessage and of handlers of pushed messages run at the same time; between
    any two operations on the tables another of them may run, and the process may crash. Requests are
    answered, time out or fail as they like, and the server may push any message at any time. A message
    is named by its conversation and its client ID together. */
module SendLifecycle {

  type Thread = nat
  type Key = string

  datatype Status = Sending | SendSuccess | SendFailed | HasDeleted | Filtered

  /** A row of the message table; the number is 0 until the server has pushed the message back. */
  datatype Row = Row(status: Status, seq_: int)

  datatype Answer = Accepted | TimeOut | Refused

  /** Where a thread stands: it has looked the message up (and found it failed), has inserted its row,
      waits for the server, is about to check whether the message has come back after all, is about to
      record failure or success, or has recorded it. A handler of a pushed message has found the row
      unnumbered, or has found no row. */
  datatype Phase =
    | Looked(key: Key, failedBefore: bool)
    | Inserted(key: Key)
    | Waiting(key: Key)
    | TimedOut(key: Key)
    | Failing(key: Key)
    | Succeeding(key: Key)
    | Recorded(key: Key)
    | EchoFound(key: Key, status: Status, seq_: int)
    | EchoMissing(key: Key, status: Status, seq_: int)

  /** Besides the tables and the threads: whether the process is up, and the messages for which an
      operation failed, or the process crashed, between the two insertions. */
  datatype State = State(rows: map<Key, Row>, sending: set<Key>, threads: map<Thread, Phase>, up: bool, abandoned: set<Key>)

  datatype Action =
    | LookUp(t: Thread, key: Key)
    | InsertMessage(t: Thread)
    | InsertMessageFails(t: Thread)
    | InsertSending(t: Thread)
    | InsertSendingFails(t: Thread)
    | Unsupported(t: Thread)
    | Reply(t: Thread, answer: Answer)
    | Check(t: Thread)
    | Update(t: Thread)
    | UpdateFails(t: Thread)
    | Delete(t: Thread)
    | DeleteFails(t: Thread)
    | EchoLook(t: Thread, key: Key, status: Status, seq_: int)
    | EchoWrite(t: Thread)
    | Crash
    | Restart

  const INITIAL := State(map[], {}, map[], true, {})

  // ---------- The steps ----------

  /** The phase in which a thread takes the action. */
  predicate Ready(p: Phase, a: Action) {
    match a
    case InsertMessage(_) => p.Looked? && !p.failedBefore
    case InsertMessageFails(_) => p.Looked? && !p.failedBefore
    case InsertSending(_) => p.Inserted? || (p.Looked? && p.failedBefore)
    case InsertSendingFails(_) => p.Inserted? || (p.Looked? && p.failedBefore)
    case Unsupported(_) => p.Waiting?
    case Reply(_, _) => p.Waiting?
    case Check(_) => p.TimedOut?
    case Update(_) => p.Failing? || p.Succeeding?
    case UpdateFails(_) => p.Failing? || p.Succeeding?
    case Delete(_) => p.Recorded?
    case DeleteFails(_) => p.Recorded?
    case EchoWrite(_) => p.EchoFound? || p.EchoMissing?
    case _ => false
  }

  /** What the server pushes back has a number and is a success, or filtered when it does not update the
      conversation. */
  predicate Enabled(s: State, a: Action) {
    match a
    case LookUp(t, _) => s.up && t !in s.threads
    case EchoLook(t, _, status, seq_) => s.up && t !in s.threads && (status.SendSuccess? || status.Filtered?) && seq_ != 0
    case Crash => s.up
    case Restart => !s.up
    case _ => s.up && a.t in s.threads && Ready(s.threads[a.t], a)
  }

  function Ends(s: State, t: Thread): State {
    s.(threads := s.threads - {t})
  }

  function Goes(s: State, t: Thread, p: Phase): State {
    s.(threads := s.threads[t := p])
  }

  /** Login recovery: a listed message that is still being sent has failed, and the list is emptied. */
  function RecoveredRow(row: Row): Row {
    if row.status.Sending? then row.(status := SendFailed) else row
  }

  function RecoveredRows(rows: map<Key, Row>, listed: set<Key>): map<Key, Row> {
    map k | k in rows :: if k in listed then RecoveredRow(rows[k]) else rows[k]
  }

  /** UpdateMessageTimeAndStatus changes the row only while it has no number. */
  function Guarded(rows: map<Key, Row>, k: Key, status: Status): map<Key, Row> {
    if k in rows && rows[k].seq_ == 0 then rows[k := Row(status, 0)] else rows
  }

  lemma GuardedIs(rows: map<Key, Row>, k: Key, status: Status)
    ensures Guarded(rows, k, status).Keys == rows.Keys
    ensures forall j <- rows :: Guarded(rows, k, status)[j] == if j == k && rows[j].seq_ == 0 then Row(status, 0) else rows[j]
  {
  }

  ghost function Next(s: State, a: Action): State
    requires Enabled(s, a)
  {
    match a
    case LookUp(t, k) =>
      // a message that is there and has not failed is refused as repeated
      if k !in s.rows then Goes(s, t, Looked(k, false))
      else if s.rows[k].status.SendFailed? then Goes(s, t, Looked(k, true))
      else s
    case InsertMessage(t) =>
      var k := s.threads[t].key;
      if k in s.rows then Ends(s, t) else Goes(s, t, Inserted(k)).(rows := s.rows[k := Row(Sending, 0)])
    case InsertMessageFails(t) => Ends(s, t)
    case InsertSending(t) =>
      var k := s.threads[t].key;
      if k in s.sending then Ends(s, t) else Goes(s, t, Waiting(k)).(sending := s.sending + {k})
    case InsertSendingFails(t) =>
      var p := s.threads[t];
      Ends(s, t).(abandoned := if p.Inserted? then s.abandoned + {p.key} else s.abandoned)
    case Unsupported(t) => Ends(s, t)
    case Reply(t, answer) =>
      var k := s.threads[t].key;
      Goes(s, t, match answer case Accepted => Succeeding(k) case TimeOut => TimedOut(k) case Refused => Failing(k))
    case Check(t) =>
      var k := s.threads[t].key;
      Goes(s, t, if k in s.rows && s.rows[k].status.SendSuccess? then Succeeding(k) else Failing(k))
    case Update(t) =>
      var p := s.threads[t];
      Goes(s, t, Recorded(p.key)).(rows := Guarded(s.rows, p.key, if p.Failing? then SendFailed else SendSuccess))
    case UpdateFails(t) =>
      var k := s.threads[t].key;
      Goes(s, t, Recorded(k)).(abandoned := s.abandoned + {k})
    case Delete(t) => Ends(s, t).(sending := s.sending - {s.threads[t].key})
    case DeleteFails(t) => Ends(s, t)
    case EchoLook(t, k, status, seq_) =>
      if k !in s.rows then Goes(s, t, EchoMissing(k, status, seq_))
      else if s.rows[k].seq_ == 0 then Goes(s, t, EchoFound(k, status, seq_))
      else s
    case EchoWrite(t) =>
      var p := s.threads[t];
      if p.EchoMissing? && p.key in s.rows then Ends(s, t)
      else Ends(s, t).(rows := s.rows[p.key := Row(p.status, p.seq_)])
    case Crash =>
      s.(threads := map[], up := false, abandoned := s.abandoned + HalfInserted(s))
    case Restart =>
      s.(rows := RecoveredRows(s.rows, s.sending), sending := {}, up := true)
  }

  /** The messages between their two insertions. */
  ghost function HalfInserted(s: State): set<Key> {
    set t | t in s.threads && s.threads[t].Inserted? :: s.threads[t].key
  }

  // ---------- What every step keeps ----------

  predicate Settled(status: Status) {
    !status.Sending? && !status.SendFailed?
  }

  /** The thread owns the message: no other call of SendMessage works on it. */
  predicate Owner(p: Phase) {
    p.Inserted? || Holder(p)
  }

  predicate Holder(p: Phase) {
    p.Waiting? || p.TimedOut? || p.Failing? || p.Succeeding? || p.Recorded?
  }

  predicate RowInv(row: Row) {
    row.seq_ != 0 ==> Settled(row.status)
  }

  /** What a thread knows about its message. */
  ghost predicate PhaseInv(s: State, p: Phase) {
    && (p.Looked? && p.failedBefore ==> p.key in s.rows)
    && (Owner(p) ==> p.key in s.rows)
    && (Holder(p) ==> p.key in s.sending)
    && (p.Inserted? ==> p.key !in s.sending && !s.rows[p.key].status.SendFailed?)
    && (p.Recorded? ==> p.key in s.abandoned || !s.rows[p.key].status.Sending?)
    && (p.EchoFound? ==> p.key in s.rows)
    && (p.EchoFound? || p.EchoMissing? ==> p.seq_ != 0 && Settled(p.status))
  }

  predicate PairInv(p: Phase, q: Phase) {
    p.key == q.key ==> !(Owner(p) && Owner(q)) && !(p.Inserted? && q.Looked? && q.failedBefore)
  }

  ghost predicate ListInv(s: State, k: Key)
    requires k in s.rows
  {
    s.rows[k].status.Sending? ==> k in s.sending || k in s.abandoned || k in HalfInserted(s)
  }

  ghost predicate Rows(s: State) {
    s.sending <= s.rows.Keys && (forall k <- s.rows :: RowInv(s.rows[k]) && ListInv(s, k))
  }

  ghost predicate Phases(s: State) {
    forall t <- s.threads :: PhaseInv(s, s.threads[t])
  }

  ghost predicate Pairs(s: State) {
    forall t, u | t in s.threads && u in s.threads && t != u :: PairInv(s.threads[t], s.threads[u])
  }

  ghost predicate Inv(s: State) {
    && Rows(s) && Phases(s) && Pairs(s)
    && (!s.up ==> s.threads == map[])
  }

  lemma HalfInsertedHas(s: State, t: Thread)
    requires t in s.threads && s.threads[t].Inserted?
    ensures s.threads[t].key in HalfInserted(s)
  {
  }

  /** A row being sent stays listed, between its insertions, or abandoned. */
  lemma StepKeepsList(s: State, a: Action, k: Key)
    requires Inv(s) && Enabled(s, a) && k in Next(s, a).rows
    ensures ListInv(Next(s, a), k)
  {
    var s' := Next(s, a);
    if s'.rows[k].status.Sending? && k !in s'.sending && k !in s'.abandoned {
      if k in s.rows {
        assert RowInv(s.rows[k]) && ListInv(s, k);
        if a.Delete? {
          assert PhaseInv(s, s.threads[a.t]);
        }
        var t :| t in s.threads && s.threads[t] == Inserted(k);
        HalfInsertedHas(s', t);
      } else {
        HalfInsertedHas(s', a.t);
      }
    }
  }

  lemma StepKeepsRows(s: State, a: Action)
    requires Inv(s) && Enabled(s, a)
    ensures Rows(Next(s, a))
  {
    var s' := Next(s, a);
    forall k <- s'.rows
      ensures ListInv(s', k)
    {
      StepKeepsList(s, a, k);
    }
    hide ListInv, HalfInserted;
  }

  /** What the thread that moves knows afterwards. */
  lemma OwnPhaseKept(s: State, a: Action)
    requires Inv(s) && Enabled(s, a) && !a.Crash? && !a.Restart? && a.t in Next(s, a).threads
    ensures PhaseInv(Next(s, a), Next(s, a).threads[a.t])
  {
    hide ListInv, HalfInserted, Pairs;
  }

  /** What another thread knows stays true when a row changes. */
  lemma KnownThroughRows(s: State, a: Action, t: Thread)
    requires Inv(s) && Enabled(s, a) && (a.InsertMessage? || a.Update? || a.EchoWrite?)
    requires t != a.t && t in s.threads
    ensures PhaseInv(Next(s, a), s.threads[t])
  {
    assert PhaseInv(s, s.threads[t]) && PhaseInv(s, s.threads[a.t]) && PairInv(s.threads[t], s.threads[a.t]);
    hide ListInv, HalfInserted, RowInv, Phases, Pairs;
  }

  /** And when the list changes, or neither does. */
  lemma KnownThroughList(s: State, a: Action, t: Thread)
    requires Inv(s) && Enabled(s, a) && !a.InsertMessage? && !a.Update? && !a.EchoWrite? && !a.Crash? && !a.Restart?
    requires t != a.t && t in s.threads
    ensures PhaseInv(Next(s, a), s.threads[t])
  {
    assert PhaseInv(s, s.threads[t]);
    assert a.t in s.threads ==>
        PhaseInv(s, s.threads[a.t]) && PairInv(s.threads[t], s.threads[a.t]) && PairInv(s.threads[a.t], s.threads[t]);
    hide ListInv, HalfInserted, RowInv, Phases, Pairs, Rows;
  }

  lemma OtherPhaseKept(s: State, a: Action, t: Thread)
    requires Inv(s) && Enabled(s, a) && !a.Crash? && !a.Restart? && t != a.t && t in Next(s, a).threads
    ensures PhaseInv(Next(s, a), Next(s, a).threads[t])
  {
    OthersStay(s, a);
    hide Next, Enabled, PhaseInv;
    if a.InsertMessage? || a.Update? || a.EchoWrite? {
      KnownThroughRows(s, a, t);
    } else {
      KnownThroughList(s, a, t);
    }
  }

  lemma StepKeepsPhases(s: State, a: Action)
    requires Inv(s) && Enabled(s, a)
    ensures Phases(Next(s, a))
  {
    hide ListInv, HalfInserted, PhaseInv, Pairs, Rows;
    forall t <- Next(s, a).threads
      ensures PhaseInv(Next(s, a), Next(s, a).threads[t])
    {
      if a.Crash? || a.Restart? {
      } else if t == a.t {
        OwnPhaseKept(s, a);
      } else {
        OtherPhaseKept(s, a, t);
      }
    }
  }

  lemma StepKeepsPairs(s: State, a: Action)
    requires Inv(s) && Enabled(s, a)
    ensures Pairs(Next(s, a))
  {
    hide ListInv, HalfInserted, RowInv;
    var s' := Next(s, a);
    forall t, u | t in s'.threads && u in s'.threads && t != u
      ensures PairInv(s'.threads[t], s'.threads[u])
    {
      PairKept(s, a, t, u);
    }
  }

  lemma PairKept(s: State, a: Action, t: Thread, u: Thread)
    requires Inv(s) && Enabled(s, a)
    requires t in Next(s, a).threads && u in Next(s, a).threads && t != u
    ensures PairInv(Next(s, a).threads[t], Next(s, a).threads[u])
  {
    if !a.Crash? && !a.Restart? {
      OthersStay(s, a);
      if t == a.t {
        MovedPairs(s, a, u);
      } else if u == a.t {
        MovedPairs(s, a, t);
      } else {
        assert PairInv(s.threads[t], s.threads[u]);
      }
    }
    hide Next, Enabled, PairInv, PhaseInv, Rows;
  }

  /** Only the thread that takes the step changes. */
  lemma OthersStay(s: State, a: Action)
    requires Enabled(s, a) && !a.Crash? && !a.Restart?
    ensures forall t <- Next(s, a).threads :: t == a.t || (t in s.threads && Next(s, a).threads[t] == s.threads[t])
  {
  }

  /** The thread that takes the step and another one still fit together, both ways round. */
  lemma MovedPairs(s: State, a: Action, u: Thread)
    requires Inv(s) && Enabled(s, a) && !a.Crash? && !a.Restart?
    requires a.t in Next(s, a).threads && u in s.threads && u != a.t
    ensures PairInv(Next(s, a).threads[a.t], s.threads[u]) && PairInv(s.threads[u], Next(s, a).threads[a.t])
  {
    hide ListInv, HalfInserted, RowInv;
    assert PhaseInv(s, s.threads[u]);
    assert a.t in s.threads ==>
        PhaseInv(s, s.threads[a.t]) && PairInv(s.threads[a.t], s.threads[u]) && PairInv(s.threads[u], s.threads[a.t]);
    hide Phases, Pairs;
  }

  lemma StepKeepsInv(s: State, a: Action)
    requires Inv(s) && Enabled(s, a)
    ensures Inv(Next(s, a))
  {
    StepKeepsRows(s, a);
    StepKeepsPhases(s, a);
    StepKeepsPairs(s, a);
    hide Rows, Phases, Pairs;
  }

  // ---------- Whole runs ----------

  ghost predicate Reaches(s: State, actions: seq<Action>, s': State)
    decreases |actions|
  {
    if actions == [] then s == s'
    else Enabled(s, actions[0]) && Reaches(Next(s, actions[0]), actions[1..], s')
  }

  lemma {:induction false} ReachableInv(s: State, actions: seq<Action>, s': State)
    requires Inv(s) && Reaches(s, actions, s')
    ensures Inv(s')
    decreases |actions|
  {
    if actions != [] {
      StepKeepsInv(s, actions[0]);
      ReachableInv(Next(s, actions[0]), actions[1..], s');
    }
  }

  lemma {:induction false} ReachesOneMore(s: State, actions: seq<Action>, mid: State, a: Action)
    requires Reaches(s, actions, mid) && Enabled(mid, a)
    ensures Reaches(s, actions + [a], Next(mid, a))
    decreases |actions|
  {
    hide Enabled, Next;
    if actions == [] {
      assert actions + [a] == [a] && [a][1..] == [];
    } else {
      ReachesOneMore(Next(s, actions[0]), actions[1..], mid, a);
      assert (actions + [a])[1..] == actions[1..] + [a];
    }
  }

  lemma InitialInv()
    ensures Inv(INITIAL)
  {
  }

  // ---------- The guarantees, for every run from empty tables ----------

  /** A message with a number is never being sent and never failed. */
  lemma NumberedIsSettled(actions: seq<Action>, s: State, k: Key)
    requires Reaches(INITIAL, actions, s)
    requires k in s.rows && s.rows[k].seq_ != 0
    ensures Settled(s.rows[k].status)
  {
    InitialInv();
    ReachableInv(INITIAL, actions, s);
    assert RowInv(s.rows[k]);
  }

  lemma StepKeepsNumber(s: State, a: Action, k: Key)
    requires Inv(s) && Enabled(s, a) && k in s.rows && s.rows[k].seq_ != 0
    ensures k in Next(s, a).rows && Next(s, a).rows[k].seq_ != 0
  {
    if a.EchoWrite? {
      assert PhaseInv(s, s.threads[a.t]);
    }
  }

  /** Once the server has pushed the message back, nothing marks it failed any more: no late timeout, no
      failed request, no retry, no crash and no recovery. */
  lemma {:induction false} SettledForever(s: State, actions: seq<Action>, s': State, k: Key)
    requires Inv(s) && Reaches(s, actions, s')
    requires k in s.rows && s.rows[k].seq_ != 0
    ensures k in s'.rows && s'.rows[k].seq_ != 0 && Settled(s'.rows[k].status)
    decreases |actions|
  {
    if actions == [] {
      assert RowInv(s.rows[k]);
    } else {
      StepKeepsInv(s, actions[0]);
      StepKeepsNumber(s, actions[0], k);
      SettledForever(Next(s, actions[0]), actions[1..], s', k);
    }
  }

  /** A message that the server pushes back and that is not there or has no number gets the status and the number
      it came with, and nothing else changes; one that has a number is left alone. */
  lemma EchoIsRecorded(s: State, t: Thread, k: Key, status: Status, seq_: int)
    requires Enabled(s, EchoLook(t, k, status, seq_))
    ensures var looked := Next(s, EchoLook(t, k, status, seq_));
            if k in s.rows && s.rows[k].seq_ != 0 then looked == s
            else Enabled(looked, EchoWrite(t)) && Next(looked, EchoWrite(t)) == s.(rows := s.rows[k := Row(status, seq_)])
  {
    assert s.threads[t := EchoFound(k, status, seq_)] - {t} == s.threads;
    assert s.threads[t := EchoMissing(k, status, seq_)] - {t} == s.threads;
  }

  /** The list of messages being sent is a lock: two calls never have the same message in flight. */
  lemma OneAttemptAtATime(actions: seq<Action>, s: State, t: Thread, u: Thread)
    requires Reaches(INITIAL, actions, s)
    requires t in s.threads && u in s.threads && Owner(s.threads[t]) && Owner(s.threads[u])
    requires s.threads[t].key == s.threads[u].key
    ensures t == u
  {
    InitialInv();
    ReachableInv(INITIAL, actions, s);
    assert t != u ==> PairInv(s.threads[t], s.threads[u]);
  }

  /** The first listing of a message is never refused; a retry is refused exactly while the message is
      still listed. */
  lemma ListingRefusedIff(actions: seq<Action>, s: State, t: Thread)
    requires Reaches(INITIAL, actions, s) && Enabled(s, InsertSending(t))
    ensures t !in Next(s, InsertSending(t)).threads <==> s.threads[t].Looked? && s.threads[t].key in s.sending
  {
    InitialInv();
    ReachableInv(INITIAL, actions, s);
    assert PhaseInv(s, s.threads[t]);
  }

  /** When a call ends by taking its message off the list, the message is not being sent any more. */
  lemma FinishedIsNotSending(actions: seq<Action>, s: State, t: Thread)
    requires Reaches(INITIAL, actions, s) && Enabled(s, Delete(t))
    requires s.threads[t].key !in s.abandoned
    ensures s.threads[t].key in s.rows && !s.rows[s.threads[t].key].status.Sending?
    ensures s.threads[t].key !in Next(s, Delete(t)).sending
  {
    InitialInv();
    ReachableInv(INITIAL, actions, s);
    assert PhaseInv(s, s.threads[t]);
  }

  // ---------- Crash and recovery ----------

  /** After login recovery the list is empty; a message is still being sent exactly when it was before
      and was not listed, and then an operation failed on it or a crash fell between its insertions. */
  lemma RecoveryIsExact(actions: seq<Action>, s: State)
    requires Reaches(INITIAL, actions, s) && Enabled(s, Restart)
    ensures var r := Next(s, Restart);
            && r.sending == {} && r.rows.Keys == s.rows.Keys
            && forall k <- r.rows ::
                 && (r.rows[k].status.Sending? <==> s.rows[k].status.Sending? && k !in s.sending)
                 && r.rows[k] == (if k in s.sending && s.rows[k].status.Sending? then Row(SendFailed, s.rows[k].seq_) else s.rows[k])
                 && (r.rows[k].status.Sending? ==> k in s.abandoned)
  {
    InitialInv();
    ReachableInv(INITIAL, actions, s);
    assert HalfInserted(s) == {};
    forall k <- s.rows
      ensures ListInv(s, k)
    {
    }
  }

  predicate Fault(a: Action) {
    a.InsertSendingFails? || a.UpdateFails? || a.Crash?
  }

  lemma {:induction false} NoFaultNothingAbandoned(s: State, actions: seq<Action>, s': State)
    requires Reaches(s, actions, s') && s.abandoned == {} && s.up
    requires forall a <- actions :: !Fault(a)
    ensures s'.abandoned == {} && s'.up
    decreases |actions|
  {
    if actions != [] {
      assert actions[0] in actions;
      NoFaultNothingAbandoned(Next(s, actions[0]), actions[1..], s');
    }
  }

  /** A crash at any point of a run without failing table operations, followed by recovery, leaves being
      sent exactly the messages that were so and stood between their two insertions. */
  lemma CrashThenRecovery(actions: seq<Action>, s: State)
    requires Reaches(INITIAL, actions, s) && forall a <- actions :: !Fault(a)
    ensures Enabled(s, Crash) && Enabled(Next(s, Crash), Restart)
    ensures var r := Next(Next(s, Crash), Restart);
            && r.sending == {} && r.rows.Keys == s.rows.Keys
            && forall k <- r.rows :: r.rows[k].status.Sending? <==> s.rows[k].status.Sending? && k in HalfInserted(s)
  {
    InitialInv();
    ReachableInv(INITIAL, actions, s);
    NoFaultNothingAbandoned(INITIAL, actions, s);
    var c := Next(s, Crash);
    var r := Next(c, Restart);
    forall k <- s.rows
      ensures r.rows[k].status.Sending? <==> s.rows[k].status.Sending? && k in HalfInserted(s)
    {
      assert ListInv(s, k);
      if k in HalfInserted(s) {
        var t :| t in s.threads && s.threads[t] == Inserted(k);
        assert PhaseInv(s, s.threads[t]);
      }
    }
  }

  /** A call has inserted its message and has not listed it. */
  function HalfSent(k: Key): State {
    State(map[k := Row(Sending, 0)], {}, map[0 := Inserted(k)], true, {})
  }

  lemma HalfSentReached(k: Key)
    ensures Reaches(INITIAL, [LookUp(0, k), InsertMessage(0)], HalfSent(k))
  {
    var s0 := State(map[], {}, map[0 := Looked(k, false)], true, {});
    assert Enabled(INITIAL, LookUp(0, k)) && Next(INITIAL, LookUp(0, k)) == s0;
    assert Enabled(s0, InsertMessage(0)) && Next(s0, InsertMessage(0)) == HalfSent(k);
    hide Next, Enabled, HalfSent;
    ReachesOneMore(INITIAL, [], INITIAL, LookUp(0, k));
    ReachesOneMore(INITIAL, [] + [LookUp(0, k)], s0, InsertMessage(0));
    assert [] + [LookUp(0, k)] + [InsertMessage(0)] == [LookUp(0, k), InsertMessage(0)];
  }

  /** Such a message exists: a crash right after the first insertion leaves a message that is being sent,
      not listed, and known to no call. */
  lemma CrashBetweenInsertions(k: Key)
    ensures exists r: State ::
              Reaches(INITIAL, [LookUp(0, k), InsertMessage(0), Crash, Restart], r) && r.up && Forgotten(r, k)
  {
    HalfSentReached(k);
    var c := State(map[k := Row(Sending, 0)], {}, map[], false, {k});
    var r := c.(up := true);
    HalfInsertedHas(HalfSent(k), 0);
    assert Enabled(HalfSent(k), Crash) && Next(HalfSent(k), Crash) == c;
    assert Enabled(c, Restart) && Next(c, Restart) == r;
    assert Forgotten(r, k);
    hide Next, Enabled, Forgotten, HalfSent;
    ReachesOneMore(INITIAL, [LookUp(0, k), InsertMessage(0)], HalfSent(k), Crash);
    ReachesOneMore(INITIAL, [LookUp(0, k), InsertMessage(0)] + [Crash], c, Restart);
    assert [LookUp(0, k), InsertMessage(0)] + [Crash] + [Restart] == [LookUp(0, k), InsertMessage(0), Crash, Restart];
  }

  /** The message is being sent, but no call works on it and recovery will not find it. */
  predicate Forgotten(s: State, k: Key) {
    && k in s.rows && s.rows[k] == Row(Sending, 0) && k !in s.sending
    && forall t <- s.threads :: s.threads[t].key != k
  }

  lemma StaysForgotten(s: State, a: Action, k: Key)
    requires Forgotten(s, k) && Enabled(s, a) && !(a.EchoLook? && a.key == k)
    ensures Forgotten(Next(s, a), k)
  {
  }

  /** Such a message is being sent for ever, through any number of calls, crashes and recoveries, and every
      attempt to send it again is refused, unless the server pushes it back. */
  lemma {:induction false} ForgottenForever(s: State, actions: seq<Action>, s': State, k: Key, t: Thread)
    requires Forgotten(s, k) && Reaches(s, actions, s')
    requires forall a <- actions :: !(a.EchoLook? && a.key == k)
    ensures k in s'.rows && s'.rows[k].status.Sending?
    ensures Enabled(s', LookUp(t, k)) ==> Next(s', LookUp(t, k)) == s'
    decreases |actions|
  {
    if actions != [] {
      assert actions[0] in actions;
      StaysForgotten(s, actions[0], k);
      ForgottenForever(Next(s, actions[0]), actions[1..], s', k, t);
    }
  }

  // ---------- What a call reports after a timeout ----------

  /** The check after a timeout recognises only the plain success: a message that has come back is reported
      as failed exactly when its row says anything else, and the row keeps saying so. */
  lemma ReportedFailedIff(s: State, t: Thread)
    requires Inv(s) && Enabled(s, Check(t)) && s.threads[t].key in s.rows && s.rows[s.threads[t].key].seq_ != 0
    ensures var k := s.threads[t].key;
            var checked := Next(s, Check(t));
            && (checked.threads[t] == Failing(k) <==> !s.rows[k].status.SendSuccess?)
            && (s.rows[k].status.SendSuccess? || s.rows[k].status.HasDeleted? || s.rows[k].status.Filtered?)
            && Enabled(checked, Update(t)) && Next(checked, Update(t)).rows == s.rows
  {
    assert RowInv(s.rows[s.threads[t].key]);
  }

  /** A call times out while the server pushes its message back as filtered. */
  function FilteredMeanwhile(k: Key): State {
    State(map[k := Row(Filtered, 7)], {k}, map[0 := TimedOut(k)], true, {})
  }

  /** The call has timed out, and a handler has found its row without a number. */
  function PushedMeanwhile(k: Key): State {
    State(map[k := Row(Sending, 0)], {k}, map[0 := TimedOut(k), 1 := EchoFound(k, Filtered, 7)], true, {})
  }

  function TimedOutAlone(k: Key): State {
    State(map[k := Row(Sending, 0)], {k}, map[0 := TimedOut(k)], true, {})
  }

  lemma TimedOutReached(k: Key) returns (actions: seq<Action>)
    ensures Reaches(INITIAL, actions, TimedOutAlone(k))
  {
    HalfSentReached(k);
    var asked := State(map[k := Row(Sending, 0)], {k}, map[0 := Waiting(k)], true, {});
    assert Enabled(HalfSent(k), InsertSending(0)) && Next(HalfSent(k), InsertSending(0)) == asked;
    assert Enabled(asked, Reply(0, TimeOut)) && Next(asked, Reply(0, TimeOut)) == TimedOutAlone(k);
    hide Next, Enabled, TimedOutAlone, HalfSent;
    actions := [LookUp(0, k), InsertMessage(0)] + [InsertSending(0)];
    ReachesOneMore(INITIAL, [LookUp(0, k), InsertMessage(0)], HalfSent(k), InsertSending(0));
    ReachesOneMore(INITIAL, actions, asked, Reply(0, TimeOut));
    actions := actions + [Reply(0, TimeOut)];
  }

  /** So a message that came back filtered is reported as failed: such a run exists. */
  lemma FilteredIsReportedFailed(k: Key)
    ensures exists actions :: Reaches(INITIAL, actions, FilteredMeanwhile(k))
    ensures Enabled(FilteredMeanwhile(k), Check(0)) && Next(FilteredMeanwhile(k), Check(0)).threads[0] == Failing(k)
  {
    var actions := TimedOutReached(k);
    EchoSteps(k);
    assert Next(FilteredMeanwhile(k), Check(0)).threads[0] == Failing(k);
    hide Next, Enabled, FilteredMeanwhile, PushedMeanwhile, TimedOutAlone;
    ReachesOneMore(INITIAL, actions, TimedOutAlone(k), EchoLook(1, k, Filtered, 7));
    ReachesOneMore(INITIAL, actions + [EchoLook(1, k, Filtered, 7)], PushedMeanwhile(k), EchoWrite(1));
  }

  lemma EchoSteps(k: Key)
    ensures Enabled(TimedOutAlone(k), EchoLook(1, k, Filtered, 7))
    ensures Next(TimedOutAlone(k), EchoLook(1, k, Filtered, 7)) == PushedMeanwhile(k)
    ensures Enabled(PushedMeanwhile(k), EchoWrite(1)) && Next(PushedMeanwhile(k), EchoWrite(1)) == FilteredMeanwhile(k)
  {
    assert map[0 := TimedOut(k), 1 := EchoFound(k, Filtered, 7)] - {1} == map[0 := TimedOut(k)];
  }

  // ---------- The calls and the recovery ----------

  /** Listed: the message may be sent to the server now. DbFailed: an insertion failed. */
  datatype Result = Listed | Sent | Failed | Repeated | NotListed | NotSupported | DbFailed

  /** The rows once the message has been inserted, if it was not there. */
  function Started(rows: map<Key, Row>, k: Key): map<Key, Row> {
    if k in rows then rows else rows[k := Row(Sending, 0)]
  }

  /** The two tables, the calls of SendMessage that work on them, and login recovery. */
  class Calls {
    var rows: map<Key, Row>
    var sending: set<Key>
    /** Whether every operation on the tables succeeds; otherwise each of them may fail. */
    const tableWorks: bool
    ghost var threads: map<Thread, Phase>
    ghost var up: bool
    ghost var abandoned: set<Key>

    ghost function Snapshot(): State
      reads this
    {
      State(rows, sending, threads, up, abandoned)
    }

    constructor (tableWorks: bool)
      ensures Snapshot() == INITIAL && this.tableWorks == tableWorks
    {
      this.tableWorks := tableWorks;
      rows, sending, threads, up, abandoned := map[], {}, map[], true, {};
    }

    /** UpdateMessageTimeAndStatus changes the row only while it has no number. */
    method UpdateMessageTimeAndStatus(k: Key, status: Status) returns (ok: bool)
      modifies `rows
      ensures rows == if ok then Guarded(old(rows), k, status) else old(rows)
      ensures ok && k in old(rows) && old(rows)[k].seq_ == 0 ==> rows == old(rows)[k := Row(status, 0)]
      ensures k !in old(rows) || old(rows)[k].seq_ != 0 ==> rows == old(rows)
      ensures tableWorks ==> ok
    {
      ok := *;
      ok := ok || tableWorks;
      if ok && k in rows && rows[k].seq_ == 0 {
        rows := rows[k := rows[k].(status := status)];
      }
    }

    method DeleteSendingMessage(k: Key) returns (ok: bool)
      modifies `sending
      ensures sending == if ok then old(sending) - {k} else old(sending)
      ensures tableWorks ==> ok
    {
      ok := *;
      ok := ok || tableWorks;
      if ok {
        sending := sending - {k};
      }
    }

    method GetMessage(ghost t: Thread, k: Key) returns (found: bool, failedBefore: bool)
      requires Enabled(Snapshot(), LookUp(t, k))
      modifies this
      ensures Snapshot() == Next(old(Snapshot()), LookUp(t, k))
      ensures found <==> k in rows
      ensures failedBefore <==> found && rows[k].status.SendFailed?
    {
      found := k in rows;
      failedBefore := found && rows[k].status.SendFailed?;
      if !found || failedBefore {
        threads := threads[t := Looked(k, failedBefore)];
      }
    }

    method Insert(ghost t: Thread, k: Key) returns (ok: bool, ghost a: Action)
      requires Enabled(Snapshot(), InsertMessage(t)) && threads[t].key == k
      modifies this
      ensures a == InsertMessage(t) || a == InsertMessageFails(t)
      ensures Snapshot() == Next(old(Snapshot()), a)
      ensures ok <==> a == InsertMessage(t) && k !in old(rows)
      ensures tableWorks ==> a == InsertMessage(t)
    {
      var fails: bool := *;
      ok := k !in rows && (!fails || tableWorks);
      a := if fails && !tableWorks then InsertMessageFails(t) else InsertMessage(t);
      if ok {
        rows := rows[k := Row(Sending, 0)];
        threads := threads[t := Inserted(k)];
      } else {
        threads := threads - {t};
      }
    }

    method List(ghost t: Thread, k: Key) returns (ok: bool, ghost a: Action)
      requires Enabled(Snapshot(), InsertSending(t)) && threads[t].key == k
      modifies this
      ensures a == InsertSending(t) || a == InsertSendingFails(t)
      ensures Snapshot() == Next(old(Snapshot()), a)
      ensures ok <==> a == InsertSending(t) && k !in old(sending)
      ensures tableWorks ==> a == InsertSending(t)
    {
      var fails: bool := *;
      ok := k !in sending && (!fails || tableWorks);
      a := if fails && !tableWorks then InsertSendingFails(t) else InsertSending(t);
      if ok {
        sending := sending + {k};
        threads := threads[t := Waiting(k)];
      } else {
        abandoned := if a.InsertSendingFails? && threads[t].Inserted? then abandoned + {k} else abandoned;
        threads := threads - {t};
      }
    }

    method CheckArrived(ghost t: Thread, k: Key) returns (arrived: bool)
      requires Enabled(Snapshot(), Check(t)) && threads[t].key == k
      modifies this`threads
      ensures Snapshot() == Next(old(Snapshot()), Check(t))
      ensures arrived <==> k in rows && rows[k].status.SendSuccess?
    {
      arrived := k in rows && rows[k].status.SendSuccess?;
      threads := threads[t := if arrived then Succeeding(k) else Failing(k)];
    }

    method Record(ghost t: Thread, k: Key, status: Status) returns (ok: bool)
      requires Enabled(Snapshot(), Update(t)) && threads[t].key == k
      requires status == if threads[t].Failing? then SendFailed else SendSuccess
      modifies this
      ensures Snapshot() == Next(old(Snapshot()), if ok then Update(t) else UpdateFails(t))
      ensures tableWorks ==> ok
    {
      ok := UpdateMessageTimeAndStatus(k, status);
      abandoned := if ok then abandoned else abandoned + {k};
      threads := threads[t := Recorded(k)];
    }

    method Unlist(ghost t: Thread, k: Key) returns (ok: bool)
      requires Enabled(Snapshot(), Delete(t)) && threads[t].key == k
      modifies this
      ensures Snapshot() == Next(old(Snapshot()), if ok then Delete(t) else DeleteFails(t))
      ensures tableWorks ==> ok
    {
      ok := DeleteSendingMessage(k);
      threads := threads - {t};
    }

    /** The beginning of SendMessage, run alone: look the message up, insert it, list it. */
    method Begin(ghost t: Thread, k: Key) returns (result: Result, ghost actions: seq<Action>)
      requires up && t !in threads
      modifies this
      ensures Reaches(old(Snapshot()), actions, Snapshot()) && up
      ensures result.Repeated? || result.NotListed? || result.Listed? || result.DbFailed?
      ensures result.DbFailed? ==> !tableWorks
      ensures result.Repeated? <==> k in old(rows) && !old(rows)[k].status.SendFailed?
      ensures result.NotListed? ==> k in old(sending)
      ensures result.Listed? ==> k !in old(sending)
      ensures rows == old(rows) || (!result.Repeated? && rows == Started(old(rows), k))
      ensures result.NotListed? || result.Listed? ==> rows == Started(old(rows), k)
      ensures sending == if result.Listed? then old(sending) + {k} else old(sending)
      ensures threads == if result.Listed? then old(threads)[t := Waiting(k)] else old(threads)
    {
      ghost var s := Snapshot();
      ReachesOneMore(s, [], s, LookUp(t, k));
      hide Reaches;
      var found, failedBefore := GetMessage(t, k);
      actions := [] + [LookUp(t, k)];
      if found && !failedBefore {
        return Repeated, actions;
      }
      if !found {
        ghost var before := Snapshot();
        var inserted;
        ghost var a;
        inserted, a := Insert(t, k);
        ReachesOneMore(s, actions, before, a);
        actions := actions + [a];
        if !inserted {
          return DbFailed, actions;
        }
      }
      result, actions := ListAlone(t, k, s, actions);
    }

    method ListAlone(ghost t: Thread, k: Key, ghost s: State, ghost before: seq<Action>)
        returns (result: Result, ghost actions: seq<Action>)
      requires Enabled(Snapshot(), InsertSending(t)) && threads[t].key == k && Reaches(s, before, Snapshot())
      modifies this
      ensures Reaches(s, actions, Snapshot()) && up && rows == old(rows)
      ensures result.NotListed? || result.Listed? || (result.DbFailed? && !tableWorks)
      ensures result.NotListed? ==> k in old(sending)
      ensures result.Listed? ==> k !in old(sending)
      ensures sending == if result.Listed? then old(sending) + {k} else old(sending)
      ensures threads == if result.Listed? then old(threads)[t := Waiting(k)] else old(threads) - {t}
    {
      hide Reaches;
      ghost var was := Snapshot();
      var listed;
      ghost var a;
      var there := k in sending;
      listed, a := List(t, k);
      ReachesOneMore(s, before, was, a);
      actions := before + [a];
      result := if listed then Listed else if there then NotListed else DbFailed;
    }

    /** updateMsgStatusAndTriggerConversation: record the outcome, then take the message off the list,
        whether or not the outcome could be recorded. */
    method UpdateMsgStatus(ghost t: Thread, k: Key, sent: bool, ghost s: State, ghost before: seq<Action>)
        returns (updated: bool, deleted: bool, ghost actions: seq<Action>)
      requires up && t in threads && threads[t] == (if sent then Succeeding(k) else Failing(k))
      requires Reaches(s, before, Snapshot())
      modifies this
      ensures Reaches(s, actions, Snapshot()) && up
      ensures rows == if updated then Guarded(old(rows), k, if sent then SendSuccess else SendFailed) else old(rows)
      ensures sending == if deleted then old(sending) - {k} else old(sending)
      ensures threads == old(threads) - {t}
      ensures tableWorks ==> updated && deleted
    {
      hide Reaches, Guarded;
      ghost var s0 := Snapshot();
      updated := Record(t, k, if sent then SendSuccess else SendFailed);
      ReachesOneMore(s, before, s0, if updated then Update(t) else UpdateFails(t));
      actions := before + [if updated then Update(t) else UpdateFails(t)];
      ghost var s1 := Snapshot();
      deleted := Unlist(t, k);
      ReachesOneMore(s, actions, s1, if deleted then Delete(t) else DeleteFails(t));
      actions := actions + [if deleted then Delete(t) else DeleteFails(t)];
    }

    /** sendMessageToServer, run alone: the answer, the check after a timeout, and the record. */
    method SendMessageToServer(ghost t: Thread, k: Key, answer: Answer, ghost s: State, ghost before: seq<Action>)
        returns (sent: bool, ghost actions: seq<Action>)
      requires up && t in threads && threads[t] == Waiting(k) && Reaches(s, before, Snapshot())
      modifies this
      ensures Reaches(s, actions, Snapshot()) && up
      ensures sent <==> answer.Accepted? || (answer.TimeOut? && k in old(rows) && old(rows)[k].status.SendSuccess?)
      ensures rows == old(rows) || rows == Guarded(old(rows), k, if sent then SendSuccess else SendFailed)
      ensures sending == old(sending) || sending == old(sending) - {k}
      ensures tableWorks ==> rows == Guarded(old(rows), k, if sent then SendSuccess else SendFailed) && sending == old(sending) - {k}
      ensures threads == old(threads) - {t}
    {
      hide Reaches, Guarded;
      ReachesOneMore(s, before, Snapshot(), Reply(t, answer));
      threads := threads[t := match answer case Accepted => Succeeding(k) case TimeOut => TimedOut(k) case Refused => Failing(k)];
      actions := before + [Reply(t, answer)];
      sent := answer.Accepted?;
      if answer.TimeOut? {
        ReachesOneMore(s, actions, Snapshot(), Check(t));
        sent := CheckArrived(t, k);
        actions := actions + [Check(t)];
      }
      var _, _, more := UpdateMsgStatus(t, k, sent, s, actions);
      actions := more;
    }

    /** SendMessage, run alone, for a content type that needs no upload. The call is a run of the steps; it
        says when it is refused, and with working tables what it leaves behind. */
    method SendMessage(ghost t: Thread, k: Key, supported: bool, answer: Answer) returns (result: Result, ghost actions: seq<Action>)
      requires up && t !in threads
      modifies this
      ensures Reaches(old(Snapshot()), actions, Snapshot()) && threads == old(threads)
      ensures !result.Listed? && (result.DbFailed? ==> !tableWorks)
      ensures result.Repeated? <==> k in old(rows) && !old(rows)[k].status.SendFailed?
      ensures result.Repeated? ==> rows == old(rows) && sending == old(sending)
      ensures tableWorks ==>
                && (result.NotListed? <==> !result.Repeated? && k in old(sending))
                && (result.NotSupported? <==> !result.Repeated? && !result.NotListed? && !supported)
                && (result.Sent? ==> answer.Accepted? && rows == Guarded(Started(old(rows), k), k, SendSuccess))
                && (result.Failed? ==> !answer.Accepted? && rows == Guarded(Started(old(rows), k), k, SendFailed))
                && (result.NotListed? || result.NotSupported? ==> rows == Started(old(rows), k))
                && sending == (if result.NotSupported? then old(sending) + {k} else old(sending))
    {
      hide Reaches, Next, Guarded;
      ghost var s := Snapshot();
      result, actions := Begin(t, k);
      if !result.Listed? {
        return;
      }
      if !supported {
        ReachesOneMore(s, actions, Snapshot(), Unsupported(t));
        EndsAlone(Snapshot(), t, old(threads));
        threads := threads - {t};
        return NotSupported, actions + [Unsupported(t)];
      }
      var sent;
      sent, actions := SendMessageToServer(t, k, answer, s, actions);
      result := if sent then Sent else Failed;
    }

    /** handlerSendingMsg: UpdateMessage writes the status whatever the number. */
    method HandlerSendingMsg(k: Key) returns (ok: bool)
      modifies `rows
      ensures rows == old(rows) || (k in old(rows) && rows == old(rows)[k := RecoveredRow(old(rows)[k])])
      ensures ok && k in old(rows) ==> rows == old(rows)[k := RecoveredRow(old(rows)[k])]
      ensures tableWorks ==> ok
    {
      var getFails: bool, updateFails: bool := *, *;
      if (getFails && !tableWorks) || k !in rows {
        return k !in rows;
      }
      if !rows[k].status.Sending? {
        return true;
      }
      if updateFails && !tableWorks {
        return false;
      }
      rows := rows[k := rows[k].(status := SendFailed)];
      ok := true;
    }

    /** checkSendingMessage at login, over the listed messages in any order. With every operation succeeding
        it is the step Restart; whatever fails, only listed rows change, and only from being sent to
        failed. */
    method CheckSendingMessage() returns (ok: bool)
      requires Enabled(Snapshot(), Restart)
      modifies this
      ensures ok ==> Snapshot() == Next(old(Snapshot()), Restart)
      ensures up && threads == old(threads) && abandoned == old(abandoned)
      ensures sending <= old(sending) && rows.Keys == old(rows).Keys
      ensures forall k <- rows :: rows[k] == old(rows)[k] || (k in old(sending) && rows[k] == RecoveredRow(old(rows)[k]))
      ensures tableWorks ==> ok
    {
      up := true;
      ok := true;
      var listFails: bool := *;
      if listFails && !tableWorks {
        return false;
      }
      var todo := sending;
      ghost var done: set<Key> := {};
      while todo != {}
        invariant todo == old(sending) - done && done <= old(sending)
        invariant todo <= sending <= old(sending) && (ok ==> sending == todo)
        invariant tableWorks ==> ok
        invariant up && threads == old(threads) && abandoned == old(abandoned)
        invariant rows.Keys == old(rows).Keys
        invariant forall k <- rows :: rows[k] == old(rows)[k] || (k in done && rows[k] == RecoveredRow(old(rows)[k]))
        invariant ok ==> forall k <- rows :: rows[k] == if k in done then RecoveredRow(old(rows)[k]) else old(rows)[k]
        decreases todo
      {
        var k :| k in todo;
        todo := todo - {k};
        done := done + {k};
        var handled := HandlerSendingMsg(k);
        var deleted := DeleteSendingMessage(k);
        ok := ok && handled && deleted;
      }
    }
  }

  lemma EndsAlone(s: State, t: Thread, threads: map<Thread, Phase>)
    requires t in s.threads && s.up && s.threads[t].Waiting? && t !in threads && s.threads == threads[t := s.threads[t]]
    ensures Next(s, Unsupported(t)) == Ends(s, t) && s.threads - {t} == threads
  {
  }
}
