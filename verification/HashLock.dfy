/** The reference-counted lock taken per file hash during an upload.

    `lockHash` and `unlockHash` are split into the steps between which another thread can run:
    the section under the map's mutex, the wait for the lock's own mutex, the section under the
    map's mutex on the way out, and the release of the lock's own mutex. Threads are numbers; any
    number of them may be active. A pointer to a `lockInfo` is its index in `infos`, the sequence
    of all that were ever allocated. */
module HashLock {

  type Thread = nat
  type Pointer = nat

  datatype LockInfo = LockInfo(count: int, held: bool)

  /** Where one thread stands. Leaving is the gap in unlockHash after the map section: the thread
      still holds the mutex of the lock it has read from the map. */
  datatype Phase =
    | Idle
    | Waiting(hash: string, lock: Pointer)
    | Critical(hash: string, lock: Pointer)
    | Leaving(lock: Pointer)

  datatype State = State(uploading: map<string, Pointer>, infos: seq<LockInfo>, phases: map<Thread, Phase>)

  datatype Action = Enter(t: Thread, hash: string) | Acquire(t: Thread) | Leave(t: Thread) | Release(t: Thread)

  const INITIAL := State(map[], [], map[])

  function PhaseOf(s: State, t: Thread): Phase {
    if t in s.phases then s.phases[t] else Idle
  }

  // ---------- The steps ----------

  /** A thread calls lockHash only when it is in neither call, and unlockHash only after lockHash
      has returned (the deferred call in UploadFile); a mutex can be taken only when it is free.
      The conditions on pointers say that the memory read is allocated; `NothingDangles` shows
      that they always hold. */
  predicate Enabled(s: State, a: Action) {
    match a
    case Enter(t, hash) =>
      PhaseOf(s, t).Idle? && (hash in s.uploading ==> s.uploading[hash] < |s.infos|)
    case Acquire(t) =>
      var p := PhaseOf(s, t);
      p.Waiting? && p.lock < |s.infos| && !s.infos[p.lock].held
    case Leave(t) =>
      var p := PhaseOf(s, t);
      p.Critical? && (p.hash in s.uploading ==> s.uploading[p.hash] < |s.infos|)
    case Release(t) =>
      var p := PhaseOf(s, t);
      p.Leaving? && p.lock < |s.infos|
  }

  /** The first section of lockHash: find or allocate the lock, and count this thread. */
  function EnterNext(s: State, t: Thread, hash: string): State
    requires Enabled(s, Enter(t, hash))
  {
    if hash in s.uploading then
      var l := s.uploading[hash];
      s.(infos := s.infos[l := s.infos[l].(count := s.infos[l].count + 1)],
         phases := s.phases[t := Waiting(hash, l)])
    else
      var l := |s.infos|;
      State(s.uploading[hash := l], s.infos + [LockInfo(1, false)], s.phases[t := Waiting(hash, l)])
  }

  function AcquireNext(s: State, t: Thread): State
    requires Enabled(s, Acquire(t))
  {
    var p := PhaseOf(s, t);
    s.(infos := s.infos[p.lock := s.infos[p.lock].(held := true)],
       phases := s.phases[t := Critical(p.hash, p.lock)])
  }

  /** The map section of unlockHash. When the hash is not in the map the source returns at once,
      without releasing any mutex. */
  function LeaveNext(s: State, t: Thread): State
    requires Enabled(s, Leave(t))
  {
    var hash := PhaseOf(s, t).hash;
    if hash !in s.uploading then
      s.(phases := s.phases[t := Idle])
    else
      var l := s.uploading[hash];
      var count := s.infos[l].count - 1;
      State(if count == 0 then s.uploading - {hash} else s.uploading,
            s.infos[l := s.infos[l].(count := count)],
            s.phases[t := Leaving(l)])
  }

  function ReleaseNext(s: State, t: Thread): State
    requires Enabled(s, Release(t))
  {
    var l := PhaseOf(s, t).lock;
    s.(infos := s.infos[l := s.infos[l].(held := false)], phases := s.phases[t := Idle])
  }

  function Next(s: State, a: Action): State
    requires Enabled(s, a)
  {
    match a
    case Enter(t, hash) => EnterNext(s, t, hash)
    case Acquire(t) => AcquireNext(s, t)
    case Leave(t) => LeaveNext(s, t)
    case Release(t) => ReleaseNext(s, t)
  }

  // ---------- What every step keeps ----------

  /** The thread is between the two map sections, so it is counted in the lock. */
  predicate Counted(p: Phase, l: Pointer) {
    (p.Waiting? || p.Critical?) && p.lock == l
  }

  predicate Holds(p: Phase, l: Pointer) {
    (p.Critical? || p.Leaving?) && p.lock == l
  }

  function Users(s: State, l: Pointer): set<Thread> {
    set t | t in s.phases && Counted(s.phases[t], l)
  }

  function Holders(s: State, l: Pointer): set<Thread> {
    set t | t in s.phases && Holds(s.phases[t], l)
  }

  predicate MapInv(s: State) {
    && (forall h <- s.uploading :: s.uploading[h] < |s.infos|)
    && (forall g, h | g in s.uploading && h in s.uploading && g != h :: s.uploading[g] != s.uploading[h])
    && (forall h <- s.uploading :: s.infos[s.uploading[h]].count > 0)
  }

  predicate PhaseInv(s: State) {
    && (forall t <- s.phases | s.phases[t].Waiting? || s.phases[t].Critical? ::
          s.phases[t].hash in s.uploading && s.uploading[s.phases[t].hash] == s.phases[t].lock)
    && (forall t <- s.phases | s.phases[t].Leaving? :: s.phases[t].lock < |s.infos|)
  }


  /** The count of a lock is the number of threads between its two map sections, and its mutex is
      taken exactly when one thread has it. */
  predicate LockInv(s: State, l: Pointer)
    requires l < |s.infos|
  {
    && s.infos[l].count == |Users(s, l)|
    && |Holders(s, l)| == if s.infos[l].held then 1 else 0
  }

  predicate Inv(s: State) {
    MapInv(s) && PhaseInv(s) && (forall l: Pointer | l < |s.infos| :: LockInv(s, l))
  }

  lemma ReplaceMember<T>(before: set<T>, after: set<T>, t: T, keep: bool)
    requires after == before - {t} + if keep then {t} else {}
    ensures |after| == |before| - (if t in before then 1 else 0) + if keep then 1 else 0
  {
    assert |before - {t}| == |before| - if t in before then 1 else 0;
    assert keep ==> |(before - {t}) + {t}| == |before - {t}| + 1;
  }

  lemma MovedUsers(s: State, s': State, t: Thread, l: Pointer)
    requires s'.phases == s.phases[t := PhaseOf(s', t)]
    ensures Users(s', l) == Users(s, l) - {t} + if Counted(PhaseOf(s', t), l) then {t} else {}
    ensures t in Users(s, l) <==> Counted(PhaseOf(s, t), l)
  {
  }

  lemma MovedHolders(s: State, s': State, t: Thread, l: Pointer)
    requires s'.phases == s.phases[t := PhaseOf(s', t)]
    ensures Holders(s', l) == Holders(s, l) - {t} + if Holds(PhaseOf(s', t), l) then {t} else {}
    ensures t in Holders(s, l) <==> Holds(PhaseOf(s, t), l)
  {
  }

  /** How the numbers of counted and of holding threads of a lock change when one thread moves. */
  lemma Moved(s: State, s': State, t: Thread, l: Pointer)
    requires s'.phases == s.phases[t := PhaseOf(s', t)]
    ensures |Users(s', l)| == |Users(s, l)|
                              - (if Counted(PhaseOf(s, t), l) then 1 else 0)
                              + if Counted(PhaseOf(s', t), l) then 1 else 0
    ensures |Holders(s', l)| == |Holders(s, l)|
                                - (if Holds(PhaseOf(s, t), l) then 1 else 0)
                                + if Holds(PhaseOf(s', t), l) then 1 else 0
  {
    hide Users, Holders, Counted, Holds, PhaseOf;
    MovedUsers(s, s', t, l);
    MovedHolders(s, s', t, l);
    ReplaceMember(Users(s, l), Users(s', l), t, Counted(PhaseOf(s', t), l));
    ReplaceMember(Holders(s, l), Holders(s', l), t, Holds(PhaseOf(s', t), l));
  }

  lemma NoneBeyondAllocation(s: State)
    requires MapInv(s) && PhaseInv(s)
    ensures Users(s, |s.infos|) == {} && Holders(s, |s.infos|) == {}
  {
  }

  /** One thread counts the lock it uses; when it is the only one, nobody else uses that lock. */
  lemma CountOfUsers(s: State, t: Thread, l: Pointer)
    requires l < |s.infos| && LockInv(s, l) && t in Users(s, l)
    ensures s.infos[l].count >= 1
    ensures s.infos[l].count == 1 ==> Users(s, l) == {t}
  {
    assert |Users(s, l) - {t}| == |Users(s, l)| - 1;
    assert Users(s, l) == (Users(s, l) - {t}) + {t};
  }

  lemma CountOfHolders(s: State, t: Thread, l: Pointer)
    requires l < |s.infos| && LockInv(s, l) && t in Holders(s, l)
    ensures s.infos[l].held && Holders(s, l) == {t}
  {
    assert |Holders(s, l) - {t}| == |Holders(s, l)| - 1;
    assert Holders(s, l) == (Holders(s, l) - {t}) + {t};
  }

  lemma EnterKeepsLock(s: State, t: Thread, hash: string, l: Pointer)
    requires Inv(s) && Enabled(s, Enter(t, hash)) && l < |EnterNext(s, t, hash).infos|
    ensures LockInv(EnterNext(s, t, hash), l)
  {
    assert l < |s.infos| ==> LockInv(s, l);
    NoneBeyondAllocation(s);
    hide Inv, MapInv, PhaseInv, Users, Holders;
    Moved(s, EnterNext(s, t, hash), t, l);
  }

  lemma AcquireKeepsLock(s: State, t: Thread, l: Pointer)
    requires Inv(s) && Enabled(s, Acquire(t)) && l < |s.infos|
    ensures LockInv(AcquireNext(s, t), l)
  {
    assert LockInv(s, l);
    hide Inv, MapInv, PhaseInv, Users, Holders;
    Moved(s, AcquireNext(s, t), t, l);
  }

  lemma LeaveKeepsLock(s: State, t: Thread, l: Pointer)
    requires Inv(s) && Enabled(s, Leave(t)) && l < |s.infos|
    ensures LockInv(LeaveNext(s, t), l)
  {
    assert LockInv(s, l);
    assert s.uploading[s.phases[t].hash] == s.phases[t].lock;
    hide Inv, MapInv, PhaseInv, Users, Holders;
    Moved(s, LeaveNext(s, t), t, l);
  }

  lemma ReleaseKeepsLock(s: State, t: Thread, l: Pointer)
    requires Inv(s) && Enabled(s, Release(t)) && l < |s.infos|
    ensures LockInv(ReleaseNext(s, t), l)
  {
    assert LockInv(s, l);
    CountOfHolders(s, t, s.phases[t].lock);
    hide Inv, MapInv, PhaseInv, Users, Holders;
    Moved(s, ReleaseNext(s, t), t, l);
  }

  lemma EnterKeepsMap(s: State, t: Thread, hash: string)
    requires Inv(s) && Enabled(s, Enter(t, hash))
    ensures MapInv(EnterNext(s, t, hash)) && PhaseInv(EnterNext(s, t, hash))
  {
    hide LockInv, Users, Holders;
  }

  lemma LeaveKeepsMap(s: State, t: Thread)
    requires Inv(s) && Enabled(s, Leave(t))
    ensures MapInv(LeaveNext(s, t)) && PhaseInv(LeaveNext(s, t))
  {
    var l := s.phases[t].lock;
    assert LockInv(s, l);
    CountOfUsers(s, t, l);
    assert forall u <- s.phases | u != t && Counted(s.phases[u], l) :: u in Users(s, l);
    hide LockInv, Users, Holders;
  }

  lemma OthersKeepMap(s: State, t: Thread)
    requires Inv(s)
    ensures Enabled(s, Acquire(t)) ==> MapInv(AcquireNext(s, t)) && PhaseInv(AcquireNext(s, t))
    ensures Enabled(s, Release(t)) ==> MapInv(ReleaseNext(s, t)) && PhaseInv(ReleaseNext(s, t))
  {
    hide LockInv, Users, Holders;
  }

  lemma StepKeepsInv(s: State, a: Action)
    requires Inv(s) && Enabled(s, a)
    ensures Inv(Next(s, a))
  {
    var s' := Next(s, a);
    assert MapInv(s') && PhaseInv(s') by {
      match a
      case Enter(t, hash) => EnterKeepsMap(s, t, hash);
      case Leave(t) => LeaveKeepsMap(s, t);
      case _ => OthersKeepMap(s, a.t);
    }
    forall l: Pointer | l < |s'.infos|
      ensures LockInv(s', l)
    {
      match a
      case Enter(t, hash) => EnterKeepsLock(s, t, hash, l);
      case Acquire(t) => AcquireKeepsLock(s, t, l);
      case Leave(t) => LeaveKeepsLock(s, t, l);
      case Release(t) => ReleaseKeepsLock(s, t, l);
    }
  }

  // ---------- Whole runs ----------

  /** s' is reached from s by taking the actions in order, each of them enabled when taken. */
  ghost predicate Reaches(s: State, actions: seq<Action>, s': State)
    decreases |actions|
  {
    if actions == [] then s == s'
    else Enabled(s, actions[0]) && Reaches(Next(s, actions[0]), actions[1..], s')
  }

  lemma {:induction false} ReachableInv(s: State, actions: seq<Action>, s': State)
    requires Inv(s) && Reaches(s, actions, s')
    ensures Inv(s')
    decreases |actions|
  {
    if actions != [] {
      StepKeepsInv(s, actions[0]);
      ReachableInv(Next(s, actions[0]), actions[1..], s');
    }
  }

  lemma InitialInv()
    ensures Inv(INITIAL)
  {
  }

  // ---------- The guarantees, for every run from the empty map ----------

  /** At most one thread is between lockHash(hash) and unlockHash(hash). */
  lemma MutualExclusion(actions: seq<Action>, s: State, t: Thread, u: Thread, hash: string)
    requires Reaches(INITIAL, actions, s)
    requires PhaseOf(s, t).Critical? && PhaseOf(s, t).hash == hash
    requires PhaseOf(s, u).Critical? && PhaseOf(s, u).hash == hash
    ensures t == u
  {
    InitialInv();
    ReachableInv(INITIAL, actions, s);
    var l := s.uploading[hash];
    assert LockInv(s, l);
    assert u in Holders(s, l);
    CountOfHolders(s, t, l);
  }

  /** A waiting or holding thread's lock is the one in the map, and its count is the number of such
      threads. */
  lemma LockIsShared(actions: seq<Action>, s: State, t: Thread)
    requires Reaches(INITIAL, actions, s)
    requires PhaseOf(s, t).Waiting? || PhaseOf(s, t).Critical?
    ensures var p := PhaseOf(s, t);
            && p.hash in s.uploading && s.uploading[p.hash] == p.lock < |s.infos|
            && s.infos[p.lock].count
               == |set u | u in s.phases && (s.phases[u].Waiting? || s.phases[u].Critical?)
                                         && s.phases[u].hash == p.hash|
  {
    InitialInv();
    ReachableInv(INITIAL, actions, s);
    var p := PhaseOf(s, t);
    assert LockInv(s, p.lock);
    assert Users(s, p.lock)
        == set u | u in s.phases && (s.phases[u].Waiting? || s.phases[u].Critical?)
                                 && s.phases[u].hash == p.hash;
  }

  /** unlockHash finds the entry of the hash it was called for, and the mutex it then releases is
      the one this thread has taken. */
  lemma UnlockFindsItsLock(actions: seq<Action>, s: State, t: Thread)
    requires Reaches(INITIAL, actions, s)
    requires PhaseOf(s, t).Critical?
    ensures PhaseOf(s, t).hash in s.uploading
    ensures Enabled(s, Leave(t))
    ensures PhaseOf(LeaveNext(s, t), t) == Leaving(PhaseOf(s, t).lock)
  {
    InitialInv();
    ReachableInv(INITIAL, actions, s);
  }

  /** A mutex is released only while it is taken. */
  lemma ReleasesTakenMutex(actions: seq<Action>, s: State, t: Thread)
    requires Reaches(INITIAL, actions, s)
    requires PhaseOf(s, t).Leaving?
    ensures Enabled(s, Release(t)) && s.infos[PhaseOf(s, t).lock].held
  {
    InitialInv();
    ReachableInv(INITIAL, actions, s);
    var l := PhaseOf(s, t).lock;
    assert LockInv(s, l);
    CountOfHolders(s, t, l);
  }

  /** The map holds exactly the hashes that some thread waits for or holds; in particular it is
      empty when every thread is idle. */
  lemma MapHoldsHashesInUse(actions: seq<Action>, s: State, hash: string)
    requires Reaches(INITIAL, actions, s)
    ensures hash in s.uploading
       <==> exists t :: t in s.phases && (s.phases[t].Waiting? || s.phases[t].Critical?) && s.phases[t].hash == hash
  {
    InitialInv();
    ReachableInv(INITIAL, actions, s);
    if hash in s.uploading {
      var l := s.uploading[hash];
      assert LockInv(s, l);
      assert Users(s, l) != {};
      var t :| t in Users(s, l);
      assert s.uploading[s.phases[t].hash] == l;
    }
  }

  lemma EmptyWhenIdle(actions: seq<Action>, s: State)
    requires Reaches(INITIAL, actions, s)
    requires forall t: Thread :: PhaseOf(s, t).Idle?
    ensures s.uploading == map[]
  {
    forall hash
      ensures hash !in s.uploading
    {
      MapHoldsHashesInUse(actions, s, hash);
      assert forall t :: t in s.phases ==> PhaseOf(s, t).Idle?;
    }
  }

  /** No deadlock: when a thread is not idle, it can move, or the thread that has its mutex can. */
  lemma SomeoneCanMove(actions: seq<Action>, s: State, t: Thread)
    requires Reaches(INITIAL, actions, s)
    requires !PhaseOf(s, t).Idle?
    ensures exists a: Action :: !a.Enter? && Enabled(s, a)
  {
    InitialInv();
    ReachableInv(INITIAL, actions, s);
    match PhaseOf(s, t)
    case Waiting(_, l) =>
      assert LockInv(s, l);
      if s.infos[l].held {
        assert Holders(s, l) != {};
        var u :| u in Holders(s, l);
        assert Enabled(s, Leave(u)) || Enabled(s, Release(u));
      } else {
        assert Enabled(s, Acquire(t));
      }
    case Critical(_, _) => assert Enabled(s, Leave(t));
    case Leaving(_) => assert Enabled(s, Release(t));
  }

  /** Entering is never refused to an idle thread: no pointer in the map dangles. */
  lemma NothingDangles(actions: seq<Action>, s: State, t: Thread, hash: string)
    requires Reaches(INITIAL, actions, s)
    requires PhaseOf(s, t).Idle?
    ensures Enabled(s, Enter(t, hash))
  {
    InitialInv();
    ReachableInv(INITIAL, actions, s);
  }

  // ---------- The object ----------

  /** The upload object's lock table. Each method is one atomic section of the source. */
  class Locks {
    var uploading: map<string, Pointer>
    var infos: seq<LockInfo>
    ghost var phases: map<Thread, Phase>

    ghost function Snapshot(): State
      reads this
    {
      State(uploading, infos, phases)
    }

    constructor ()
      ensures Snapshot() == INITIAL && Inv(Snapshot())
    {
      uploading, infos, phases := map[], [], map[];
    }

    /** lockHash up to the release of the map's mutex; the lock found is returned. */
    method LockHashMapSection(ghost t: Thread, hash: string) returns (locker: Pointer)
      requires Inv(Snapshot()) && Enabled(Snapshot(), Enter(t, hash))
      modifies this
      ensures Snapshot() == Next(old(Snapshot()), Enter(t, hash)) && Inv(Snapshot())
      ensures phases[t] == Waiting(hash, locker)
    {
      ghost var before := Snapshot();
      if hash in uploading {
        locker := uploading[hash];
      } else {
        locker := |infos|;
        infos := infos + [LockInfo(0, false)];
        uploading := uploading[hash := locker];
      }
      infos := infos[locker := infos[locker].(count := infos[locker].count + 1)];
      phases := phases[t := Waiting(hash, locker)];
      assert Snapshot() == EnterNext(before, t, hash);
      StepKeepsInv(before, Enter(t, hash));
    }

    /** The wait for the lock's own mutex is over. */
    method LockMutex(ghost t: Thread, locker: Pointer)
      requires Inv(Snapshot()) && Enabled(Snapshot(), Acquire(t)) && locker == PhaseOf(Snapshot(), t).lock
      modifies this
      ensures Snapshot() == Next(old(Snapshot()), Acquire(t)) && Inv(Snapshot())
    {
      ghost var before := Snapshot();
      infos := infos[locker := infos[locker].(held := true)];
      phases := phases[t := Critical(phases[t].hash, locker)];
      StepKeepsInv(before, Acquire(t));
    }

    /** unlockHash up to the release of the map's mutex. With the invariant, the entry is found. */
    method UnlockHashMapSection(ghost t: Thread, hash: string) returns (found: bool, locker: Pointer)
      requires Enabled(Snapshot(), Leave(t)) && PhaseOf(Snapshot(), t).hash == hash
      modifies this
      ensures Snapshot() == Next(old(Snapshot()), Leave(t))
      ensures found <==> hash in old(uploading)
      ensures found ==> phases[t] == Leaving(locker)
      ensures old(Inv(Snapshot())) ==> Inv(Snapshot()) && found && locker == old(phases[t].lock)
    {
      ghost var before := Snapshot();
      if Inv(before) {
        StepKeepsInv(before, Leave(t));
      }
      found, locker := hash in uploading, 0;
      if !found {
        phases := phases[t := Idle];
        return;
      }
      locker := uploading[hash];
      infos := infos[locker := infos[locker].(count := infos[locker].count - 1)];
      if infos[locker].count == 0 {
        uploading := uploading - {hash};
      }
      phases := phases[t := Leaving(locker)];
    }

    method UnlockMutex(ghost t: Thread, locker: Pointer)
      requires Inv(Snapshot()) && PhaseOf(Snapshot(), t) == Leaving(locker)
      modifies this
      ensures old(Enabled(Snapshot(), Release(t)))
      ensures Snapshot() == Next(old(Snapshot()), Release(t)) && Inv(Snapshot())
    {
      ghost var before := Snapshot();
      infos := infos[locker := infos[locker].(held := false)];
      phases := phases[t := Idle];
      StepKeepsInv(before, Release(t));
    }
  }
}
