/** What one command of the synchroniser may do, and what follows for a whole run of commands. */
module MsgRuns {
  import opened MsgHistory
  import opened MsgMistakes
  import opened MsgPush
  import opened MsgPushes
  import opened MsgRequests
  import opened SeqLists

  /** After a reconnection the server is asked for its maxima; that request may fail. */
  datatype Command =
    | Connected(answered: bool, maxSeqs: map<string, int>)
    | MaxSeq(maxSeqs: map<string, int>)
    | Push(msgs: map<string, seq<int>>, notificationMsgs: map<string, seq<int>>)
  {
    predicate Unanswered() {
      Connected? && !answered
    }
  }

  /** The synchroniser between two commands. */
  datatype Point = Point(cursors: Cursors, history: seq<Event>, reinstalled: bool)

  /** How a push was handled: the orders of its two halves, and cursors and history between them. */
  datatype Handling = Handling(order: seq<string>, mid: Cursors, midHistory: seq<Event>, notificationOrder: seq<string>)

  const NOT_A_PUSH := Handling([], map[], [], [])

  function Notifications(maxSeqs: map<string, int>): map<string, int> {
    map c | c in maxSeqs && IsNotification(c) :: maxSeqs[c]
  }

  // ---------- Requests only ----------

  lemma OnlySmallTransitive(h0: seq<Event>, h1: seq<Event>, h2: seq<Event>)
    requires OnlySmall(h0, h1) && OnlySmall(h1, h2)
    ensures OnlySmall(h0, h2)
  {
    hide SmallRequest;
  }

  // ---------- The pass after a reinstallation ----------

  /** Whatever is added is a request, or gives up the numbers of one of these conversations from its cursor up
      to the number given. */
  ghost predicate OnlySkips(m: Cursors, h: seq<Event>, h': seq<Event>, skips: map<string, int>) {
    h <= h' && forall i | |h| <= i < |h'| :: SmallRequest(h'[i]) || IsSkip(h'[i], m, skips)
  }

  predicate IsSkip(e: Event, m: Cursors, skips: map<string, int>) {
    && e.Skipped? && e.conversationID in skips
    && e.range == Range(CursorOf(m, e.conversationID) + 1, skips[e.conversationID])
  }

  lemma OneMoreSkip(m: Cursors, h: seq<Event>, h': seq<Event>, skips: map<string, int>, c: string)
    requires OnlySkips(m, h, h', skips) && c in skips
    ensures OnlySkips(m, h, h' + [Skipped(c, Range(CursorOf(m, c) + 1, skips[c]))], skips)
  {
    hide SmallRequest;
  }

  lemma SkipsThenRequests(m: Cursors, h: seq<Event>, h1: seq<Event>, h2: seq<Event>, skips: map<string, int>)
    requires OnlySkips(m, h, h1, skips) && OnlySmall(h1, h2)
    ensures OnlySkips(m, h, h2, skips)
  {
    hide SmallRequest;
  }

  /** The requests after the skips ask up to the maxima of the other conversations. */
  lemma AsksAfterSkips(m: Cursors, h: seq<Event>, m1: Cursors, h1: seq<Event>, h2: seq<Event>, skips: map<string, int>,
                       maxSeqs: map<string, int>)
    requires OnlySkips(m, h, h1, skips) && NoRequests(h, h1) && AsksUpTo(h1, h2, m1, maxSeqs)
    requires Untouched(m, m1, skips.Keys) && maxSeqs.Keys !! skips.Keys
    ensures AsksUpTo(h, h2, m, maxSeqs)
  {
    hide SmallRequest, IsSkip;
    forall i, c | |h| <= i < |h2| && h2[i].Pulled? && c in h2[i].ranges
      ensures c in maxSeqs && h2[i].ranges[c].hi <= maxSeqs[c]
      ensures if c in m then m[c] < h2[i].ranges[c].lo else 0 <= h2[i].ranges[c].lo
    {
      assert h1 <= h2;
    }
  }

  ghost predicate NoRequests(h: seq<Event>, h': seq<Event>) {
    h <= h' && forall i | |h| <= i < |h'| :: !h'[i].Pulled?
  }

  /** For every conversation outside keys no cursor went back, and what its cursor moved over was
      delivered exactly once and nothing else was. */
  ghost predicate ExactOutside(m: Cursors, h: seq<Event>, m': Cursors, h': seq<Event>, keys: set<string>) {
    && m.Keys <= m'.Keys
    && (forall c <- m | c !in keys :: m[c] <= m'[c])
    && (forall c, s | c !in keys && (c in m || s > 0) ::
          Deliveries(h', c, s) == Deliveries(h, c, s) + if Between(m, m', c, s) then 1 else 0)
  }

  /** Skipping leaves the other conversations alone. */
  ghost predicate SameOutside(m: Cursors, h: seq<Event>, m': Cursors, h': seq<Event>, keys: set<string>) {
    && Untouched(m, m', keys)
    && (forall c, s | c !in keys :: Deliveries(h', c, s) == Deliveries(h, c, s))
  }

  lemma SkipSame(m: Cursors, h: seq<Event>, m': Cursors, h': seq<Event>, keys: set<string>, c: string, r: Range, seq_: int)
    requires SameOutside(m, h, m', h', keys) && c in keys
    ensures SameOutside(m, h, m'[c := seq_], h' + [Skipped(c, r)], keys)
  {
    hide Deliveries;
    forall k, s | k !in keys
      ensures Deliveries(h' + [Skipped(c, r)], k, s) == Deliveries(h, k, s)
    {
      OneMore(h', Skipped(c, r), k, s);
      assert Times(Skipped(c, r), k, s) == 0;
    }
  }

  lemma PassIsExactOutside(m: Cursors, h: seq<Event>, m1: Cursors, h1: seq<Event>, m2: Cursors, h2: seq<Event>,
                           keys: set<string>)
    requires m.Keys <= m1.Keys && SameOutside(m, h, m1, h1, keys) && Exact(m1, h1, m2, h2, {})
    ensures ExactOutside(m, h, m2, h2, keys)
  {
    hide Deliveries;
    forall c, s | c !in keys && (c in m || s > 0)
      ensures Deliveries(h2, c, s) == Deliveries(h, c, s) + if Between(m, m2, c, s) then 1 else 0
    {
      assert Deliveries(h1, c, s) == Deliveries(h, c, s);
      assert Deliveries(h2, c, s) == Deliveries(h1, c, s) + if Between(m1, m2, c, s) then 1 else 0;
      assert CursorOf(m1, c) == CursorOf(m, c);
    }
  }

  // ---------- One command ----------

  predicate NoneWentBack(m: Cursors, m': Cursors) {
    m.Keys <= m'.Keys && forall c <- m :: m[c] <= m'[c]
  }

  ghost predicate HandledAs(cmd: Command, cursors: Cursors, g: Handling) {
    cmd.Push? ==>
      && IsOrder(g.order, cmd.msgs.Keys) && IsOrder(g.notificationOrder, cmd.notificationMsgs.Keys)
      && Untouched(cursors, g.mid, cmd.msgs.Keys)
  }

  /** The conversations that a command passes on by mistake. */
  function MistakesIn(cmd: Command, cursors: Cursors, g: Handling): set<string> {
    if cmd.Push?
    then MistakesOf(g.order, cmd.msgs, cursors) + MistakesOf(g.notificationOrder, cmd.notificationMsgs, g.mid)
    else {}
  }

  /** A command delivers exactly what its cursors move over, apart from the conversations passed on by
      mistake, and gives nothing up: it sends requests, and a push also passes on its own messages. The one
      exception is the command that ends the state after a reinstallation: it gives up numbers of
      notifications, whose cursors alone may go back. */
  ghost predicate StepOf(cmd: Command, p: Point, q: Point, g: Handling) {
    var x := MistakesIn(cmd, p.cursors, g);
    && HandledAs(cmd, p.cursors, g)
    && (q.reinstalled ==> p.reinstalled)
    && (if cmd.Push? then q.reinstalled == p.reinstalled else if cmd.Unanswered() then q == p else !q.reinstalled)
    && Covers(p.cursors, p.history, q.cursors, q.history, x)
    && if p.reinstalled && !q.reinstalled then IsPass(cmd, p, q)
       else && Exact(p.cursors, p.history, q.cursors, q.history, x)
            && NoneWentBack(p.cursors, q.cursors)
            && (if cmd.Push? then BothPassOn(cmd, p, q, g)
                else OnlySmall(p.history, q.history) && AsksUpTo(p.history, q.history, p.cursors, cmd.maxSeqs))
  }

  ghost predicate BothPassOn(cmd: Command, p: Point, q: Point, g: Handling)
    requires cmd.Push?
  {
    && HalfOf(p.cursors, p.history, g.mid, g.midHistory, g.order, cmd.msgs)
    && HalfOf(g.mid, g.midHistory, q.cursors, q.history, g.notificationOrder, cmd.notificationMsgs)
  }

  ghost predicate IsPass(cmd: Command, p: Point, q: Point) {
    && !cmd.Push?
    && OnlySkips(p.cursors, p.history, q.history, Notifications(cmd.maxSeqs))
    && AsksUpTo(p.history, q.history, p.cursors, cmd.maxSeqs - Notifications(cmd.maxSeqs).Keys)
    && ExactOutside(p.cursors, p.history, q.cursors, q.history, Notifications(cmd.maxSeqs).Keys)
  }

  lemma ExactForward(m: Cursors, h: seq<Event>, m': Cursors, h': seq<Event>, x: set<string>)
    requires Exact(m, h, m', h', x)
    ensures NoneWentBack(m, m')
  {
  }

  // ---------- Progress ----------

  /** The conversation is at the server's maximum if it has no cursor, the maximum is above its cursor, or it
      is a notification in the pass after a reinstallation; otherwise it is where it was. */
  predicate IsAt(m: Cursors, m': Cursors, maxSeqs: map<string, int>, c: string, pass: bool) {
    && (c in m' <==> c in m || c in maxSeqs)
    && (c in m' ==> m'[c] == if c in maxSeqs && ((pass && IsNotification(c)) || c !in m || maxSeqs[c] > m[c]) then maxSeqs[c] else m[c])
  }

  /** Where the cursors are after a command whose requests all succeeded. In the pass after a reinstallation
      notification cursors are set without comparing, when the table works. */
  ghost predicate Arrives(cmd: Command, p: Point, q: Point, g: Handling, tableWorks: bool) {
    if cmd.Push? then
      && g.mid == Arrival(g.order, cmd.msgs, p.cursors)
      && q.cursors == Arrival(g.notificationOrder, cmd.notificationMsgs, g.mid)
    else if cmd.Unanswered() then q == p
    else
      && !q.reinstalled
      && forall c | tableWorks || !p.reinstalled || !IsNotification(c) ::
           IsAt(p.cursors, q.cursors, cmd.maxSeqs, c, p.reinstalled)
  }

  lemma PullsToMaxima(m: Cursors, maxSeqs: map<string, int>)
    ensures forall c :: IsAt(m, m + Ends(NeedSync(m, maxSeqs)), maxSeqs, c, false)
  {
  }

  lemma PassToMaxima(m: Cursors, m1: Cursors, maxSeqs: map<string, int>)
    requires var skips := Notifications(maxSeqs); Untouched(m, m1, skips.Keys)
    ensures var m2, skips := m1 + Ends(NeedSync(m1, maxSeqs - Notifications(maxSeqs).Keys)), Notifications(maxSeqs);
            && (forall c | !IsNotification(c) :: IsAt(m, m2, maxSeqs, c, true))
            && (m1 == m + skips ==> forall c | IsNotification(c) :: IsAt(m, m2, maxSeqs, c, true))
  {
  }

  lemma NotificationPrefix(c: string)
    ensures IsNotification(c) <==> |c| >= 2 && c[0] == 'n' && c[1] == '_'
  {
  }

  /** Such a command with the server's maxima leaves every conversation that the server reports exactly at its
      maximum, or where it was if that is not below the maximum, and no other moves; outside the pass every
      number up to the maxima has then been delivered exactly once more. */
  lemma CaughtUp(cmd: Command, p: Point, q: Point, g: Handling, tableWorks: bool)
    requires StepOf(cmd, p, q, g) && Arrives(cmd, p, q, g, tableWorks) && !cmd.Push? && !cmd.Unanswered()
    requires p.reinstalled ==> tableWorks
    ensures q.cursors.Keys == p.cursors.Keys + cmd.maxSeqs.Keys
    ensures forall c <- cmd.maxSeqs ::
              q.cursors[c] == if c in p.cursors && p.cursors[c] >= cmd.maxSeqs[c] && !(p.reinstalled && "n_" <= c)
                              then p.cursors[c] else cmd.maxSeqs[c]
    ensures forall c <- p.cursors | c !in cmd.maxSeqs :: q.cursors[c] == p.cursors[c]
    ensures !p.reinstalled ==>
              forall c <- cmd.maxSeqs, s | CursorOf(p.cursors, c) < s <= cmd.maxSeqs[c] && (c in p.cursors || s > 0) ::
                Deliveries(q.history, c, s) == Deliveries(p.history, c, s) + 1
  {
    hide Deliveries, Covers, IsPass, OnlySmall, AsksUpTo, MistakesOf;
    forall c
      ensures c in q.cursors <==> c in p.cursors || c in cmd.maxSeqs
      ensures c in q.cursors ==>
                q.cursors[c] == if c in cmd.maxSeqs && ((p.reinstalled && "n_" <= c) || c !in p.cursors || cmd.maxSeqs[c] > p.cursors[c])
                                then cmd.maxSeqs[c] else p.cursors[c]
    {
      assert IsAt(p.cursors, q.cursors, cmd.maxSeqs, c, p.reinstalled);
    }
    if !p.reinstalled {
      forall c <- cmd.maxSeqs, s | CursorOf(p.cursors, c) < s <= cmd.maxSeqs[c] && (c in p.cursors || s > 0)
        ensures Deliveries(q.history, c, s) == Deliveries(p.history, c, s) + 1
      {
        assert Between(p.cursors, q.cursors, c, s);
      }
    }
  }

  /** When one half of a push carries one conversation whose numbers are those missing up to the last one, each
      once, that half passes them on whichever pulls fail and moves the cursor to the last of them, and does
      nothing else. */
  lemma StepPassesOn(cmd: Command, p: Point, q: Point, g: Handling, c: string)
    requires StepOf(cmd, p, q, g) && cmd.Push?
    ensures p.history <= g.midHistory <= q.history
    ensures GapFree(cmd.msgs, p.cursors, c) ==>
              var own := Nonzero(cmd.msgs[c]);
              && own != [] && g.mid == p.cursors[c := own[|own| - 1]]
              && g.midHistory == p.history + OnlineEvents(c, Zeros(cmd.msgs[c])) + [Triggered(c, Tag(c, own))]
    ensures GapFree(cmd.notificationMsgs, g.mid, c) ==>
              var own := Nonzero(cmd.notificationMsgs[c]);
              && own != [] && q.cursors == g.mid[c := own[|own| - 1]]
              && q.history == g.midHistory + OnlineEvents(c, Zeros(cmd.notificationMsgs[c])) + [Triggered(c, Tag(c, own))]
  {
    hide Covers, Exact, MistakesOf, Nonzero, Zeros, FillsInterval, Tag, OnlineEvents, EventsOf, PassedTo, QueueOf, OnlyAsks,
         FullButLast, OnlineOnce, OfPush, Untouched, IsOrder;
    if GapFree(cmd.msgs, p.cursors, c) {
      GapFreeIsPassedOn(p.cursors, p.history, g.mid, g.midHistory, g.order, cmd.msgs, c);
    }
    if GapFree(cmd.notificationMsgs, g.mid, c) {
      GapFreeIsPassedOn(g.mid, g.midHistory, q.cursors, q.history, g.notificationOrder, cmd.notificationMsgs, c);
    }
  }

  // ---------- Orderly pushes ----------

  /** A push carries at most one conversation, and its numbers, if any, are strictly increasing and lie
      above the cursor. */
  predicate Orderly(cmd: Command, cursors: Cursors) {
    cmd.Push? ==>
      && (cmd.msgs == map[] || (cmd.notificationMsgs == map[] && exists c <- cmd.msgs :: cmd.msgs.Keys == {c}))
      && (cmd.notificationMsgs == map[] || exists c <- cmd.notificationMsgs :: cmd.notificationMsgs.Keys == {c})
      && (forall c <- cmd.msgs :: NoneOrRising(cmd.msgs[c], CursorOf(cursors, c)))
      && (forall c <- cmd.notificationMsgs :: NoneOrRising(cmd.notificationMsgs[c], CursorOf(cursors, c)))
  }

  predicate NoneOrRising(msgs: seq<int>, cursor: int) {
    Nonzero(msgs) == [] || Rising(msgs, cursor)
  }

  lemma RisingIsExact(c: string, msgs: seq<int>, cursor: int)
    requires NoneOrRising(msgs, cursor)
    ensures SingleInexact(c, msgs, cursor) == {}
  {
    if Rising(msgs, cursor) {
      AscendingIsFresh(Nonzero(msgs), cursor);
    }
    hide Nonzero, Ascending, FreshNumbers;
  }

  /** Such a push passes nothing on by mistake. */
  lemma OrderlyIsExact(cmd: Command, cursors: Cursors, g: Handling)
    requires Orderly(cmd, cursors) && HandledAs(cmd, cursors, g)
    ensures MistakesIn(cmd, cursors, g) == {}
  {
    if cmd.Push? {
      hide SingleInexact, NoneOrRising, MistakesOf;
      if cmd.msgs == map[] {
        NoneInOrder(g.order, cmd.msgs, cursors);
        CursorsKept(cursors, g.mid);
      } else {
        var c :| c in cmd.msgs && cmd.msgs.Keys == {c};
        RisingIsExact(c, cmd.msgs[c], CursorOf(cursors, c));
        MistakesOfOne(c, cmd.msgs, cursors, g.order);
      }
      if cmd.notificationMsgs == map[] {
        NoneInOrder(g.notificationOrder, cmd.notificationMsgs, g.mid);
      } else {
        var c :| c in cmd.notificationMsgs && cmd.notificationMsgs.Keys == {c};
        RisingIsExact(c, cmd.notificationMsgs[c], CursorOf(cursors, c));
        MistakesOfOne(c, cmd.notificationMsgs, g.mid, g.notificationOrder);
      }
    }
  }

  lemma NoneInOrder(order: seq<string>, pushes: map<string, seq<int>>, m: Cursors)
    requires IsOrder(order, pushes.Keys) && pushes == map[]
    ensures order == [] && MistakesOf(order, pushes, m) == {}
  {
    if order != [] {
      FirstIsMember(order);
    }
  }

  lemma FirstIsMember(order: seq<string>)
    requires order != []
    ensures order[0] in order
  {
  }

  lemma CursorsKept(m: Cursors, m': Cursors)
    requires Untouched(m, m', {})
    ensures m' == m
  {
  }

  // ---------- Whole runs ----------

  /** All conversations passed on by mistake in the first n commands. */
  function MistakesUpTo(cmds: seq<Command>, trace: seq<Point>, hs: seq<Handling>, n: nat): set<string>
    requires n <= |cmds| && n <= |trace| && n <= |hs|
  {
    if n == 0 then {}
    else MistakesUpTo(cmds, trace, hs, n - 1) + MistakesIn(cmds[n - 1], trace[n - 1].cursors, hs[n - 1])
  }

  ghost predicate IsRun(cmds: seq<Command>, trace: seq<Point>, hs: seq<Handling>) {
    && |trace| == |cmds| + 1 && |hs| == |cmds|
    && forall i | 0 <= i < |cmds| :: StepOf(cmds[i], trace[i], trace[i + 1], hs[i])
  }

  /** The flag never comes back. */
  lemma {:induction false} FlagStaysDown(cmds: seq<Command>, trace: seq<Point>, hs: seq<Handling>, i: nat, n: nat)
    requires IsRun(cmds, trace, hs) && i <= n <= |cmds| && !trace[i].reinstalled
    ensures !trace[n].reinstalled
    decreases n
  {
    if i < n {
      FlagStaysDown(cmds, trace, hs, i, n - 1);
      assert StepOf(cmds[n - 1], trace[n - 1], trace[n], hs[n - 1]);
    }
  }

  /** There is at most one pass after a reinstallation. */
  lemma OnePass(cmds: seq<Command>, trace: seq<Point>, hs: seq<Handling>, i: nat, j: nat)
    requires IsRun(cmds, trace, hs) && i < |cmds| && j < |cmds|
    requires trace[i].reinstalled && !trace[i + 1].reinstalled
    requires trace[j].reinstalled && !trace[j + 1].reinstalled
    ensures i == j
  {
    if i < j {
      FlagStaysDown(cmds, trace, hs, i + 1, j);
    } else if j < i {
      FlagStaysDown(cmds, trace, hs, j + 1, i);
    }
  }

  lemma StepParts(cmd: Command, p: Point, q: Point, g: Handling)
    requires StepOf(cmd, p, q, g)
    ensures HandledAs(cmd, p.cursors, g)
    ensures q.reinstalled ==> p.reinstalled
    ensures Covers(p.cursors, p.history, q.cursors, q.history, MistakesIn(cmd, p.cursors, g))
    ensures !p.reinstalled || q.reinstalled ==> Exact(p.cursors, p.history, q.cursors, q.history, MistakesIn(cmd, p.cursors, g))
  {
    hide Exact, Covers, MistakesIn, HandledAs, BothPassOn, OnlySmall, AsksUpTo, NoneWentBack, IsPass;
  }

  /** Every number that a cursor moved over in a run was delivered or given up. */
  lemma {:induction false} RunCovers(cmds: seq<Command>, trace: seq<Point>, hs: seq<Handling>, n: nat)
    requires IsRun(cmds, trace, hs) && n <= |cmds|
    ensures Covers(trace[0].cursors, trace[0].history, trace[n].cursors, trace[n].history, MistakesUpTo(cmds, trace, hs, n))
    decreases n
  {
    hide Covers, Exact, MistakesIn, StepOf;
    if n == 0 {
      NothingCovered(trace[0].cursors, trace[0].history);
    } else {
      RunCovers(cmds, trace, hs, n - 1);
      var p, q := trace[n - 1], trace[n];
      var x := MistakesIn(cmds[n - 1], p.cursors, hs[n - 1]);
      assert StepOf(cmds[n - 1], p, q, hs[n - 1]);
      StepParts(cmds[n - 1], p, q, hs[n - 1]);
      WeakerExcept(p.cursors, p.history, q.cursors, q.history, x, MistakesUpTo(cmds, trace, hs, n));
      CoversTransitive(trace[0].cursors, trace[0].history, p.cursors, p.history, q.cursors, q.history,
                       MistakesUpTo(cmds, trace, hs, n - 1), MistakesUpTo(cmds, trace, hs, n));
    }
  }

  /** The event is a small request, or messages of one of these pushes passed on. */
  ghost predicate Accounted(e: Event, cmds: seq<Command>) {
    SmallRequest(e) || exists cmd <- cmds :: OfCommand(e, cmd)
  }

  ghost predicate OfCommand(e: Event, cmd: Command) {
    cmd.Push? && (OfPush(e, cmd.msgs) || OfPush(e, cmd.notificationMsgs))
  }

  /** Everything added is accounted for; only a pass after a reinstallation also gives up numbers of
      notifications. */
  ghost predicate OnlyFrom(h: seq<Event>, h': seq<Event>, cmds: seq<Command>, pass: bool) {
    h <= h' && forall i | |h| <= i < |h'| ::
      Accounted(h'[i], cmds) || (pass && h'[i].Skipped? && IsNotification(h'[i].conversationID))
  }

  lemma NotificationsOnly(cmd: Command, p: Point, q: Point)
    ensures !cmd.Push? ==> forall e: Event | IsSkip(e, p.cursors, Notifications(cmd.maxSeqs)) ::
                             e.Skipped? && IsNotification(e.conversationID)
  {
  }

  lemma StepIsFrom(cmd: Command, p: Point, q: Point, g: Handling)
    requires StepOf(cmd, p, q, g)
    ensures OnlyFrom(p.history, q.history, [cmd], p.reinstalled && !q.reinstalled)
  {
    hide Exact, Covers, MistakesIn, HandledAs, OfPush, SmallRequest, OnlineOnce, ExactOutside, NoneWentBack;
    hide OnlyAsks, FullButLast, EventsOf, PassedTo, QueueOf, AsksUpTo, IsSkip;
    NotificationsOnly(cmd, p, q);
    if cmd.Push? {
      forall i | |p.history| <= i < |q.history|
        ensures OfCommand(q.history[i], cmd)
      {
        assert i < |g.midHistory| ==> q.history[i] == g.midHistory[i];
      }
      assert cmd in [cmd];
    }
  }

  lemma OnlyFromTransitive(h0: seq<Event>, h1: seq<Event>, h2: seq<Event>, before: seq<Command>, more: seq<Command>,
      pass1: bool, pass2: bool)
    requires OnlyFrom(h0, h1, before, pass1) && OnlyFrom(h1, h2, more, pass2)
    ensures OnlyFrom(h0, h2, before + more, pass1 || pass2)
  {
    hide SmallRequest, OfCommand;
    forall i | |h0| <= i < |h2|
      ensures Accounted(h2[i], before + more)
              || ((pass1 || pass2) && h2[i].Skipped? && IsNotification(h2[i].conversationID))
    {
      assert i < |h1| ==> h2[i] == h1[i];
    }
  }

  /** Whatever any stretch of a run added to the history is a small request, came with one of its pushes, or
      was given up in the pass. */
  lemma {:induction false} RunIsFrom(cmds: seq<Command>, trace: seq<Point>, hs: seq<Handling>, i: nat, n: nat)
    requires IsRun(cmds, trace, hs) && i <= n <= |cmds|
    ensures OnlyFrom(trace[i].history, trace[n].history, cmds[i..n], trace[i].reinstalled && !trace[n].reinstalled)
    decreases n
  {
    hide OnlyFrom, StepOf;
    if i < n {
      var p, q := trace[n - 1], trace[n];
      RunIsFrom(cmds, trace, hs, i, n - 1);
      assert StepOf(cmds[n - 1], p, q, hs[n - 1]);
      StepIsFrom(cmds[n - 1], p, q, hs[n - 1]);
      StepParts(cmds[n - 1], p, q, hs[n - 1]);
      if p.reinstalled && !trace[i].reinstalled {
        FlagStaysDown(cmds, trace, hs, i, n - 1);
      }
      OnlyFromTransitive(trace[i].history, p.history, q.history, cmds[i..n - 1], [cmds[n - 1]],
                         trace[i].reinstalled && !p.reinstalled, p.reinstalled && !q.reinstalled);
      assert cmds[i..n - 1] + [cmds[n - 1]] == cmds[i..n];
    } else {
      NothingFrom(trace[i].history, cmds[i..n]);
    }
  }

  lemma NothingFrom(h: seq<Event>, cmds: seq<Command>)
    ensures OnlyFrom(h, h, cmds, false)
  {
  }

  lemma {:induction false} RunDelivers(cmds: seq<Command>, trace: seq<Point>, hs: seq<Handling>, i: nat, n: nat)
    requires IsRun(cmds, trace, hs) && i <= n <= |cmds| && (!trace[i].reinstalled || trace[n].reinstalled)
    ensures Exact(trace[i].cursors, trace[i].history, trace[n].cursors, trace[n].history, MistakesUpTo(cmds, trace, hs, n))
    decreases n
  {
    hide Exact, StepOf, MistakesIn;
    if n == i {
      NothingCovered(trace[i].cursors, trace[i].history);
      WeakerExcept(trace[i].cursors, trace[i].history, trace[i].cursors, trace[i].history, {}, MistakesUpTo(cmds, trace, hs, n));
    } else {
      var p, q := trace[n - 1], trace[n];
      assert StepOf(cmds[n - 1], p, q, hs[n - 1]);
      StepParts(cmds[n - 1], p, q, hs[n - 1]);
      if !trace[i].reinstalled {
        FlagStaysDown(cmds, trace, hs, i, n - 1);
      }
      RunDelivers(cmds, trace, hs, i, n - 1);
      var x := MistakesIn(cmds[n - 1], p.cursors, hs[n - 1]);
      WeakerExcept(p.cursors, p.history, q.cursors, q.history, x, MistakesUpTo(cmds, trace, hs, n));
      ExactTransitive(trace[i].cursors, trace[i].history, p.cursors, p.history, q.cursors, q.history,
                      MistakesUpTo(cmds, trace, hs, n - 1), MistakesUpTo(cmds, trace, hs, n));
    }
  }

  predicate Added(e: Event, h: seq<Event>, h': seq<Event>) {
    h <= h' && e in h'[|h|..]
  }

  /** What either half of the push carries without a gap has been passed on since, as it came. */
  ghost predicate PassedOnSince(cmd: Command, p: Point, g: Handling, h': seq<Event>) {
    cmd.Push? ==>
      && (forall c | GapFree(cmd.msgs, p.cursors, c) :: Added(Triggered(c, Tag(c, Nonzero(cmd.msgs[c]))), p.history, h'))
      && (forall c | GapFree(cmd.notificationMsgs, g.mid, c) ::
            Added(Triggered(c, Tag(c, Nonzero(cmd.notificationMsgs[c]))), p.history, h'))
  }

  lemma PassedOnStays(cmd: Command, p: Point, q: Point, g: Handling, h': seq<Event>, c: string)
    requires StepOf(cmd, p, q, g) && cmd.Push? && q.history <= h'
    ensures GapFree(cmd.msgs, p.cursors, c) ==>
              c in cmd.msgs && Added(Triggered(c, Tag(c, Nonzero(cmd.msgs[c]))), p.history, h')
    ensures GapFree(cmd.notificationMsgs, g.mid, c) ==>
              c in cmd.notificationMsgs && Added(Triggered(c, Tag(c, Nonzero(cmd.notificationMsgs[c]))), p.history, h')
  {
    hide StepOf, Nonzero, Tag, GapFree, Zeros, OnlineEvents, Added;
    StepPassesOn(cmd, p, q, g, c);
    if GapFree(cmd.msgs, p.cursors, c) {
      InGapFree(cmd.msgs, p.cursors, c);
      LastIsAdded(p.history, g.midHistory, h');
    }
    if GapFree(cmd.notificationMsgs, g.mid, c) {
      InGapFree(cmd.notificationMsgs, g.mid, c);
      LastIsAdded(p.history, q.history, h');
    }
  }

  /** A push passes on what it carries without a gap, and so has the run in every later state. */
  lemma RunPassesOn(cmds: seq<Command>, trace: seq<Point>, hs: seq<Handling>, i: nat, n: nat)
    requires IsRun(cmds, trace, hs) && i < n <= |cmds|
    ensures PassedOnSince(cmds[i], trace[i], hs[i], trace[n].history)
  {
    hide StepOf, Nonzero, Tag, GapFree, Added, Accounted;
    var cmd, p, q, g := cmds[i], trace[i], trace[i + 1], hs[i];
    assert StepOf(cmd, p, q, g);
    RunIsFrom(cmds, trace, hs, i + 1, n);
    forall c | cmd.Push?
      ensures GapFree(cmd.msgs, p.cursors, c) ==>
                c in cmd.msgs && Added(Triggered(c, Tag(c, Nonzero(cmd.msgs[c]))), p.history, trace[n].history)
      ensures GapFree(cmd.notificationMsgs, g.mid, c) ==>
                c in cmd.notificationMsgs
                && Added(Triggered(c, Tag(c, Nonzero(cmd.notificationMsgs[c]))), p.history, trace[n].history)
    {
      PassedOnStays(cmd, p, q, g, trace[n].history, c);
    }
  }

  lemma InGapFree(pushes: map<string, seq<int>>, m: Cursors, c: string)
    requires GapFree(pushes, m, c)
    ensures c in pushes
  {
  }

  lemma LastIsAdded(h: seq<Event>, h1: seq<Event>, h2: seq<Event>)
    requires h <= h1 <= h2 && |h| < |h1|
    ensures Added(h1[|h1| - 1], h, h2)
  {
    assert h2[|h|..][|h1| - 1 - |h|] == h1[|h1| - 1];
  }

  /** From any point without the flag on, a run delivers exactly what its cursors move over, by small requests
      and by passing on messages of its pushes, and moves no cursor back. */
  lemma RunIsExact(cmds: seq<Command>, trace: seq<Point>, hs: seq<Handling>, i: nat, n: nat)
    requires IsRun(cmds, trace, hs) && i <= n <= |cmds| && (!trace[i].reinstalled || trace[n].reinstalled)
    ensures Exact(trace[i].cursors, trace[i].history, trace[n].cursors, trace[n].history, MistakesUpTo(cmds, trace, hs, n))
    ensures OnlyFrom(trace[i].history, trace[n].history, cmds[i..n], false)
  {
    hide Exact, OnlyFrom, MistakesUpTo, StepOf;
    RunDelivers(cmds, trace, hs, i, n);
    RunIsFrom(cmds, trace, hs, i, n);
  }

  /** A run of orderly pushes passes nothing on by mistake. */
  lemma {:induction false} OrderlyRun(cmds: seq<Command>, trace: seq<Point>, hs: seq<Handling>, n: nat)
    requires IsRun(cmds, trace, hs) && n <= |cmds|
    requires forall i | 0 <= i < |cmds| :: Orderly(cmds[i], trace[i].cursors)
    ensures MistakesUpTo(cmds, trace, hs, n) == {}
    decreases n
  {
    hide StepOf, Exact, Covers, HandledAs, MistakesIn, Orderly;
    if n > 0 {
      OrderlyRun(cmds, trace, hs, n - 1);
      assert StepOf(cmds[n - 1], trace[n - 1], trace[n], hs[n - 1]);
      StepParts(cmds[n - 1], trace[n - 1], trace[n], hs[n - 1]);
      OrderlyIsExact(cmds[n - 1], trace[n - 1].cursors, hs[n - 1]);
    }
  }
}
