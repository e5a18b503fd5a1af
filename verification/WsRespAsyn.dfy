/** Matching responses to requests: a table of one-slot channels under one mutex.

    The steps are those between which other goroutines can run. AddCh and DelCh are one step each,
    since they hold the mutex throughout and never wait inside. NotifyResp takes the mutex and looks
    the channel up in one step, and keeps the mutex until its send, the second step, has gone
    through. A channel is its index in `chans`, the sequence of all that were ever made. */
module WsRespAsyn {
  import opened Wrappers

  type Requester = nat
  type Channel = nat

  datatype Resp = Resp(msgIncr: string, data: int)

  /** A channel of capacity one. */
  datatype Chan = Chan(open: bool, buf: seq<Resp>)

  /** One request, from AddCh to the deferred DelCh. Closing has what was received, if anything. */
  datatype Phase =
    | Waiting(msgIncr: string, ch: Channel)
    | Closing(msgIncr: string, ch: Channel, got: Option<Resp>)
    | Finished(msgIncr: string, got: Option<Resp>)

  /** The reader, between the two steps of NotifyResp, holds the mutex. */
  datatype Reader = Free | Sending(resp: Resp, ch: Channel)

  datatype State = State(
    wsNotification: map<string, Channel>,
    chans: seq<Chan>,
    phases: map<Requester, Phase>,
    reader: Reader,
    /** The identifiers handed out so far, and those answered by the server so far, in order. */
    used: set<string>,
    answered: seq<string>,
    /** A send on a closed channel, or a second close, would be a panic. */
    panicked: bool)

  datatype Action =
    | AddCh(r: Requester, msgIncr: string)
    | Receive(r: Requester)
    | GiveUp(r: Requester)
    | DelCh(r: Requester)
    | Lookup(resp: Resp)
    | Send

  const INITIAL := State(map[], [], map[], Free, {}, [], false)

  // ---------- The steps ----------

  predicate InFlight(p: Phase) {
    p.Waiting? || p.Closing?
  }

  /** AddCh and DelCh need the mutex, and identifiers are unique; a receive needs a value or a closed
      channel; a send needs a free slot or a closed channel. A request can be given up at any time:
      the write fails or the timer fires. */
  predicate Enabled(s: State, a: Action) {
    match a
    case AddCh(r, msgIncr) => s.reader.Free? && r !in s.phases && msgIncr !in s.used
    case Receive(r) =>
      && r in s.phases && s.phases[r].Waiting? && s.phases[r].ch < |s.chans|
      && (s.chans[s.phases[r].ch].buf != [] || !s.chans[s.phases[r].ch].open)
    case GiveUp(r) => r in s.phases && s.phases[r].Waiting?
    case DelCh(r) =>
      && s.reader.Free? && r in s.phases && s.phases[r].Closing?
      && (s.phases[r].msgIncr in s.wsNotification ==> s.wsNotification[s.phases[r].msgIncr] < |s.chans|)
    case Lookup(_) => s.reader.Free?
    case Send =>
      && s.reader.Sending? && s.reader.ch < |s.chans|
      && (s.chans[s.reader.ch].buf == [] || !s.chans[s.reader.ch].open)
  }

  function AddNext(s: State, r: Requester, msgIncr: string): State {
    var ch := |s.chans|;
    s.(wsNotification := s.wsNotification[msgIncr := ch], chans := s.chans + [Chan(true, [])],
       phases := s.phases[r := Waiting(msgIncr, ch)], used := s.used + {msgIncr})
  }

  /** From a closed channel with nothing in it comes the zero value. */
  function ReceiveNext(s: State, r: Requester): State
    requires Enabled(s, Receive(r))
  {
    var p := s.phases[r];
    var c := s.chans[p.ch];
    if c.buf != [] then
      s.(chans := s.chans[p.ch := c.(buf := c.buf[1..])],
         phases := s.phases[r := Closing(p.msgIncr, p.ch, Some(c.buf[0]))])
    else
      s.(phases := s.phases[r := Closing(p.msgIncr, p.ch, None)])
  }

  function GiveUpNext(s: State, r: Requester): State
    requires Enabled(s, GiveUp(r))
  {
    var p := s.phases[r];
    s.(phases := s.phases[r := Closing(p.msgIncr, p.ch, None)])
  }

  function DelNext(s: State, r: Requester): State
    requires Enabled(s, DelCh(r))
  {
    var p := s.phases[r];
    var s' := s.(phases := s.phases[r := Finished(p.msgIncr, p.got)]);
    if p.msgIncr in s.wsNotification then
      var ch := s.wsNotification[p.msgIncr];
      s'.(wsNotification := s.wsNotification - {p.msgIncr},
          chans := s.chans[ch := s.chans[ch].(open := false)],
          panicked := s.panicked || !s.chans[ch].open)
    else s'
  }

  /** The channel of the response's identifier, or an error when there is none. */
  function LookupNext(s: State, resp: Resp): State {
    var s' := s.(answered := s.answered + [resp.msgIncr]);
    if resp.msgIncr in s.wsNotification
    then s'.(reader := Sending(resp, s.wsNotification[resp.msgIncr]))
    else s'
  }

  function SendNext(s: State): State
    requires Enabled(s, Send)
  {
    var ch := s.reader.ch;
    var c := s.chans[ch];
    if !c.open then s.(reader := Free, panicked := true)
    else s.(reader := Free, chans := s.chans[ch := c.(buf := c.buf + [s.reader.resp])])
  }

  function Next(s: State, a: Action): State
    requires Enabled(s, a)
  {
    match a
    case AddCh(r, msgIncr) => AddNext(s, r, msgIncr)
    case Receive(r) => ReceiveNext(s, r)
    case GiveUp(r) => GiveUpNext(s, r)
    case DelCh(r) => DelNext(s, r)
    case Lookup(resp) => LookupNext(s, resp)
    case Send => SendNext(s)
  }

  // ---------- What every step keeps ----------

  /** Every channel in the table is open, its own, and holds only responses to its identifier. */
  predicate TableInv(s: State) {
    && s.wsNotification.Keys <= s.used
    && (forall id <- s.wsNotification :: s.wsNotification[id] < |s.chans|)
    && (forall id <- s.wsNotification :: s.chans[s.wsNotification[id]].open)
    && (forall id <- s.wsNotification ::
          var buf := s.chans[s.wsNotification[id]].buf; |buf| <= 1 && forall resp <- buf :: resp.msgIncr == id)
    && (forall i, j | i in s.wsNotification && j in s.wsNotification && i != j ::
          s.wsNotification[i] != s.wsNotification[j])
  }

  /** The requests in flight are the entries of the table, one request each. */
  predicate PhaseInv(s: State) {
    && (forall r <- s.phases | InFlight(s.phases[r]) ::
          && s.phases[r].msgIncr in s.wsNotification
          && s.wsNotification[s.phases[r].msgIncr] == s.phases[r].ch)
    && (forall r <- s.phases | !s.phases[r].Waiting? && s.phases[r].got.Some? ::
          s.phases[r].got.value.msgIncr == s.phases[r].msgIncr)
    && (forall q, r | q in s.phases && r in s.phases && InFlight(s.phases[q]) && InFlight(s.phases[r]) && q != r ::
          s.phases[q].msgIncr != s.phases[r].msgIncr)
  }

  ghost predicate OwnerInv(s: State) {
    forall id <- s.wsNotification :: exists r :: Owns(s, r, id)
  }

  predicate ReaderInv(s: State) {
    && !s.panicked
    && (s.reader.Sending? ==>
          && s.reader.resp.msgIncr in s.wsNotification
          && s.wsNotification[s.reader.resp.msgIncr] == s.reader.ch)
  }

  /** What waits in a channel or is being sent has been answered, each time counted once. */
  predicate AnswerInv(s: State) {
    forall id <- s.wsNotification :: s.wsNotification[id] < |s.chans| &&
      |s.chans[s.wsNotification[id]].buf| + Pending(s, id) <= multiset(s.answered)[id]
  }

  function Pending(s: State, id: string): nat {
    if s.reader.Sending? && s.reader.resp.msgIncr == id then 1 else 0
  }

  ghost predicate Inv(s: State) {
    TableInv(s) && PhaseInv(s) && OwnerInv(s) && ReaderInv(s) && AnswerInv(s)
  }

  lemma TableAfterAdd(s: State, r: Requester, msgIncr: string)
    requires TableInv(s) && Enabled(s, AddCh(r, msgIncr))
    ensures TableInv(AddNext(s, r, msgIncr))
  {
  }

  lemma TableAfterDel(s: State, r: Requester)
    requires TableInv(s) && Enabled(s, DelCh(r))
    ensures TableInv(DelNext(s, r))
  {
  }

  lemma TableAfterOthers(s: State, a: Action)
    requires TableInv(s) && PhaseInv(s) && ReaderInv(s) && Enabled(s, a) && !a.AddCh? && !a.DelCh?
    ensures TableInv(Next(s, a))
  {
  }

  lemma StepKeepsTable(s: State, a: Action)
    requires TableInv(s) && PhaseInv(s) && ReaderInv(s) && Enabled(s, a)
    ensures TableInv(Next(s, a))
  {
    match a
    case AddCh(r, msgIncr) => TableAfterAdd(s, r, msgIncr);
    case DelCh(r) => TableAfterDel(s, r);
    case _ => TableAfterOthers(s, a);
  }

  lemma StepKeepsReader(s: State, a: Action)
    requires TableInv(s) && PhaseInv(s) && ReaderInv(s) && Enabled(s, a)
    ensures ReaderInv(Next(s, a))
  {
  }

  lemma PhasesAfterMove(s: State, a: Action)
    requires TableInv(s) && PhaseInv(s) && Enabled(s, a) && (a.Receive? || a.GiveUp? || a.DelCh?)
    ensures PhaseInv(Next(s, a))
  {
  }

  lemma StepKeepsPhases(s: State, a: Action)
    requires TableInv(s) && PhaseInv(s) && Enabled(s, a)
    ensures PhaseInv(Next(s, a))
  {
    if a.Receive? || a.GiveUp? || a.DelCh? {
      PhasesAfterMove(s, a);
    }
  }

  /** Request r is in flight with this identifier. */
  predicate Owns(s: State, r: Requester, id: string) {
    r in s.phases && InFlight(s.phases[r]) && s.phases[r].msgIncr == id
  }

  /** An owner stays one unless it deletes its entry. */
  lemma StaysOwner(s: State, a: Action, r: Requester, id: string)
    requires PhaseInv(s) && Enabled(s, a) && Owns(s, r, id) && id in Next(s, a).wsNotification
    ensures Owns(Next(s, a), r, id)
  {
  }

  lemma StepKeepsOwners(s: State, a: Action)
    requires PhaseInv(s) && OwnerInv(s) && Enabled(s, a)
    ensures OwnerInv(Next(s, a))
  {
    var s' := Next(s, a);
    EntriesComeFrom(s, a);
    hide PhaseInv, Next, Enabled;
    forall id <- s'.wsNotification
      ensures exists r :: Owns(s', r, id)
    {
      if id in s.wsNotification {
        var r :| Owns(s, r, id);
        StaysOwner(s, a, r, id);
      } else {
        assert Owns(s', a.r, id);
      }
    }
  }

  lemma EntriesComeFrom(s: State, a: Action)
    requires Enabled(s, a)
    ensures forall id <- Next(s, a).wsNotification :: id !in s.wsNotification ==> a.AddCh? && Owns(Next(s, a), a.r, id)
  {
  }

  lemma StepKeepsAnswers(s: State, a: Action)
    requires TableInv(s) && PhaseInv(s) && ReaderInv(s) && AnswerInv(s) && Enabled(s, a)
    ensures AnswerInv(Next(s, a))
  {
  }

  lemma StepKeepsInv(s: State, a: Action)
    requires Inv(s) && Enabled(s, a)
    ensures Inv(Next(s, a))
  {
    StepKeepsTable(s, a);
    StepKeepsReader(s, a);
    StepKeepsPhases(s, a);
    StepKeepsOwners(s, a);
    StepKeepsAnswers(s, a);
  }

  // ---------- Whole runs ----------

  ghost predicate Reaches(s: State, actions: seq<Action>, s': State)
    decreases |actions|
  {
    if actions == [] then s == s'
    else Enabled(s, actions[0]) && Reaches(Next(s, actions[0]), actions[1..], s')
  }

  lemma {:induction false} ReachableInv(s: State, actions: seq<Action>, s': State)
    requires Inv(s) && Reaches(s, actions, s')
    ensures Inv(s')
    decreases |actions|
  {
    if actions != [] {
      StepKeepsInv(s, actions[0]);
      ReachableInv(Next(s, actions[0]), actions[1..], s');
    }
  }

  lemma InitialInv()
    ensures Inv(INITIAL)
  {
  }

  // ---------- The guarantees, for every run from the empty table ----------

  /** Nothing is sent on a closed channel and no channel is closed twice: the channel of every send and of every
      deletion is open, and so nothing has panicked. */
  lemma NoPanic(actions: seq<Action>, s: State)
    requires Reaches(INITIAL, actions, s)
    ensures !s.panicked
    ensures s.reader.Sending? ==> s.reader.ch < |s.chans| && s.chans[s.reader.ch].open
    ensures forall id <- s.wsNotification ::
              s.wsNotification[id] < |s.chans| && s.chans[s.wsNotification[id]].open
  {
    InitialInv();
    ReachableInv(INITIAL, actions, s);
  }

  /** Every open channel is in the table. */
  ghost predicate OpenInv(s: State) {
    forall ch: Channel | ch < |s.chans| && s.chans[ch].open :: HasEntry(s, ch)
  }

  ghost predicate HasEntry(s: State, ch: Channel) {
    exists id <- s.wsNotification :: s.wsNotification[id] == ch
  }

  lemma StepKeepsOpen(s: State, a: Action)
    requires Inv(s) && OpenInv(s) && Enabled(s, a)
    ensures OpenInv(Next(s, a))
  {
    hide OwnerInv, AnswerInv;
    var s' := Next(s, a);
    forall ch: Channel | ch < |s'.chans| && s'.chans[ch].open
      ensures HasEntry(s', ch)
    {
      if ch < |s.chans| {
        assert HasEntry(s, ch);
        var id :| id in s.wsNotification && s.wsNotification[id] == ch;
        assert id in s'.wsNotification && s'.wsNotification[id] == ch;
      } else {
        assert s'.wsNotification[a.msgIncr] == ch;
      }
    }
  }

  lemma {:induction false} ReachableOpen(s: State, actions: seq<Action>, s': State)
    requires Inv(s) && OpenInv(s) && Reaches(s, actions, s')
    ensures OpenInv(s')
    decreases |actions|
  {
    hide Inv, OpenInv, Enabled, Next;
    if actions != [] {
      StepKeepsInv(s, actions[0]);
      StepKeepsOpen(s, actions[0]);
      ReachableOpen(Next(s, actions[0]), actions[1..], s');
    }
  }

  /** A channel is open exactly while it is in the table: every deletion closes the channel that it takes out. */
  lemma OpenIsInTable(actions: seq<Action>, s: State, ch: Channel)
    requires Reaches(INITIAL, actions, s) && ch < |s.chans|
    ensures s.chans[ch].open <==> exists id <- s.wsNotification :: s.wsNotification[id] == ch
  {
    InitialInv();
    ReachableInv(INITIAL, actions, s);
    ReachableOpen(INITIAL, actions, s);
    hide Reaches;
    if s.chans[ch].open {
      assert HasEntry(s, ch);
    }
  }

  /** A requester only ever gets a response to its own request. */
  lemma OwnResponseOnly(actions: seq<Action>, s: State, r: Requester)
    requires Reaches(INITIAL, actions, s)
    requires r in s.phases && !s.phases[r].Waiting? && s.phases[r].got.Some?
    ensures s.phases[r].got.value.msgIncr == s.phases[r].msgIncr
  {
    InitialInv();
    ReachableInv(INITIAL, actions, s);
  }

  // ---------- Every response sent is received ----------

  /** The response that a step puts into a channel. */
  function SentBy(s: State, a: Action): seq<Resp> {
    if a.Send? && s.reader.Sending? then [s.reader.resp] else []
  }

  /** The responses sent in a run, in order. */
  ghost function Sends(s: State, actions: seq<Action>): seq<Resp>
    decreases |actions|
  {
    if actions == [] || !Enabled(s, actions[0]) then []
    else SentBy(s, actions[0]) + Sends(Next(s, actions[0]), actions[1..])
  }

  /** Those to one identifier. */
  function ToID(resps: seq<Resp>, id: string): seq<Resp> {
    if resps == [] then []
    else
      var last := resps[|resps| - 1];
      ToID(resps[..|resps| - 1], id) + if last.msgIncr == id then [last] else []
  }

  lemma ToIDOneMore(resps: seq<Resp>, x: Resp, id: string)
    ensures ToID(resps + [x], id) == ToID(resps, id) + if x.msgIncr == id then [x] else []
  {
    assert (resps + [x])[..|resps|] == resps;
  }

  /** A waiting request finds in its channel what was sent to it; one that has received something has received
      the first response sent to it. Nothing is sent that the reader was not handed before, and a request that
      ends without a response gave up. */
  ghost predicate SendInv(s: State, sends: seq<Resp>, done: seq<Action>) {
    && (forall r <- s.phases :: s.phases[r].msgIncr in s.used)
    && (forall r <- s.phases | s.phases[r].Waiting? ::
          s.phases[r].ch < |s.chans| && s.chans[s.phases[r].ch].buf == ToID(sends, s.phases[r].msgIncr))
    && (forall r <- s.phases | !s.phases[r].Waiting? :: Got(r, s.phases[r].msgIncr, s.phases[r].got, sends, done))
    && (forall id | id !in s.used :: ToID(sends, id) == [])
    && (forall x <- sends :: Lookup(x) in done)
    && (s.reader.Sending? ==> Lookup(s.reader.resp) in done)
  }

  ghost predicate Got(r: Requester, id: string, got: Option<Resp>, sends: seq<Resp>, done: seq<Action>) {
    if got.Some? then ToID(sends, id) != [] && ToID(sends, id)[0] == got.value else GiveUp(r) in done
  }

  lemma SentAfterSend(s: State, sends: seq<Resp>, done: seq<Action>)
    requires TableInv(s) && PhaseInv(s) && ReaderInv(s) && Enabled(s, Send) && SendInv(s, sends, done)
    ensures SendInv(SendNext(s), sends + [s.reader.resp], done + [Send])
  {
    var x, s' := s.reader.resp, SendNext(s);
    forall id
      ensures ToID(sends + [x], id) == ToID(sends, id) + if x.msgIncr == id then [x] else []
    {
      ToIDOneMore(sends, x, id);
    }
    hide ToID;
    forall r <- s'.phases | s'.phases[r].Waiting?
      ensures s'.phases[r].ch < |s'.chans|
      ensures s'.chans[s'.phases[r].ch].buf == ToID(sends + [x], s'.phases[r].msgIncr)
    {
      assert InFlight(s.phases[r]);
    }
  }

  lemma SentAfterReceive(s: State, r: Requester, sends: seq<Resp>, done: seq<Action>)
    requires TableInv(s) && PhaseInv(s) && Enabled(s, Receive(r)) && SendInv(s, sends, done)
    ensures SendInv(ReceiveNext(s, r), sends, done + [Receive(r)])
  {
    hide ToID;
    assert InFlight(s.phases[r]);
    var s' := ReceiveNext(s, r);
    forall q <- s'.phases | s'.phases[q].Waiting?
      ensures s'.phases[q].ch < |s'.chans| && s'.chans[s'.phases[q].ch].buf == ToID(sends, s'.phases[q].msgIncr)
    {
      assert InFlight(s.phases[q]) && s.phases[q].msgIncr != s.phases[r].msgIncr;
    }
  }

  lemma SentAfterDel(s: State, r: Requester, sends: seq<Resp>, done: seq<Action>)
    requires TableInv(s) && PhaseInv(s) && Enabled(s, DelCh(r)) && SendInv(s, sends, done)
    ensures SendInv(DelNext(s, r), sends, done + [DelCh(r)])
  {
    hide ToID;
  }

  lemma SentAfterOthers(s: State, a: Action, sends: seq<Resp>, done: seq<Action>)
    requires Enabled(s, a) && SendInv(s, sends, done) && (a.AddCh? || a.GiveUp? || a.Lookup?)
    ensures SendInv(Next(s, a), sends, done + [a])
  {
    hide ToID;
    assert a in done + [a];
  }

  lemma StepKeepsSent(s: State, a: Action, sends: seq<Resp>, done: seq<Action>)
    requires Inv(s) && Enabled(s, a) && SendInv(s, sends, done)
    ensures SendInv(Next(s, a), sends + SentBy(s, a), done + [a])
  {
    hide SendInv, OwnerInv, AnswerInv, TableInv, PhaseInv, ReaderInv;
    if a.Send? {
      SentAfterSend(s, sends, done);
    } else {
      assert sends + SentBy(s, a) == sends;
      match a
      case Receive(r) => SentAfterReceive(s, r, sends, done);
      case DelCh(r) => SentAfterDel(s, r, sends, done);
      case _ => SentAfterOthers(s, a, sends, done);
    }
  }

  lemma {:induction false} RunKeepsSent(s: State, actions: seq<Action>, s': State, sends: seq<Resp>, done: seq<Action>)
    requires Inv(s) && SendInv(s, sends, done) && Reaches(s, actions, s')
    ensures SendInv(s', sends + Sends(s, actions), done + actions)
    decreases |actions|
  {
    hide Inv, SendInv, Enabled, Next;
    if actions == [] {
      assert sends + [] == sends && done + [] == done;
    } else {
      var a, rest := actions[0], actions[1..];
      StepKeepsSent(s, a, sends, done);
      StepKeepsInv(s, a);
      RunKeepsSent(Next(s, a), rest, s', sends + SentBy(s, a), done + [a]);
      assert done + [a] + rest == done + actions;
      assert sends + SentBy(s, a) + Sends(Next(s, a), rest) == sends + Sends(s, actions);
    }
  }

  lemma ReachableSent(actions: seq<Action>, s: State)
    requires Reaches(INITIAL, actions, s)
    ensures Inv(s) && SendInv(s, Sends(INITIAL, actions), actions)
  {
    InitialInv();
    ReachableInv(INITIAL, actions, s);
    assert SendInv(INITIAL, [], []);
    RunKeepsSent(INITIAL, actions, s, [], []);
    assert [] + Sends(INITIAL, actions) == Sends(INITIAL, actions) && [] + actions == actions;
  }

  /** A response that a requester got is the first one sent to its identifier, with its data, and the server
      gave it to the reader; a requester that ends without one gave up. */
  lemma GotIsFirstSent(actions: seq<Action>, s: State, r: Requester)
    requires Reaches(INITIAL, actions, s) && r in s.phases && !s.phases[r].Waiting?
    ensures var got, sent := s.phases[r].got, ToID(Sends(INITIAL, actions), s.phases[r].msgIncr);
            if got.Some? then
              && sent != [] && got.value == sent[0] && got.value in Sends(INITIAL, actions)
              && Lookup(got.value) in actions
            else GiveUp(r) in actions
  {
    ReachableSent(actions, s);
    ToIDMembers(Sends(INITIAL, actions), s.phases[r].msgIncr);
    hide Sends, ToID, Inv;
  }

  lemma {:induction false} ToIDMembers(resps: seq<Resp>, id: string)
    ensures forall x :: x in ToID(resps, id) <==> x in resps && x.msgIncr == id
  {
    if resps != [] {
      ToIDMembers(resps[..|resps| - 1], id);
      assert forall x :: x in resps <==> x in resps[..|resps| - 1] || x == resps[|resps| - 1];
    }
  }

  /** A waiting requester can receive exactly when a response has been sent to its identifier, and then it gets
      the first of them; it never receives from a closed channel. */
  lemma ReceiveGetsFirst(actions: seq<Action>, s: State, r: Requester)
    requires Reaches(INITIAL, actions, s) && r in s.phases && s.phases[r].Waiting?
    ensures var sent := ToID(Sends(INITIAL, actions), s.phases[r].msgIncr);
            && (Enabled(s, Receive(r)) <==> sent != [])
            && (Enabled(s, Receive(r)) ==>
                  Next(s, Receive(r)).phases[r] == Closing(s.phases[r].msgIncr, s.phases[r].ch, Some(sent[0])))
  {
    ReachableSent(actions, s);
    hide Sends, ToID;
  }

  /** The run in which one request is answered: the requester has the response, with its data. */
  lemma AnsweredRun(id: string, data: int)
    ensures var resp := Resp(id, data);
            exists s :: Reaches(INITIAL, [AddCh(0, id), Lookup(resp), Send, Receive(0), DelCh(0)], s)
                        && s.phases == map[0 := Finished(id, Some(resp))] && s.wsNotification == map[]
  {
    var resp := Resp(id, data);
    var s1 := Next(INITIAL, AddCh(0, id));
    var s2 := Next(s1, Lookup(resp));
    var s3 := Next(s2, Send);
    var s4 := Next(s3, Receive(0));
    assert s3.chans[0].buf == [resp];
    var s5 := Next(s4, DelCh(0));
    assert s5.phases == map[0 := Finished(id, Some(resp))] && s5.wsNotification == map[];
    hide Next, Enabled;
    ReachesBy(s4, DelCh(0), [], s5);
    ReachesBy(s3, Receive(0), [DelCh(0)], s5);
    ReachesBy(s2, Send, [Receive(0), DelCh(0)], s5);
    ReachesBy(s1, Lookup(resp), [Send, Receive(0), DelCh(0)], s5);
    ReachesBy(INITIAL, AddCh(0, id), [Lookup(resp), Send, Receive(0), DelCh(0)], s5);
  }

  /** The table has exactly the identifiers of the requests in flight. */
  lemma TableIsInFlight(actions: seq<Action>, s: State)
    requires Reaches(INITIAL, actions, s)
    ensures s.wsNotification.Keys == set r | r in s.phases && InFlight(s.phases[r]) :: s.phases[r].msgIncr
  {
    InitialInv();
    ReachableInv(INITIAL, actions, s);
    hide Reaches, Next, Enabled;
    forall id | id in s.wsNotification
      ensures id in set r | r in s.phases && InFlight(s.phases[r]) :: s.phases[r].msgIncr
    {
      var r :| Owns(s, r, id);
    }
  }

  /** When no identifier was answered twice, a send goes through at once: the mutex is never held by a
      reader that has to wait. */
  lemma NeverBlocks(actions: seq<Action>, s: State)
    requires Reaches(INITIAL, actions, s)
    requires forall id :: multiset(s.answered)[id] <= 1
    requires s.reader.Sending?
    ensures Enabled(s, Send)
  {
    InitialInv();
    ReachableInv(INITIAL, actions, s);
    assert Pending(s, s.reader.resp.msgIncr) == 1;
    assert multiset(s.answered)[s.reader.resp.msgIncr] <= 1;
  }

  /** The reader waits for a slot that only this request could free. */
  ghost predicate Blocked(s: State) {
    s.reader.Sending? && !Enabled(s, Send)
  }

  /** While the requester is still waiting, it can take the value out, and then the send goes through. */
  lemma WaitingRequesterUnblocks(actions: seq<Action>, s: State, r: Requester)
    requires Reaches(INITIAL, actions, s) && Blocked(s)
    requires r in s.phases && s.phases[r].Waiting? && s.phases[r].msgIncr == s.reader.resp.msgIncr
    ensures Enabled(s, Receive(r)) && Enabled(Next(s, Receive(r)), Send)
  {
    InitialInv();
    ReachableInv(INITIAL, actions, s);
  }

  /** The reader is blocked on a full channel whose requester no longer reads from it. */
  predicate Stuck(s: State, r: Requester) {
    && s.reader.Sending? && s.reader.ch < |s.chans|
    && s.chans[s.reader.ch].open && s.chans[s.reader.ch].buf != []
    && r in s.phases && s.phases[r].Closing? && s.phases[r].ch == s.reader.ch
    && (forall q <- s.phases | q != r && s.phases[q].Waiting? :: s.phases[q].ch != s.reader.ch)
  }

  /** Once the requester has given up, it needs the mutex that the reader holds, and the reader waits
      for a slot that nobody frees: in every continuation nothing is sent, added or deleted any more. */
  lemma {:induction false} StuckForever(s: State, r: Requester, actions: seq<Action>, s': State)
    requires Stuck(s, r) && Reaches(s, actions, s')
    ensures Stuck(s', r) && s'.reader == s.reader && s'.wsNotification == s.wsNotification
    decreases |actions|
  {
    if actions != [] {
      assert Stuck(Next(s, actions[0]), r);
      StuckForever(Next(s, actions[0]), r, actions[1..], s');
    }
  }

  /** A blocked reader is stuck for good exactly when the requester has stopped waiting. */
  lemma BlockedForGoodIff(actions: seq<Action>, s: State, r: Requester)
    requires Reaches(INITIAL, actions, s) && Blocked(s)
    requires r in s.phases && InFlight(s.phases[r]) && s.phases[r].msgIncr == s.reader.resp.msgIncr
    ensures Stuck(s, r) <==> !s.phases[r].Waiting?
  {
    InitialInv();
    ReachableInv(INITIAL, actions, s);
  }

  /** Request 0 has been answered once and has not looked yet. */
  function AnsweredOnce(id: string): State {
    State(map[id := 0], [Chan(true, [Resp(id, 0)])], map[0 := Waiting(id, 0)], Free, {id}, [id], false)
  }

  lemma FirstAnswer(id: string)
    ensures Reaches(INITIAL, [AddCh(0, id), Lookup(Resp(id, 0)), Send], AnsweredOnce(id))
  {
    var resp := Resp(id, 0);
    var s1 := Next(INITIAL, AddCh(0, id));
    var s2 := Next(s1, Lookup(resp));
    assert [] + [resp] == [resp] && [Chan(true, [])][0 := Chan(true, [resp])] == [Chan(true, [resp])];
    assert Enabled(s2, Send) && Next(s2, Send) == AnsweredOnce(id);
    hide Next, Enabled;
    ReachesBy(s2, Send, [], AnsweredOnce(id));
    ReachesBy(s1, Lookup(resp), [Send], AnsweredOnce(id));
    ReachesBy(INITIAL, AddCh(0, id), [Lookup(resp), Send], AnsweredOnce(id));
  }

  /** Two answers to one request are enough for that. */
  lemma TwoAnswersCanDeadlock(id: string)
    ensures exists actions, s :: Reaches(INITIAL, actions, s) && Stuck(s, 0)
  {
    var resp := Resp(id, 0);
    FirstAnswer(id);
    var s3 := AnsweredOnce(id);
    var s4 := Next(s3, Lookup(resp));
    var s5 := Next(s4, GiveUp(0));
    assert Stuck(s5, 0);
    hide Next, Enabled, Stuck, AnsweredOnce;
    ReachesBy(s4, GiveUp(0), [], s5);
    ReachesBy(s3, Lookup(resp), [GiveUp(0)], s5);
    ReachesConcat(INITIAL, [AddCh(0, id), Lookup(resp), Send], s3, [Lookup(resp), GiveUp(0)], s5);
  }

  lemma {:induction false} ReachesConcat(s: State, front: seq<Action>, mid: State, back: seq<Action>, s': State)
    requires Reaches(s, front, mid) && Reaches(mid, back, s')
    ensures Reaches(s, front + back, s')
    decreases |front|
  {
    hide Enabled, Next;
    if front == [] {
      assert front + back == back;
    } else {
      ReachesConcat(Next(s, front[0]), front[1..], mid, back, s');
      ReachesBy(s, front[0], front[1..] + back, s');
      assert [front[0]] + (front[1..] + back) == front + back;
    }
  }

  lemma ReachesBy(s: State, a: Action, rest: seq<Action>, s': State)
    requires Enabled(s, a) && Reaches(Next(s, a), rest, s')
    ensures Reaches(s, [a] + rest, s')
  {
    assert ([a] + rest)[1..] == rest;
    hide Enabled, Next;
  }

  // ---------- The object ----------

  /** The table of waiting requests; each method is one step. */
  class WsRespAsyn {
    var wsNotification: map<string, Channel>
    var chans: seq<Chan>
    ghost var phases: map<Requester, Phase>
    ghost var reader: Reader
    ghost var used: set<string>
    ghost var answered: seq<string>
    ghost var panicked: bool

    ghost function Snapshot(): State
      reads this
    {
      State(wsNotification, chans, phases, reader, used, answered, panicked)
    }

    constructor ()
      ensures Snapshot() == INITIAL && Inv(Snapshot())
    {
      wsNotification, chans, phases := map[], [], map[];
      reader, used, answered, panicked := Free, {}, [], false;
    }

    /** The identifier is generated by the caller here; it must be new. */
    method AddCh(ghost r: Requester, msgIncr: string) returns (ch: Channel)
      requires Inv(Snapshot()) && Enabled(Snapshot(), Action.AddCh(r, msgIncr))
      modifies this
      ensures Snapshot() == Next(old(Snapshot()), Action.AddCh(r, msgIncr)) && Inv(Snapshot())
      ensures phases[r] == Waiting(msgIncr, ch)
    {
      ghost var before := Snapshot();
      StepKeepsInv(before, Action.AddCh(r, msgIncr));
      hide Inv;
      ch := |chans|;
      chans := chans + [Chan(true, [])];
      wsNotification := wsNotification[msgIncr := ch];
      phases := phases[r := Waiting(msgIncr, ch)];
      used := used + {msgIncr};
    }

    method DelCh(ghost r: Requester, msgIncr: string)
      requires Inv(Snapshot()) && Enabled(Snapshot(), Action.DelCh(r)) && phases[r].msgIncr == msgIncr
      modifies this
      ensures Snapshot() == Next(old(Snapshot()), Action.DelCh(r)) && Inv(Snapshot())
      ensures msgIncr !in wsNotification
    {
      ghost var before := Snapshot();
      StepKeepsInv(before, Action.DelCh(r));
      hide Inv;
      if msgIncr in wsNotification {
        var ch := wsNotification[msgIncr];
        panicked := panicked || !chans[ch].open;
        chans := chans[ch := chans[ch].(open := false)];
        wsNotification := wsNotification - {msgIncr};
      }
      phases := phases[r := Finished(phases[r].msgIncr, phases[r].got)];
    }

    /** The select of sendAndWaitResp: what the channel has, or nothing when the timer fires first. */
    method SelectResp(ghost r: Requester, ch: Channel) returns (resp: Option<Resp>)
      requires Inv(Snapshot()) && r in phases && phases[r].Waiting? && phases[r].ch == ch
      modifies this
      ensures Inv(Snapshot())
      ensures Enabled(old(Snapshot()), if resp.Some? then Receive(r) else GiveUp(r))
      ensures Snapshot() == Next(old(Snapshot()), if resp.Some? then Receive(r) else GiveUp(r))
      ensures resp.Some? ==> old(chans[ch].buf) == [resp.value]
      ensures phases[r] == Closing(old(phases[r].msgIncr), ch, resp)
    {
      ghost var before := Snapshot();
      assert InFlight(before.phases[r]);
      var fired: bool := *;
      resp := None;
      if chans[ch].buf != [] && !fired {
        StepKeepsInv(before, Receive(r));
        resp := Some(chans[ch].buf[0]);
        chans := chans[ch := chans[ch].(buf := chans[ch].buf[1..])];
      } else {
        StepKeepsInv(before, GiveUp(r));
      }
      hide Inv;
      phases := phases[r := Closing(phases[r].msgIncr, ch, resp)];
    }

    method GetCh(msgIncr: string) returns (ch: Option<Channel>)
      ensures ch == if msgIncr in wsNotification then Some(wsNotification[msgIncr]) else None
    {
      if msgIncr in wsNotification {
        ch := Some(wsNotification[msgIncr]);
      } else {
        ch := None;
      }
    }

    /** NotifyResp up to the send: without a channel it ends with an error, otherwise the reader goes on
        with the mutex held. */
    method NotifyLookup(resp: Resp) returns (found: bool)
      requires Inv(Snapshot()) && Enabled(Snapshot(), Lookup(resp))
      modifies this
      ensures Snapshot() == Next(old(Snapshot()), Lookup(resp)) && Inv(Snapshot())
      ensures found <==> reader.Sending?
    {
      ghost var before := Snapshot();
      StepKeepsInv(before, Lookup(resp));
      hide Inv;
      var ch := GetCh(resp.msgIncr);
      answered := answered + [resp.msgIncr];
      found := ch.Some?;
      if found {
        reader := Sending(resp, ch.value);
      }
    }

    /** notifyCh: the send goes through because the channel is open and has a free slot. */
    method NotifySend(resp: Resp, ch: Channel)
      requires Inv(Snapshot()) && reader == Sending(resp, ch) && Enabled(Snapshot(), Send)
      modifies this
      ensures Snapshot() == Next(old(Snapshot()), Send) && Inv(Snapshot())
      ensures ch == old(reader.ch) && chans[ch].buf == [resp]
    {
      ghost var before := Snapshot();
      StepKeepsInv(before, Send);
      assert before.chans[ch].open;
      hide Inv;
      chans := chans[ch := chans[ch].(buf := chans[ch].buf + [resp])];
      reader := Free;
    }
  }
}
