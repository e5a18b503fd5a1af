/** A batch of pushed messages: which are new, which are counted as unread, and what the conversations of
    the database become. Tables are values; the conversations that the batch folds into are objects. */
module NewMessages {
  import opened ConversationFold
  import opened MaxSeqRecorders
  import opened SeqLists
  import opened UnreadAccounting
  import opened Wrappers

  /** A message with its switches. Parsing its content fails or succeeds; text stands for the message as
      it is shown in the conversation. */
  datatype Msg = Msg(clientMsgID: string, seq_: int, sendTime: int, text: string, own: bool, parses: bool, deleted: bool,
                     unreadCount: bool, conversationUpdate: bool, senderConversationUpdate: bool)

  // ---------- Classification ----------

  /** The message gets past the checks on its content, its state and its IDs. */
  predicate Accepted(conversationID: string, m: Msg) {
    m.parses && !m.deleted && m.clientMsgID != "" && conversationID != ""
  }

  /** Whether the recorder is asked about the message. */
  predicate Countable(conversationID: string, stored: set<string>, m: Msg) {
    Accepted(conversationID, m) && !m.own && m.clientMsgID !in stored && m.unreadCount
  }

  /** Whether the message is folded into its conversation. */
  predicate Updating(conversationID: string, stored: set<string>, m: Msg) {
    && Accepted(conversationID, m) && m.clientMsgID !in stored && m.conversationUpdate
    && (m.own ==> m.senderConversationUpdate)
  }

  lemma ClassifiedAs(conversationID: string, stored: set<string>, m: Msg)
    ensures var accepted := m.parses && !m.deleted && m.clientMsgID != "" && conversationID != "" && m.clientMsgID !in stored;
            && (Countable(conversationID, stored, m) <==> accepted && !m.own && m.unreadCount)
            && (Updating(conversationID, stored, m)
                <==> accepted && m.conversationUpdate && (!m.own || m.senderConversationUpdate))
  {
  }

  /** The numbers that the recorder is asked about, in order. */
  function Stream(conversationID: string, stored: set<string>, msgs: seq<Msg>): seq<int> {
    if msgs == [] then []
    else
      var last := msgs[|msgs| - 1];
      Stream(conversationID, stored, msgs[..|msgs| - 1])
      + if Countable(conversationID, stored, last) then [last.seq_] else []
  }

  /** The recorder decides that message n of the batch is new. */
  predicate IsCounted(start: int, conversationID: string, stored: set<string>, msgs: seq<Msg>, n: nat)
    requires n < |msgs|
  {
    && Countable(conversationID, stored, msgs[n])
    && msgs[n].seq_ > Recorder(start, Stream(conversationID, stored, msgs[..n]))
  }

  /** What is folded into the conversation, in order. */
  function Summaries(start: int, conversationID: string, stored: set<string>, msgs: seq<Msg>): seq<Summary> {
    if msgs == [] then []
    else
      var n := |msgs| - 1;
      Summaries(start, conversationID, stored, msgs[..n])
      + if Updating(conversationID, stored, msgs[n])
        then [Summary(if IsCounted(start, conversationID, stored, msgs, n) then 1 else 0, msgs[n].text, msgs[n].sendTime)]
        else []
  }

  /** What one more message adds to the stream and to the summaries. */
  lemma OneMessage(start: int, id: string, stored: set<string>, msgs: seq<Msg>, i: nat)
    requires i < |msgs|
    ensures var s := Stream(id, stored, msgs[..i]);
            var m := msgs[i];
            && Stream(id, stored, msgs[..i + 1]) == (if Countable(id, stored, m) then s + [m.seq_] else s)
            && Recorder(start, Stream(id, stored, msgs[..i + 1]))
               == Recorder(start, s) + (if Countable(id, stored, m) && m.seq_ > Recorder(start, s) then 1 else 0)
            && Summaries(start, id, stored, msgs[..i + 1])
               == var xs := Summaries(start, id, stored, msgs[..i]);
                  if Updating(id, stored, m)
                  then xs + [Summary(if Countable(id, stored, m) && m.seq_ > Recorder(start, s) then 1 else 0, m.text, m.sendTime)]
                  else xs
  {
    var more := msgs[..i + 1];
    assert more[..i] == msgs[..i];
    var s := Stream(id, stored, msgs[..i]);
    assert (s + [msgs[i].seq_])[..|s|] == s;
    assert s + [] == s;
    var xs := Summaries(start, id, stored, msgs[..i]);
    assert xs + [] == xs;
  }

  /** How many messages are counted but belong to no conversation update. */
  function CountedUnseen(start: int, conversationID: string, stored: set<string>, msgs: seq<Msg>): nat {
    if msgs == [] then 0
    else
      var n := |msgs| - 1;
      CountedUnseen(start, conversationID, stored, msgs[..n])
      + if IsCounted(start, conversationID, stored, msgs, n) && !Updating(conversationID, stored, msgs[n]) then 1 else 0
  }

  /** The batch adds to the unread count what the recorder grows by, less the counted messages that come
      without the conversation update switch. */
  lemma {:induction false} BatchUnread(start: int, conversationID: string, stored: set<string>, msgs: seq<Msg>)
    ensures SumUnread(Summaries(start, conversationID, stored, msgs))
            == Recorder(start, Stream(conversationID, stored, msgs)) - start
               - CountedUnseen(start, conversationID, stored, msgs)
  {
    if msgs != [] {
      var n := |msgs| - 1;
      BatchUnread(start, conversationID, stored, msgs[..n]);
      OneMessage(start, conversationID, stored, msgs, n);
      assert msgs[..n + 1] == msgs;
      var xs := Summaries(start, conversationID, stored, msgs[..n]);
      SumAppend(xs, Summary(1, msgs[n].text, msgs[n].sendTime));
      SumAppend(xs, Summary(0, msgs[n].text, msgs[n].sendTime));
      hide Stream, Summaries, Recorder, SumUnread, Accepted;
    }
  }

  /** Every countable message updates its conversation. */
  predicate AllShown(conversationID: string, stored: set<string>, msgs: seq<Msg>) {
    forall m <- msgs :: Countable(conversationID, stored, m) ==> m.conversationUpdate
  }

  lemma {:induction false} NoneUnseen(start: int, conversationID: string, stored: set<string>, msgs: seq<Msg>)
    requires AllShown(conversationID, stored, msgs)
    ensures CountedUnseen(start, conversationID, stored, msgs) == 0
  {
    if msgs != [] {
      NoneUnseen(start, conversationID, stored, msgs[..|msgs| - 1]);
    }
  }

  // ---------- Batches ----------

  /** A batch of one conversation with the table it meets. */
  datatype Batch = Batch(stored: set<string>, msgs: seq<Msg>)

  function StreamOf(conversationID: string, batches: seq<Batch>): seq<int> {
    if batches == [] then []
    else
      var last := batches[|batches| - 1];
      StreamOf(conversationID, batches[..|batches| - 1]) + Stream(conversationID, last.stored, last.msgs)
  }

  /** The unread count that a list of batches adds up to, the recorder going on from batch to batch. */
  function UnreadOf(start: int, conversationID: string, batches: seq<Batch>): int {
    if batches == [] then 0
    else
      var front, last := batches[..|batches| - 1], batches[|batches| - 1];
      UnreadOf(start, conversationID, front)
      + SumUnread(Summaries(Recorder(start, StreamOf(conversationID, front)), conversationID, last.stored, last.msgs))
  }

  /** How many messages of the batches are counted but belong to no conversation update. */
  function UnseenOf(start: int, conversationID: string, batches: seq<Batch>): nat {
    if batches == [] then 0
    else
      var front, last := batches[..|batches| - 1], batches[|batches| - 1];
      UnseenOf(start, conversationID, front)
      + CountedUnseen(Recorder(start, StreamOf(conversationID, front)), conversationID, last.stored, last.msgs)
  }

  lemma {:induction false} UnreadOfIs(start: int, conversationID: string, batches: seq<Batch>)
    ensures UnreadOf(start, conversationID, batches)
            == Recorder(start, StreamOf(conversationID, batches)) - start - UnseenOf(start, conversationID, batches)
  {
    if batches != [] {
      var front, last := batches[..|batches| - 1], batches[|batches| - 1];
      UnreadOfIs(start, conversationID, front);
      var s := StreamOf(conversationID, front);
      BatchUnread(Recorder(start, s), conversationID, last.stored, last.msgs);
      RecorderSplits(start, s, Stream(conversationID, last.stored, last.msgs));
      hide Stream, Summaries, Recorder, SumUnread, CountedUnseen;
    }
  }

  lemma {:induction false} NoneUnseenOf(start: int, conversationID: string, batches: seq<Batch>)
    requires forall b <- batches :: AllShown(conversationID, b.stored, b.msgs)
    ensures UnseenOf(start, conversationID, batches) == 0
  {
    if batches != [] {
      var front, last := batches[..|batches| - 1], batches[|batches| - 1];
      NoneUnseenOf(start, conversationID, front);
      NoneUnseen(Recorder(start, StreamOf(conversationID, front)), conversationID, last.stored, last.msgs);
      hide CountedUnseen, AllShown, Recorder, StreamOf;
    }
  }

  /** Over any batches, in any order, the unread count grows by exactly the number of messages above the
      snapshot if and only if each of them, and no other, is counted, and every one counted updates its
      conversation. */
  lemma {:induction false} UnreadExactIff(snapshot: int, conversationID: string, batches: seq<Batch>)
    ensures var stream := StreamOf(conversationID, batches);
            UnreadOf(snapshot, conversationID, batches) == Above(snapshot, stream)
            <==> ExactlyTheNew(snapshot, stream) && UnseenOf(snapshot, conversationID, batches) == 0
  {
    var stream := StreamOf(conversationID, batches);
    UnreadOfIs(snapshot, conversationID, batches);
    ExactIff(snapshot, stream);
    RecorderBounds(snapshot, stream);
    hide Recorder, Above, StreamOf, UnreadOf, UnseenOf, ExactlyTheNew, AllFarEnough;
  }

  /** Unread counting is exact: over any batches whose countable messages come in increasing order and
      update their conversation, the unread count grows by the number of messages above the snapshot,
      and so does the recorder. */
  lemma {:induction false} UnreadIsExact(snapshot: int, conversationID: string, batches: seq<Batch>)
    requires Ascending(StreamOf(conversationID, batches))
    requires forall b <- batches :: AllShown(conversationID, b.stored, b.msgs)
    ensures UnreadOf(snapshot, conversationID, batches) == Above(snapshot, StreamOf(conversationID, batches))
    ensures Recorder(snapshot, StreamOf(conversationID, batches)) == snapshot + Above(snapshot, StreamOf(conversationID, batches))
    ensures ExactlyTheNew(snapshot, StreamOf(conversationID, batches))
  {
    IncreasingIsExact(snapshot, StreamOf(conversationID, batches));
    NoneUnseenOf(snapshot, conversationID, batches);
    UnreadExactIff(snapshot, conversationID, batches);
    hide Recorder, Above, StreamOf, UnreadOf, UnseenOf, ExactlyTheNew, Ascending;
  }

  /** A new message that is counted but does not update its conversation is lost from the unread count,
      and the recorder grows all the same. */
  lemma CountedNotShown(start: int, m: Msg)
    requires Countable("c", {}, m) && !m.conversationUpdate && m.seq_ > start
    ensures Recorder(start, Stream("c", {}, [m])) == start + 1
    ensures Summaries(start, "c", {}, [m]) == []
  {
    assert [m][..0] == [] && [m.seq_][..0] == [];
    assert Stream("c", {}, [m]) == [m.seq_];
  }

  // ---------- The table after a batch ----------

  datatype Row = Row(summary: Summary, hasRead: int)

  function SummariesOf(rows: map<string, Row>): map<string, Summary> {
    map k | k in rows :: rows[k].summary
  }

  /** A conversation of the batch that something is folded into. */
  predicate Touched(recorder: map<string, int>, stored: map<string, set<string>>, allMsg: map<string, seq<Msg>>, k: string)
    requires k in allMsg
  {
    Summaries(At(recorder, k), k, Ids(stored, k), allMsg[k]) != []
  }

  function At(recorder: map<string, int>, k: string): int {
    if k in recorder then recorder[k] else 0
  }

  function Ids(stored: map<string, set<string>>, k: string): set<string> {
    if k in stored then stored[k] else {}
  }

  /** The conversations generated from the batch. */
  function Generated(recorder: map<string, int>, stored: map<string, set<string>>, allMsg: map<string, seq<Msg>>, done: set<string>)
      : map<string, Summary> {
    map k | k in allMsg && k in done && Touched(recorder, stored, allMsg, k) ::
      Fold(Summaries(At(recorder, k), k, Ids(stored, k), allMsg[k]))
  }

  /** The table after the batch: written are the changed conversations that could be written back,
      inserted says whether the new ones could be named and inserted. */
  function AfterBatch(rows: map<string, Row>, generated: map<string, Summary>, written: set<string>, inserted: bool): map<string, Row> {
    if inserted then Changed(rows, generated, written) + New(rows, generated) else Changed(rows, generated, written)
  }

  function Changed(rows: map<string, Row>, generated: map<string, Summary>, written: set<string>): map<string, Row> {
    map k | k in rows ::
      if k in generated && k in written then rows[k].(summary := Merge(rows[k].summary, generated[k])) else rows[k]
  }

  function New(rows: map<string, Row>, generated: map<string, Summary>): map<string, Row> {
    map k | k in generated && k !in rows :: Row(generated[k], 0)
  }

  /** A row of the table is kept, with the batch merged into it when it could be written back; a conversation
      that is not in the table gets a row with nothing read, when the new ones were inserted. */
  lemma AfterBatchIs(rows: map<string, Row>, generated: map<string, Summary>, written: set<string>, inserted: bool, k: string)
    ensures var after := AfterBatch(rows, generated, written, inserted);
            && (k in after <==> k in rows || (inserted && k in generated))
            && (k in rows ==>
                  after[k] == if k in generated && k in written
                              then Row(Merge(rows[k].summary, generated[k]), rows[k].hasRead) else rows[k])
            && (k !in rows && k in after ==> after[k] == Row(generated[k], 0))
  {
    hide Merge;
  }

  /** When everything could be written, the total unread count of the table grows by that of the batch. */
  lemma {:induction false} BatchConserves(rows: map<string, Row>, generated: map<string, Summary>, written: set<string>)
    requires rows.Keys * generated.Keys <= written
    ensures Total(SummariesOf(AfterBatch(rows, generated, written, true))) == Total(SummariesOf(rows)) + Total(generated)
  {
    var after := SummariesOf(AfterBatch(rows, generated, written, true));
    OldRows(rows, generated, written);
    InsertedRows(rows, generated, written);
    TotalSplit(after, rows.Keys);
    UnreadConservedIff(SummariesOf(rows), generated, true);
    hide *;
  }

  lemma OldRows(rows: map<string, Row>, generated: map<string, Summary>, written: set<string>)
    requires rows.Keys * generated.Keys <= written
    ensures Restrict(SummariesOf(AfterBatch(rows, generated, written, true)), rows.Keys) == Merged(SummariesOf(rows), generated)
  {
    hide Merge;
  }

  lemma InsertedRows(rows: map<string, Row>, generated: map<string, Summary>, written: set<string>)
    ensures SummariesOf(rows).Keys == rows.Keys
    ensures SummariesOf(AfterBatch(rows, generated, written, true)) - rows.Keys == generated - rows.Keys
  {
    hide Merge;
  }

  function Arrivals(stream: seq<int>): seq<Event> {
    seq(|stream|, i requires 0 <= i < |stream| => NewMessage(stream[i]))
  }

  /** A stream of messages as steps of the account. */
  lemma {:induction false} StreamIsRun(a: Account, stream: seq<int>)
    ensures var r := Recorder(a.recorder, stream);
            Run(a, Arrivals(stream)) == Account(r, a.hasRead, a.unread + r - a.recorder)
  {
    if stream != [] {
      var n := |stream| - 1;
      StreamIsRun(a, stream[..n]);
      assert Arrivals(stream)[..n] == Arrivals(stream[..n]);
    }
  }

  function AccountOf(row: Row, recorder: int): Account {
    Account(recorder, row.hasRead, row.summary.unread)
  }

  /** What the handler writes for a conversation of the table is what its messages do to the account, one
      step each, provided that those counted update the conversation. */
  lemma BatchTakesSteps(recorder: map<string, int>, stored: map<string, set<string>>, allMsg: map<string, seq<Msg>>,
      rows: map<string, Row>, written: set<string>, inserted: bool, k: string)
    requires k in rows && k in allMsg && AllShown(k, Ids(stored, k), allMsg[k])
    requires k in written || !Touched(recorder, stored, allMsg, k)
    ensures var stream := Stream(k, Ids(stored, k), allMsg[k]);
            var after := AfterBatch(rows, Generated(recorder, stored, allMsg, allMsg.Keys), written, inserted);
            && k in after
            && AccountOf(after[k], Recorder(At(recorder, k), stream))
               == Run(AccountOf(rows[k], At(recorder, k)), Arrivals(stream))
  {
    var start, ids, msgs := At(recorder, k), Ids(stored, k), allMsg[k];
    var xs := Summaries(start, k, ids, msgs);
    StreamIsRun(AccountOf(rows[k], start), Stream(k, ids, msgs));
    BatchUnread(start, k, ids, msgs);
    NoneUnseen(start, k, ids, msgs);
    GeneratedAt(recorder, stored, allMsg, k);
    AfterAt(rows, Generated(recorder, stored, allMsg, allMsg.Keys), written, inserted, k);
    if xs != [] {
      var i := FoldIs(xs);
    }
    hide Stream, Summaries, Recorder, Run, Fold, Generated, AfterBatch, IsLatest;
  }

  lemma GeneratedAt(recorder: map<string, int>, stored: map<string, set<string>>, allMsg: map<string, seq<Msg>>, k: string)
    requires k in allMsg
    ensures var g := Generated(recorder, stored, allMsg, allMsg.Keys);
            var xs := Summaries(At(recorder, k), k, Ids(stored, k), allMsg[k]);
            (k in g <==> xs != []) && (xs != [] ==> g[k] == Fold(xs))
  {
    hide Fold, Summaries;
  }

  lemma AfterAt(rows: map<string, Row>, generated: map<string, Summary>, written: set<string>, inserted: bool, k: string)
    requires k in rows
    ensures var after := AfterBatch(rows, generated, written, inserted);
            k in after && after[k] == if k in generated && k in written then rows[k].(summary := Merge(rows[k].summary, generated[k])) else rows[k]
  {
    hide Merge;
  }

  // ---------- The handler ----------

  ghost function WithFold(base: map<string, Summary>, id: string, xs: seq<Summary>): map<string, Summary> {
    if xs == [] then base else base[id := Fold(xs)]
  }

  lemma WithFoldStep(base: map<string, Summary>, id: string, xs: seq<Summary>, s: Summary)
    requires id !in base
    ensures Add(WithFold(base, id, xs), id, s) == WithFold(base, id, xs + [s])
  {
    assert (xs + [s])[..|xs + [s]| - 1] == xs;
  }

  /** What the server reports of a conversation. */
  datatype Seqs = Seqs(maxSeq: int, hasReadSeq: int)

  function WithSeqs(row: Row, v: Seqs): Row {
    Row(row.summary.(unread := Clamp(v.maxSeq - v.hasReadSeq)), v.hasReadSeq)
  }

  /** The table and the two results after the conversations done of a snapshot. */
  ghost predicate SnapshotRows(seqs: map<string, Seqs>, done: set<string>, before: map<string, Row>, rows: map<string, Row>,
      failed: set<string>, needSync: set<string>) {
    && done <= seqs.Keys
    && rows.Keys == before.Keys && failed <= done * before.Keys && needSync == done - before.Keys
    && forall k <- before :: rows[k] == if k in done && k !in failed then WithSeqs(before[k], seqs[k]) else before[k]
  }

  ghost predicate SnapshotRecorder(seqs: map<string, Seqs>, done: set<string>, start: map<string, int>, now: map<string, int>) {
    && done <= seqs.Keys
    && forall c :: At(now, c) == if c in done then seqs[c].maxSeq else At(start, c)
  }

  lemma SnapshotStarts(seqs: map<string, Seqs>, before: map<string, Row>, start: map<string, int>)
    ensures SnapshotRows(seqs, {}, before, before, {}, {}) && SnapshotRecorder(seqs, {}, start, start)
  {
  }

  lemma SnapshotStep(seqs: map<string, Seqs>, done: set<string>, k: string, before: map<string, Row>, rows: map<string, Row>,
      failed: set<string>, needSync: set<string>)
    requires SnapshotRows(seqs, done, before, rows, failed, needSync) && k in seqs && k !in done
    ensures rows.Keys == before.Keys
    ensures k !in rows ==> SnapshotRows(seqs, done + {k}, before, rows, failed, needSync + {k})
    ensures k in rows ==> SnapshotRows(seqs, done + {k}, before, rows, failed + {k}, needSync)
    ensures k in rows ==> SnapshotRows(seqs, done + {k}, before, rows[k := WithSeqs(rows[k], seqs[k])], failed, needSync)
  {
    hide WithSeqs;
  }

  lemma SnapshotRecorderStep(seqs: map<string, Seqs>, done: set<string>, k: string, start: map<string, int>, now: map<string, int>,
      recorder: MaxSeqRecorder)
    requires SnapshotRecorder(seqs, done, start, now) && k in seqs
    requires recorder.Value(k) == seqs[k].maxSeq && forall c :: c != k ==> recorder.Value(c) == At(now, c)
    ensures SnapshotRecorder(seqs, done + {k}, start, recorder.seqs)
  {
    assert forall c :: recorder.Value(c) == At(recorder.seqs, c);
  }

  lemma SnapshotDone(seqs: map<string, Seqs>, done: set<string>, before: map<string, Row>, start: map<string, int>,
      rows: map<string, Row>, failed: set<string>, needSync: set<string>, recorder: MaxSeqRecorder)
    requires SnapshotRows(seqs, done, before, rows, failed, needSync) && SnapshotRecorder(seqs, done, start, recorder.seqs)
    requires seqs.Keys - done == {}
    ensures forall k <- seqs :: recorder.Value(k) == seqs[k].maxSeq
    ensures forall c :: c !in seqs ==> recorder.Value(c) == At(start, c)
    ensures needSync == seqs.Keys - before.Keys && failed <= seqs.Keys * before.Keys && rows.Keys == before.Keys
    ensures forall k <- before :: rows[k] == if k in seqs && k !in failed then WithSeqs(before[k], seqs[k]) else before[k]
  {
    AllDone(seqs.Keys, done);
    assert forall c :: recorder.Value(c) == At(recorder.seqs, c);
  }

  class Conversation {
    const maxSeqRecorder: MaxSeqRecorder
    var rows: map<string, Row>
    /** Whether every write to the table succeeds; otherwise each of them may fail. */
    const tableWorks: bool

    constructor (maxSeqRecorder: MaxSeqRecorder, rows: map<string, Row>, tableWorks: bool)
      ensures this.maxSeqRecorder == maxSeqRecorder && this.rows == rows && this.tableWorks == tableWorks
    {
      this.maxSeqRecorder, this.rows, this.tableWorks := maxSeqRecorder, rows, tableWorks;
    }

    /** One message: a new one from others is counted by the recorder if it carries the switch, and one
        that updates the conversation is folded into its object. */
    method FoldMessage(conversationID: string, m: Msg, stored: set<string>, cs: map<string, LocalConversation>)
        returns (updated: map<string, LocalConversation>)
      requires Keyed(cs)
      modifies maxSeqRecorder, cs.Values
      ensures Keyed(updated) && fresh(updated.Values - cs.Values)
      ensures var r := old(maxSeqRecorder.Value(conversationID));
              var accepted := m.parses && !m.deleted && m.clientMsgID != "" && conversationID != "" && m.clientMsgID !in stored;
              var counted := accepted && !m.own && m.unreadCount && m.seq_ > r;
              && maxSeqRecorder.Value(conversationID) == r + (if counted then 1 else 0)
              && ViewOf(updated) == if accepted && m.conversationUpdate && (!m.own || m.senderConversationUpdate)
                                    then Add(old(ViewOf(cs)), conversationID, Summary(if counted then 1 else 0, m.text, m.sendTime))
                                    else old(ViewOf(cs))
      ensures forall c :: c != conversationID ==> maxSeqRecorder.Value(c) == old(maxSeqRecorder.Value(c))
    {
      hide Add, ViewOf, Keyed;
      updated := cs;
      if m.parses && !m.deleted && m.clientMsgID != "" && conversationID != "" {
        if m.clientMsgID !in stored {
          var lc := new LocalConversation(conversationID, 0, m.text, m.sendTime);
          if !m.own && m.unreadCount {
            var isNew := maxSeqRecorder.IsNewMsg(conversationID, m.seq_);
            if isNew {
              lc.unreadCount := 1;
              maxSeqRecorder.Incr(conversationID, 1);
            }
          }
          if m.conversationUpdate && (m.own ==> m.senderConversationUpdate) {
            updated := UpdateConversation(lc, cs);
          }
        }
      }
    }

    /** The messages of one conversation, folded into one new object for it. */
    method FoldMessages(conversationID: string, msgs: seq<Msg>, stored: set<string>, cs: map<string, LocalConversation>)
        returns (updated: map<string, LocalConversation>)
      requires Keyed(cs) && conversationID !in cs
      modifies maxSeqRecorder, cs.Values
      ensures Keyed(updated) && fresh(updated.Values - cs.Values)
      ensures var start := old(maxSeqRecorder.Value(conversationID));
              && maxSeqRecorder.Value(conversationID) == Recorder(start, Stream(conversationID, stored, msgs))
              && ViewOf(updated) == WithFold(old(ViewOf(cs)), conversationID, Summaries(start, conversationID, stored, msgs))
      ensures forall c :: c != conversationID ==> maxSeqRecorder.Value(c) == old(maxSeqRecorder.Value(c))
    {
      hide Fold, Add, WithFold, Stream, Summaries, Recorder, Countable, Updating, Keyed;
      updated := cs;
      ghost var start, base := maxSeqRecorder.Value(conversationID), ViewOf(cs);
      assert conversationID !in base;
      hide ViewOf;
      NothingYet(start, base, conversationID, stored, msgs);
      for i := 0 to |msgs|
        invariant Keyed(updated) && fresh(updated.Values - cs.Values)
        invariant ViewOf(updated) == WithFold(base, conversationID, Summaries(start, conversationID, stored, msgs[..i]))
        invariant maxSeqRecorder.Value(conversationID) == Recorder(start, Stream(conversationID, stored, msgs[..i]))
        invariant forall c :: c != conversationID ==> maxSeqRecorder.Value(c) == old(maxSeqRecorder.Value(c))
      {
        OneMessage(start, conversationID, stored, msgs, i);
        ClassifiedAs(conversationID, stored, msgs[i]);
        ghost var before := Summaries(start, conversationID, stored, msgs[..i]);
        WithFoldStep(base, conversationID, before, Summary(0, msgs[i].text, msgs[i].sendTime));
        WithFoldStep(base, conversationID, before, Summary(1, msgs[i].text, msgs[i].sendTime));
        updated := FoldMessage(conversationID, msgs[i], stored, updated);
      }
      assert msgs[..|msgs|] == msgs;
    }

    /** One more conversation of a batch. */
    method FoldNext(k: string, allMsg: map<string, seq<Msg>>, stored: map<string, set<string>>,
        conversationSet: map<string, LocalConversation>, ghost start: map<string, int>, ghost done: set<string>)
        returns (updated: map<string, LocalConversation>)
      requires k in allMsg && k !in done && Keyed(conversationSet)
      requires ViewOf(conversationSet) == Generated(start, stored, allMsg, done)
      requires Recorded(start, stored, allMsg, done, maxSeqRecorder.seqs)
      modifies maxSeqRecorder, conversationSet.Values
      ensures Keyed(updated) && fresh(updated.Values - conversationSet.Values)
      ensures ViewOf(updated) == Generated(start, stored, allMsg, done + {k})
      ensures Recorded(start, stored, allMsg, done + {k}, maxSeqRecorder.seqs)
    {
      hide Generated, Recorded, ViewOf, Keyed, WithFold, Summaries, Stream, Recorder;
      GeneratedStep(start, stored, allMsg, done, k, conversationSet);
      ghost var before := maxSeqRecorder.seqs;
      RecordedAt(start, stored, allMsg, done, k, before);
      updated := FoldMessages(k, allMsg[k], if k in stored then stored[k] else {}, conversationSet);
      assert forall c :: c != k ==> At(maxSeqRecorder.seqs, c) == At(before, c) by {
        assert forall c :: maxSeqRecorder.Value(c) == At(maxSeqRecorder.seqs, c);
      }
      RecordedStep(start, stored, allMsg, done, k, before, maxSeqRecorder.seqs);
    }

    /** The loop over the conversations of a batch, in any order. */
    method FoldBatch(allMsg: map<string, seq<Msg>>, stored: map<string, set<string>>)
        returns (conversationSet: map<string, LocalConversation>)
      modifies maxSeqRecorder
      ensures Keyed(conversationSet) && fresh(conversationSet.Values)
      ensures ViewOf(conversationSet) == Generated(old(maxSeqRecorder.seqs), stored, allMsg, allMsg.Keys)
      ensures Recorded(old(maxSeqRecorder.seqs), stored, allMsg, allMsg.Keys, maxSeqRecorder.seqs)
    {
      hide *;
      conversationSet := map[];
      var todo := allMsg.Keys;
      ghost var start := maxSeqRecorder.seqs;
      ghost var done: set<string> := {};
      NothingGenerated(start, stored, allMsg, conversationSet);
      NothingRecorded(start, stored, allMsg);
      while todo != {}
        invariant todo == allMsg.Keys - done && done <= allMsg.Keys
        invariant Keyed(conversationSet) && fresh(conversationSet.Values)
        invariant ViewOf(conversationSet) == Generated(start, stored, allMsg, done)
        invariant Recorded(start, stored, allMsg, done, maxSeqRecorder.seqs)
        decreases todo
      {
        var k :| k in todo;
        todo := todo - {k};
        conversationSet := FoldNext(k, allMsg, stored, conversationSet, start, done);
        done := done + {k};
      }
      AllDone(allMsg.Keys, done);
    }

    /** The conversations of the table as objects. */
    method ListToMap() returns (m: map<string, LocalConversation>)
      ensures Keyed(m) && fresh(m.Values) && ViewOf(m) == SummariesOf(rows)
    {
      m := map[];
      var todo := rows.Keys;
      while todo != {}
        invariant todo <= rows.Keys && m.Keys == rows.Keys - todo
        invariant Keyed(m) && fresh(m.Values)
        invariant forall k <- m :: m[k].View() == rows[k].summary
        decreases todo
      {
        var k :| k in todo;
        todo := todo - {k};
        var s := rows[k].summary;
        var v := new LocalConversation(k, s.unread, s.latest, s.sendTime);
        assert m[k := v].Values <= m.Values + {v};
        m := m[k := v];
      }
    }

    /** doMsgNew, for a batch that meets the given message table: the recorder takes in every stream, and
        the table of conversations takes in what was generated, as far as it could be written. Whether the
        names and pictures of new conversations can be filled in is up to the server. When the table cannot
        be listed, all conversations of the batch are taken for new ones, and the insertion of a batch that
        has one of the table's fails. */
    method DoMsgNew(allMsg: map<string, seq<Msg>>, stored: map<string, set<string>>, fillable: bool, listed: bool)
        returns (written: set<string>, inserted: bool)
      modifies this, maxSeqRecorder
      ensures Recorded(old(maxSeqRecorder.seqs), stored, allMsg, allMsg.Keys, maxSeqRecorder.seqs)
      ensures rows == AfterBatch(old(rows), Generated(old(maxSeqRecorder.seqs), stored, allMsg, allMsg.Keys), written, inserted)
      ensures var keys := Generated(old(maxSeqRecorder.seqs), stored, allMsg, allMsg.Keys).Keys;
              && (listed ==> (inserted ==> fillable || keys <= old(rows).Keys))
              && (!listed ==> written == {} && (inserted ==> keys !! old(rows).Keys))
              && (tableWorks && listed ==> written == old(rows).Keys * keys && (fillable ==> inserted))
              && (tableWorks && !listed && fillable ==> (inserted <==> keys !! old(rows).Keys))
    {
      hide Generated, Recorded, Merged, Merge, ViewOf, Keyed, AfterBatch, SummariesOf;
      ghost var generated := Generated(maxSeqRecorder.seqs, stored, allMsg, allMsg.Keys);
      var conversationSet := FoldBatch(allMsg, stored);
      var m: map<string, LocalConversation> := map[];
      if listed {
        m := ListToMap();
      } else {
        NoneListed(m);
      }
      var cc, nc, named := Diff(m, conversationSet, fillable);
      if listed {
        ToWrite(rows, m, conversationSet, generated);
      } else {
        GeneratedViews(conversationSet, generated);
      }
      written, inserted := WriteBack(cc, nc, named, generated);
    }

    /** The changed conversations are written back up to the first failure; the new ones are inserted
        together or not at all, and not when the table has one of them. */
    method WriteBack(cc: map<string, LocalConversation>, nc: map<string, LocalConversation>, named: bool, ghost generated: map<string, Summary>)
        returns (written: set<string>, inserted: bool)
      requires cc.Keys <= rows.Keys * generated.Keys
      requires named && nc.Keys !! rows.Keys ==> nc.Keys == generated.Keys - rows.Keys
      requires forall k <- cc :: cc[k].View() == Merge(rows[k].summary, generated[k])
      requires forall k <- nc :: k in generated && nc[k].View() == generated[k]
      modifies this
      ensures written <= cc.Keys && (inserted ==> named && nc.Keys !! old(rows).Keys)
      ensures tableWorks ==> written == cc.Keys && (inserted <==> named && nc.Keys !! old(rows).Keys)
      ensures rows == AfterBatch(old(rows), generated, written, inserted)
    {
      hide Merge, Changed, New;
      written :| written <= cc.Keys;
      if tableWorks {
        written := cc.Keys;
      }
      var insertFails: bool := *;
      inserted := named && nc.Keys !! rows.Keys && (!insertFails || tableWorks);
      ghost var before := rows;
      rows := ChangedRows(cc, written, generated);
      if inserted {
        var newRows := NewRows(nc, before, generated);
        rows := rows + newRows;
      }
    }

    method ChangedRows(cc: map<string, LocalConversation>, written: set<string>, ghost generated: map<string, Summary>)
        returns (changed: map<string, Row>)
      requires written <= cc.Keys <= rows.Keys * generated.Keys
      requires forall k <- cc :: cc[k].View() == Merge(rows[k].summary, generated[k])
      ensures changed == Changed(rows, generated, written)
    {
      hide Merge;
      changed := map k | k in rows :: if k in written then rows[k].(summary := cc[k].View()) else rows[k];
    }

    method NewRows(nc: map<string, LocalConversation>, ghost before: map<string, Row>, ghost generated: map<string, Summary>)
        returns (newRows: map<string, Row>)
      requires nc.Keys == generated.Keys - before.Keys
      requires forall k <- nc :: nc[k].View() == generated[k]
      ensures newRows == New(before, generated)
    {
      newRows := map k | k in nc :: Row(nc[k].View(), 0);
    }

    // ---------- The snapshot of the server ----------

    /** One conversation of the snapshot; a row that is there is updated if it differs. */
    method SnapshotOne(k: string, v: Seqs) returns (updated: bool)
      modifies this, maxSeqRecorder
      ensures maxSeqRecorder.Value(k) == v.maxSeq
      ensures forall c :: c != k ==> maxSeqRecorder.Value(c) == At(old(maxSeqRecorder.seqs), c)
      ensures tableWorks ==> updated
      ensures rows == if k in old(rows) && updated then old(rows)[k := WithSeqs(old(rows)[k], v)] else old(rows)
    {
      maxSeqRecorder.Set(k, v.maxSeq);
      var unreadCount := 0;
      if v.maxSeq - v.hasReadSeq >= 0 {
        unreadCount := v.maxSeq - v.hasReadSeq;
      }
      updated := true;
      if k in rows {
        var conversation := rows[k];
        if conversation.summary.unread != unreadCount || conversation.hasRead != v.hasReadSeq {
          var updateFails: bool := *;
          if updateFails && !tableWorks {
            return false;
          }
          rows := rows[k := Row(conversation.summary.(unread := unreadCount), v.hasReadSeq)];
        }
      }
    }

    /** SyncAllConversationHashReadSeqs: every conversation reported gets its recorder set and takes the
        step of the snapshot, unless its row could not be updated; when there are conversations that the table
        lacks, what the server returns for them is inserted with its snapshot, if all that succeeds and the table
        has none of it. The call ends at once, and changes nothing, when the server does not answer or the table
        cannot be listed. */
    method SyncAllConversationHashReadSeqs(seqs: map<string, Seqs>, answered: bool, listed: bool,
        fetched: Option<map<string, Row>>)
        returns (ok: bool, failed: set<string>, needSync: set<string>, inserted: bool)
      modifies this, maxSeqRecorder
      ensures ok <==> answered && listed
      ensures !ok ==> rows == old(rows) && maxSeqRecorder.seqs == old(maxSeqRecorder.seqs) && !inserted
      ensures ok ==> SnapshotTaken(seqs, old(rows), old(maxSeqRecorder.seqs), failed, needSync, fetched, inserted)
      ensures ok && tableWorks ==> failed == {}
      ensures ok && tableWorks && needSync != {} && fetched.Some? && fetched.value.Keys !! old(rows).Keys ==> inserted
    {
      ok, failed, needSync, inserted := answered && listed, {}, {}, false;
      if ok {
        failed, needSync, inserted := TakeSnapshot(seqs, fetched);
      }
    }

    /** What a snapshot leaves behind. */
    ghost predicate SnapshotTaken(seqs: map<string, Seqs>, before: map<string, Row>, start: map<string, int>,
        failed: set<string>, needSync: set<string>, fetched: Option<map<string, Row>>, inserted: bool)
      reads this, maxSeqRecorder
    {
      && (forall k <- seqs :: maxSeqRecorder.Value(k) == seqs[k].maxSeq)
      && (forall c :: c !in seqs ==> maxSeqRecorder.Value(c) == At(start, c))
      && needSync == seqs.Keys - before.Keys && failed <= seqs.Keys * before.Keys
      && (forall k <- before ::
            k in rows && rows[k] == if k in seqs && k !in failed then WithSeqs(before[k], seqs[k]) else before[k])
      && (forall k <- rows :: k in before || k !in seqs || AccountOf(rows[k], seqs[k].maxSeq)
            == Step(Account(0, 0, 0), Snapshot(seqs[k].maxSeq, seqs[k].hasReadSeq)))
      && (inserted ==> needSync != {} && fetched.Some? && fetched.value.Keys !! before.Keys)
      && rows.Keys == before.Keys + (if inserted then fetched.value.Keys else {})
      && (inserted ==> forall k <- fetched.value ::
            rows[k] == if k in seqs then WithSeqs(fetched.value[k], seqs[k]) else fetched.value[k])
    }

    method TakeSnapshot(seqs: map<string, Seqs>, fetched: Option<map<string, Row>>)
        returns (failed: set<string>, needSync: set<string>, inserted: bool)
      modifies this, maxSeqRecorder
      ensures SnapshotTaken(seqs, old(rows), old(maxSeqRecorder.seqs), failed, needSync, fetched, inserted)
      ensures tableWorks ==> failed == {}
      ensures tableWorks && needSync != {} && fetched.Some? && fetched.value.Keys !! old(rows).Keys ==> inserted
    {
      hide SnapshotRows, SnapshotRecorder;
      failed, needSync := {}, {};
      var todo := seqs.Keys;
      ghost var done: set<string> := {};
      ghost var before, start := rows, maxSeqRecorder.seqs;
      SnapshotStarts(seqs, before, start);
      while todo != {}
        invariant todo == seqs.Keys - done && done <= seqs.Keys
        invariant SnapshotRecorder(seqs, done, start, maxSeqRecorder.seqs)
        invariant SnapshotRows(seqs, done, before, rows, failed, needSync)
        invariant tableWorks ==> failed == {}
        decreases todo
      {
        var k :| k in todo;
        todo := todo - {k};
        ghost var now := maxSeqRecorder.seqs;
        SnapshotStep(seqs, done, k, before, rows, failed, needSync);
        var updated := SnapshotOne(k, seqs[k]);
        SnapshotRecorderStep(seqs, done, k, start, now, maxSeqRecorder);
        done := done + {k};
        if k !in rows {
          needSync := needSync + {k};
        } else if !updated {
          failed := failed + {k};
        }
      }
      SnapshotDone(seqs, done, before, start, rows, failed, needSync, maxSeqRecorder);
      inserted := false;
      if needSync != {} && fetched.Some? {
        inserted := InsertFetched(seqs, fetched.value);
      }
    }

    /** What the server returned for the conversations asked for, which may be anything, is inserted with its
        snapshot; the insertion fails when the table has one of them. */
    method InsertFetched(seqs: map<string, Seqs>, fetched: map<string, Row>) returns (inserted: bool)
      modifies `rows
      ensures inserted ==> fetched.Keys !! old(rows).Keys && rows.Keys == old(rows).Keys + fetched.Keys
      ensures forall k <- old(rows) :: k in rows && rows[k] == old(rows)[k]
      ensures inserted ==> forall k <- fetched :: rows[k] == if k in seqs then WithSeqs(fetched[k], seqs[k]) else fetched[k]
      ensures !inserted ==> rows == old(rows)
      ensures tableWorks && fetched.Keys !! old(rows).Keys ==> inserted
    {
      var filled: map<string, Row> := map[];
      var todo := fetched.Keys;
      while todo != {}
        invariant todo <= fetched.Keys && filled.Keys == fetched.Keys - todo
        invariant forall k <- filled :: filled[k] == if k in seqs then WithSeqs(fetched[k], seqs[k]) else fetched[k]
        decreases todo
      {
        var k :| k in todo;
        todo := todo - {k};
        filled := filled[k := if k in seqs then WithSeqs(fetched[k], seqs[k]) else fetched[k]];
      }
      var insertFails: bool := *;
      inserted := filled.Keys !! rows.Keys && (!insertFails || tableWorks);
      if inserted {
        rows := rows + filled;
      }
    }
  }

  /** The recorder after the conversations done: each has taken in its stream. */
  ghost predicate Recorded(start: map<string, int>, stored: map<string, set<string>>, allMsg: map<string, seq<Msg>>,
      done: set<string>, seqs: map<string, int>) {
    forall c :: At(seqs, c) ==
      if c in allMsg && c in done then Recorder(At(start, c), Stream(c, Ids(stored, c), allMsg[c])) else At(start, c)
  }

  lemma NothingRecorded(start: map<string, int>, stored: map<string, set<string>>, allMsg: map<string, seq<Msg>>)
    ensures Recorded(start, stored, allMsg, {}, start)
  {
  }

  lemma RecordedAt(start: map<string, int>, stored: map<string, set<string>>, allMsg: map<string, seq<Msg>>,
      done: set<string>, k: string, seqs: map<string, int>)
    requires Recorded(start, stored, allMsg, done, seqs) && k !in done
    ensures At(seqs, k) == At(start, k)
  {
  }

  lemma RecordedStep(start: map<string, int>, stored: map<string, set<string>>, allMsg: map<string, seq<Msg>>,
      done: set<string>, k: string, before: map<string, int>, after: map<string, int>)
    requires Recorded(start, stored, allMsg, done, before) && k in allMsg && k !in done
    requires forall c :: c != k ==> At(after, c) == At(before, c)
    requires At(after, k) == Recorder(At(start, k), Stream(k, Ids(stored, k), allMsg[k]))
    ensures Recorded(start, stored, allMsg, done + {k}, after)
  {
    hide Recorder, Stream;
  }

  lemma AllDone(keys: set<string>, done: set<string>)
    requires done <= keys && keys - done == {}
    ensures done == keys
  {
    assert forall k <- keys :: k !in keys - done;
  }

  lemma NothingGenerated(start: map<string, int>, stored: map<string, set<string>>, allMsg: map<string, seq<Msg>>,
      cs: map<string, LocalConversation>)
    requires cs == map[]
    ensures Keyed(cs) && ViewOf(cs) == Generated(start, stored, allMsg, {})
  {
  }

  lemma GeneratedStep(start: map<string, int>, stored: map<string, set<string>>, allMsg: map<string, seq<Msg>>,
      done: set<string>, k: string, cs: map<string, LocalConversation>)
    requires k in allMsg && k !in done && ViewOf(cs) == Generated(start, stored, allMsg, done)
    ensures k !in cs
    ensures WithFold(ViewOf(cs), k, Summaries(At(start, k), k, Ids(stored, k), allMsg[k]))
            == Generated(start, stored, allMsg, done + {k})
  {
    assert k !in ViewOf(cs);
    hide Fold, Summaries, ViewOf;
    OneMoreGenerated(start, stored, allMsg, done, k);
  }

  lemma OneMoreGenerated(start: map<string, int>, stored: map<string, set<string>>, allMsg: map<string, seq<Msg>>,
      done: set<string>, k: string)
    requires k in allMsg && k !in done
    ensures WithFold(Generated(start, stored, allMsg, done), k, Summaries(At(start, k), k, Ids(stored, k), allMsg[k]))
            == Generated(start, stored, allMsg, done + {k})
  {
    hide Fold, Summaries, At, Ids;
  }

  lemma ToWrite(rows: map<string, Row>, m: map<string, LocalConversation>, conversationSet: map<string, LocalConversation>,
      generated: map<string, Summary>)
    requires ViewOf(m) == Merged(SummariesOf(rows), generated) && ViewOf(conversationSet) == generated
    ensures m.Keys == rows.Keys && conversationSet.Keys == generated.Keys
    ensures forall k | k in m && k in generated :: m[k].View() == Merge(rows[k].summary, generated[k])
    ensures forall k <- conversationSet :: conversationSet[k].View() == generated[k]
  {
    assert ViewOf(m).Keys == m.Keys;
    assert ViewOf(conversationSet).Keys == conversationSet.Keys;
    hide Merge;
  }

  lemma NoneListed(m: map<string, LocalConversation>)
    requires m == map[]
    ensures Keyed(m) && m.Values == {}
  {
  }

  lemma GeneratedViews(conversationSet: map<string, LocalConversation>, generated: map<string, Summary>)
    requires ViewOf(conversationSet) == generated
    ensures conversationSet.Keys == generated.Keys
    ensures forall k <- conversationSet :: conversationSet[k].View() == generated[k]
  {
    assert ViewOf(conversationSet).Keys == conversationSet.Keys;
  }

  lemma NothingYet(start: int, base: map<string, Summary>, id: string, stored: set<string>, msgs: seq<Msg>)
    ensures WithFold(base, id, Summaries(start, id, stored, msgs[..0])) == base
    ensures Recorder(start, Stream(id, stored, msgs[..0])) == start
  {
  }
}
