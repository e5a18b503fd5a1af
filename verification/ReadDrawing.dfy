/** Read notifications against the conversation table. An operation on the table may fail, and then
    changes nothing. */
module ReadDrawing {
  import opened UnreadAccounting

  datatype Row = Row(single: bool, hasRead: int, unread: int)

  datatype Message = Message(clientMsgID: string, seq_: int, isRead: bool, own: bool)

  function AccountOf(row: Row, recorder: int): Account {
    Account(recorder, row.hasRead, row.unread)
  }

  class ConversationTable {
    var rows: map<string, Row>
    /** Whether every operation on the table succeeds; otherwise each of them may fail. */
    const tableWorks: bool

    constructor (rows: map<string, Row>, tableWorks: bool)
      ensures this.rows == rows && this.tableWorks == tableWorks
    {
      this.rows, this.tableWorks := rows, tableWorks;
    }

    /** One transaction: subtract, read back, and raise a negative count to 0. */
    method DecrConversationUnreadCount(conversationID: string, count: int) returns (ok: bool)
      modifies this
      ensures ok ==>
                && conversationID in old(rows)
                && var row := old(rows)[conversationID];
                   rows == old(rows)[conversationID := row.(unread := if row.unread >= count then row.unread - count else 0)]
      ensures !ok ==> rows == old(rows)
      ensures tableWorks && conversationID in old(rows) ==> ok
    {
      var updateFails: bool, takeFails: bool, zeroFails: bool := *, *, *;
      if (updateFails && !tableWorks) || conversationID !in rows {
        return false;
      }
      var c := rows[conversationID];
      c := c.(unread := c.unread - count);
      if takeFails && !tableWorks {
        return false;
      }
      if c.unread < 0 {
        if zeroFails && !tableWorks {
          return false;
        }
        c := c.(unread := 0);
      }
      rows := rows[conversationID := c];
      ok := true;
    }

    method UpdateHasRead(conversationID: string, hasReadSeq: int) returns (ok: bool)
      modifies this
      ensures ok ==>
                && conversationID in old(rows)
                && rows == old(rows)[conversationID := old(rows)[conversationID].(hasRead := hasReadSeq)]
      ensures !ok ==> rows == old(rows)
      ensures tableWorks && conversationID in old(rows) ==> ok
    {
      var fails: bool := *;
      if (fails && !tableWorks) || conversationID !in rows {
        return false;
      }
      rows := rows[conversationID := rows[conversationID].(hasRead := hasReadSeq)];
      ok := true;
    }

    method ClearUnread(conversationID: string) returns (ok: bool)
      modifies this
      ensures ok ==>
                && conversationID in old(rows)
                && rows == old(rows)[conversationID := old(rows)[conversationID].(unread := 0)]
      ensures !ok ==> rows == old(rows)
      ensures tableWorks && conversationID in old(rows) ==> ok
    {
      var fails: bool := *;
      if (fails && !tableWorks) || conversationID !in rows {
        return false;
      }
      rows := rows[conversationID := rows[conversationID].(unread := 0)];
      ok := true;
    }

    /** doUnreadCount, for the row that was read just before. The number read never goes down, whatever
        fails, and with every operation succeeding the row takes the step of the notification. */
    method DoUnreadCount(conversationID: string, conversation: Row, hasReadSeq: int) returns (ok: bool)
      requires conversationID in rows && rows[conversationID] == conversation
      modifies this
      ensures rows.Keys == old(rows).Keys
      ensures forall k <- rows :: k != conversationID ==> rows[k] == old(rows)[k]
      ensures rows[conversationID].single == conversation.single
      ensures rows[conversationID].hasRead == conversation.hasRead || rows[conversationID].hasRead == hasReadSeq
      ensures rows[conversationID].hasRead >= conversation.hasRead
      ensures conversation.unread >= 0 ==> 0 <= rows[conversationID].unread <= conversation.unread
      ensures ok ==> forall r ::
                AccountOf(rows[conversationID], r)
                == Step(AccountOf(conversation, r), if conversation.single then OwnRead(hasReadSeq) else ReadAllHere)
      ensures ok ==>
                rows[conversationID] ==
                  if !conversation.single then conversation.(unread := 0)
                  else if hasReadSeq <= conversation.hasRead then conversation
                  else
                    var read := hasReadSeq - conversation.hasRead;
                    Row(true, hasReadSeq, if conversation.unread >= read then conversation.unread - read else 0)
      ensures tableWorks ==> ok
    {
      ok := true;
      if conversation.single {
        if hasReadSeq > conversation.hasRead {
          var decrUnreadCount := hasReadSeq - conversation.hasRead;
          var decreased := DecrConversationUnreadCount(conversationID, decrUnreadCount);
          var recorded := UpdateHasRead(conversationID, hasReadSeq);
          ok := decreased && recorded;
        }
      } else {
        ok := ClearUnread(conversationID);
      }
    }

    /** doReadDrawing: notifications for unknown conversations and those of other users leave the counts
        alone. */
    method DoReadDrawing(conversationID: string, own: bool, hasReadSeq: int) returns (ok: bool)
      modifies this
      ensures conversationID !in old(rows) || !own ==> rows == old(rows)
      ensures rows.Keys == old(rows).Keys
      ensures forall k <- rows :: k != conversationID ==> rows[k] == old(rows)[k]
      ensures forall k <- rows :: rows[k].hasRead >= old(rows)[k].hasRead
      ensures conversationID in rows && own && ok ==> forall r ::
                AccountOf(rows[conversationID], r)
                == Step(AccountOf(old(rows)[conversationID], r),
                        if old(rows)[conversationID].single then OwnRead(hasReadSeq) else ReadAllHere)
      ensures tableWorks && conversationID in old(rows) ==> ok
    {
      ok := true;
      var getFails: bool := *;
      if (getFails && !tableWorks) || conversationID !in rows {
        return false;
      }
      if own {
        ok := DoUnreadCount(conversationID, rows[conversationID], hasReadSeq);
      }
    }

    /** markMessagesAsReadByMsgID: of the messages found, those that are unread, not the user's own and
        numbered are reported to the server; when it answers, those of them that the table can mark are taken
        off the count. Without an answer nothing changes. */
    method MarkMessagesAsReadByMsgID(conversationID: string, msgs: seq<Message>, answered: bool, unmarkable: set<string>)
        returns (marked: seq<string>, ok: bool)
      modifies this
      ensures ok ==>
                && answered && conversationID in old(rows) && conversationID in rows && AsRead(msgs) != []
                && marked == Without(IDs(AsRead(msgs)), unmarkable)
                && (forall r :: AccountOf(rows[conversationID], r) == Step(AccountOf(old(rows)[conversationID], r), ReadHere(|marked|)))
                && var row := old(rows)[conversationID];
                   rows == old(rows)[conversationID := row.(unread := if row.unread >= |marked| then row.unread - |marked| else 0)]
      ensures !ok ==> rows == old(rows)
      ensures tableWorks && answered && conversationID in old(rows) && AsRead(msgs) != [] ==> ok
    {
      ok, marked := false, [];
      if conversationID !in rows {
        return;
      }
      var asReadMsgIDs, seqs := GetAsReadMsgMapAndList(msgs);
      if |seqs| == 0 {
        return;
      }
      if !answered {
        return;
      }
      for i := 0 to |asReadMsgIDs|
        invariant marked == Without(asReadMsgIDs[..i], unmarkable)
      {
        assert asReadMsgIDs[..i + 1][..i] == asReadMsgIDs[..i];
        if asReadMsgIDs[i] !in unmarkable {
          marked := marked + [asReadMsgIDs[i]];
        }
      }
      assert asReadMsgIDs[..|asReadMsgIDs|] == asReadMsgIDs == IDs(AsRead(msgs));
      ok := DecrConversationUnreadCount(conversationID, |marked|);
    }
  }

  function IDs(msgs: seq<Message>): seq<string> {
    seq(|msgs|, i requires 0 <= i < |msgs| => msgs[i].clientMsgID)
  }

  /** The IDs that are not in the set, in their order. */
  function Without(ids: seq<string>, fails: set<string>): seq<string> {
    if ids == [] then []
    else Without(ids[..|ids| - 1], fails) + if ids[|ids| - 1] in fails then [] else [ids[|ids| - 1]]
  }

  lemma {:induction false} WithoutIs(ids: seq<string>, fails: set<string>)
    ensures forall id :: id in Without(ids, fails) <==> id in ids && id !in fails
    ensures fails == {} ==> Without(ids, fails) == ids
  {
    if ids != [] {
      WithoutIs(ids[..|ids| - 1], fails);
      assert forall id :: id in ids <==> id in ids[..|ids| - 1] || id == ids[|ids| - 1];
    }
  }

  /** The messages that can be marked as read. */
  function AsRead(msgs: seq<Message>): seq<Message> {
    if msgs == [] then []
    else
      var last := msgs[|msgs| - 1];
      AsRead(msgs[..|msgs| - 1]) + if !last.isRead && !last.own && last.seq_ != 0 then [last] else []
  }

  lemma {:induction false} AsReadIs(msgs: seq<Message>)
    ensures forall m :: m in AsRead(msgs) <==> m in msgs && !m.isRead && !m.own && m.seq_ != 0
    ensures |AsRead(msgs)| <= |msgs|
  {
    if msgs != [] {
      AsReadIs(msgs[..|msgs| - 1]);
      assert forall m :: m in msgs <==> m in msgs[..|msgs| - 1] || m == msgs[|msgs| - 1];
    }
  }

  method GetAsReadMsgMapAndList(msgs: seq<Message>) returns (asReadMsgIDs: seq<string>, seqs: seq<int>)
    ensures |asReadMsgIDs| == |seqs| == |AsRead(msgs)|
    ensures forall i | 0 <= i < |seqs| :: asReadMsgIDs[i] == AsRead(msgs)[i].clientMsgID && seqs[i] == AsRead(msgs)[i].seq_
  {
    asReadMsgIDs, seqs := [], [];
    for i := 0 to |msgs|
      invariant |asReadMsgIDs| == |seqs| == |AsRead(msgs[..i])|
      invariant forall j | 0 <= j < |seqs| ::
                  asReadMsgIDs[j] == AsRead(msgs[..i])[j].clientMsgID && seqs[j] == AsRead(msgs[..i])[j].seq_
    {
      assert msgs[..i + 1][..i] == msgs[..i];
      var msg := msgs[i];
      if !msg.isRead && !msg.own {
        if msg.seq_ != 0 {
          asReadMsgIDs := asReadMsgIDs + [msg.clientMsgID];
          seqs := seqs + [msg.seq_];
        }
      }
    }
    assert msgs[..|msgs|] == msgs;
  }
}
