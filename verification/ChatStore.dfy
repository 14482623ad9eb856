/** The conversation store itself: its tables as fields, one method per request, each method one
    transaction.  Every method is proved against the transaction it performs (`ChatInvariant.Next`). */
module ChatStore {
  import opened Clock
  import opened ChatTables
  import opened ChatInvariant
  import opened ChatFeed
  import opened Wrappers

  class ConversationStore {
    var conversations: map<Id, Conversation>
    var active: map<User, Id>
    var turns: map<TurnKey, Turn>
    var messages: map<Id, Message>
    var cancels: set<TurnKey>
    var nextId: Id

    function Db(): Tables
      reads this
    {
      Tables(conversations, active, turns, messages, cancels, nextId)
    }

    constructor ()
      ensures Db() == EMPTY && Inv(Db())
    {
      conversations, active, turns, messages, cancels, nextId := map[], map[], map[], map[], {}, 0;
    }

    /** The transaction raised: everything it wrote is undone. */
    method Rollback(before: Tables)
      modifies this
      ensures Db() == before
    {
      conversations, active, turns := before.conversations, before.active, before.turns;
      messages, cancels, nextId := before.messages, before.cancels, before.nextId;
    }

    method Increment(c: Id, message: bool) returns (revision: nat, sequence: nat)
      requires c in conversations
      modifies this`conversations
      ensures conversations == old(conversations[c := Bumped(conversations[c], message)])
      ensures revision == old(conversations[c].revision) + 1
      ensures sequence == old(conversations[c].sequence) + (if message then 1 else 0)
    {
      var row := conversations[c];
      revision, sequence := row.revision + 1, row.sequence + if message then 1 else 0;
      conversations := conversations[c := row.(revision := revision, sequence := sequence)];
    }

    /** INSERT INTO chat_messages: the caller owes both UNIQUE constraints. */
    method InsertMessage(c: Id, turn: TurnId, role: Role, content: string, status: TurnStatus, proposal: Proposal) returns (id: Id)
      requires Insertable(Db(), c, turn, role)
      modifies this
      ensures Db() == AddMessage(old(Db()), c, turn, role, content, status, proposal) && id == old(nextId)
    {
      var revision, sequence := Increment(c, true);
      id := nextId;
      nextId := nextId + 1;
      messages := messages[id := Message(id, c, turn, role, content, status, proposal, sequence, revision)];
    }

    /** The user's message of a turn, which `scalar_one` selects. */
    method SelectQuestion(c: Id, turn: TurnId) returns (id: Id)
      requires HasUserMessage(Db(), c, turn)
      ensures UserMessageOf(Db(), id, c, turn)
    {
      ghost var question := UserMessageId(Db(), c, turn);
      id :| id in messages && messages[id].conversation == c && messages[id].turn == turn && messages[id].role == FromUser;
    }

    method FinishLocked(k: TurnKey, response: Response, http: nat, status: Terminal, now: Stamp)
      requires Inv(Db()) && Finishable(Db())
      modifies this
      ensures Db() == FinishTurn(old(Db()), k, response, http, status, now)
    {
      if k !in turns || turns[k].status != Pending {
        UnpendingFinishesNothing(Db(), k, response, http, status, now);
        return;
      }
      var row := turns[k];
      var content := if response.assistantMessage != "" then response.assistantMessage else FAILED_TEXT;
      var proposal := if response.previewPending then ProposalPending else NoProposal;
      hide Inv, Finishable, Insertable, AddMessage, FinishTurn;
      ghost var before := Db();
      FinishedTables(before, k, response, http, status, now);
      ghost var question := AnswerReady(before, k);
      AnswerIsNoQuestion(before, row.conversation, k.turn, content, status, proposal);
      var assistantId := InsertMessage(row.conversation, k.turn, FromAssistant, content, status, proposal);
      assert UserMessageOf(Db(), question, row.conversation, k.turn);
      var userId := SelectQuestion(row.conversation, k.turn);
      assert UserMessageOf(before, userId, row.conversation, k.turn);
      var reply := response.(ids := Some(ReplyIds(assistantId, userId)));
      turns := turns[k := row.(status := status, response := Some(reply), http := http, heartbeatAt := now)];
    }

    method ExpireLocked(who: Option<User>, at: Tick)
      requires Inv(Db())
      modifies this
      ensures Finishable(old(Db()))
      ensures Db() == Expire(old(Db()), who, at) && Inv(Db())
    {
      hide Inv, Finishable, Before, FinishTurn, Expire;
      ghost var before := Db();
      ExpireKeepsInv(before, who, at);
      var rows := set k | k in turns && turns[k].status == Pending && Before(turns[k].heartbeatAt, at.cutoff)
                          && (who == None || k.user == who.value);
      assert forall k :: k in rows <==> Stale(before, k, who, at.cutoff);
      OneStale(before, who, at);
      hide Stale;
      while rows != {}
        invariant rows != {} ==> Db() == before && forall k :: k in rows ==> Stale(before, k, who, at.cutoff)
        invariant rows == {} ==> Db() == Expire(before, who, at)
        decreases |rows|
      {
        var k :| k in rows;
        rows := rows - {k};
        FinishLocked(k, INTERRUPTED, 500, Failed, at.now);
      }
    }

    method Start(user: User, turn: TurnId, sha: string, text: string, conversation: Option<Id>, at: Tick) returns (answer: Outcome)
      requires Inv(Db())
      modifies this
      ensures (Db(), answer) == Next(old(Db()), Op.Start(user, turn, sha, text, conversation), at) && Inv(Db())
    {
      ghost var op := Op.Start(user, turn, sha, text, conversation);
      var before := Db();
      CommitsStart(before, op, at);
      hide Inv, Next, Expire, StartTurn;
      ExpireLocked(None, at);
      answer := StartLocked(user, turn, sha, text, conversation, at.now);
      if answer.Refused? {
        Rollback(before);
      }
    }

    method AnyPending() returns (busy: bool)
      ensures busy <==> exists k :: PendingTurn(Db(), k)
    {
      busy := exists k :: k in turns && turns[k].status == Pending;
      assert forall k :: PendingTurn(Db(), k) <==> k in turns && turns[k].status == Pending;
    }

    method AnyPendingIn(c: Id) returns (busy: bool)
      ensures busy <==> exists k :: PendingTurn(Db(), k) && Db().turns[k].conversation == c
    {
      busy := exists k :: k in turns && turns[k].conversation == c && turns[k].status == Pending;
      assert forall k :: PendingTurn(Db(), k) <==> k in turns && turns[k].status == Pending;
    }

    /** The user's first question: a new conversation, and it is the active one. */
    method Open(user: User)
      modifies this`conversations, this`active, this`nextId
      ensures Db() == OpenConversation(old(Db()), user)
    {
      conversations := conversations[nextId := Conversation(user, 0, 0, 0)];
      active := active[user := nextId];
      nextId := nextId + 1;
    }

    method StartLocked(user: User, turn: TurnId, sha: string, text: string, conversation: Option<Id>, now: Stamp) returns (answer: Outcome)
      requires Inv(Db())
      modifies this
      ensures ActiveKnown(old(Db()))
      ensures (Db(), answer) == StartTurn(old(Db()), Op.Start(user, turn, sha, text, conversation), now)
    {
      var k := TurnKey(user, turn);
      hide Inv, Receipts;
      ghost var op := Op.Start(user, turn, sha, text, conversation);
      ghost var before := Db();
      KnownActive(before);
      if k in turns {
        var existing := turns[k];
        if existing.sha != sha {
          return Refused(TurnConflict);
        }
        if existing.status == Pending {
          return Refused(TurnPending);
        }
        assert existing.response.Some? by { FinishedHasResponse(before, k); }
        return Replay(existing.conversation, existing.response.value, existing.http);
      }
      if conversation.Some? && (user !in active || active[user] != conversation.value) {
        return Refused(ConversationChanged);
      }
      var busy := AnyPending();
      assert Db() == before;
      if busy {
        return Refused(WorkspaceBusy);
      }
      QuestionAllowed(before, op, now);
      if user !in active {
        Open(user);
      }
      var c := active[user];
      turns := turns[k := Turn(c, sha, Pending, k in cancels, None, 0, now)];
      var _ := InsertMessage(c, turn, FromUser, text, Completed, NoProposal);
      return Run(c);
    }

    method Finish(user: User, turn: TurnId, response: Response, http: nat, status: Terminal, at: Tick)
      requires Inv(Db())
      modifies this
      ensures Db() == Next(old(Db()), Op.Finish(user, turn, response, http, status), at).0 && Inv(Db())
    {
      AlwaysFinishable(Db());
      NextKeepsInv(Db(), Op.Finish(user, turn, response, http, status), at);
      hide Inv, Finishable, FinishTurn;
      FinishLocked(TurnKey(user, turn), response, http, status, at.now);
    }

    /** True tells the worker to stop. */
    method Heartbeat(user: User, turn: TurnId, at: Tick) returns (stop: bool)
      requires Inv(Db())
      modifies this`turns
      ensures (Db(), Stop(stop)) == Next(old(Db()), Op.Heartbeat(user, turn), at) && Inv(Db())
    {
      NextKeepsInv(Db(), Op.Heartbeat(user, turn), at);
      hide Inv;
      var k := TurnKey(user, turn);
      if k !in turns || turns[k].status != Pending {
        return true;
      }
      var row := turns[k];
      turns := turns[k := row.(heartbeatAt := at.now)];
      return row.cancelRequested;
    }

    method Cancel(user: User, turn: TurnId, at: Tick)
      requires Inv(Db())
      modifies this`turns, this`cancels
      ensures Db() == Next(old(Db()), Op.Cancel(user, turn), at).0 && Inv(Db())
    {
      hide Inv, Next;
      CancelIsNext(Db(), user, turn, at);
      var k := TurnKey(user, turn);
      cancels := cancels + {k};
      if k in turns && turns[k].status == Pending {
        turns := turns[k := turns[k].(cancelRequested := true)];
      }
    }

    method Reset(user: User, conversation: Option<Id>, at: Tick) returns (answer: Outcome)
      requires Inv(Db())
      modifies this
      ensures (Db(), answer) == Next(old(Db()), Op.Reset(user, conversation), at) && Inv(Db())
    {
      var before := Db();
      CommitsReset(before, user, conversation, at);
      hide Inv, Next, Expire, ResetConversation;
      ExpireLocked(Some(user), at);
      answer := ResetLocked(user, conversation);
      if answer.Refused? {
        Rollback(before);
      }
    }

    method ResetLocked(user: User, conversation: Option<Id>) returns (answer: Outcome)
      requires Inv(Db())
      modifies this
      ensures ActiveKnown(old(Db()))
      ensures (Db(), answer) == ResetConversation(old(Db()), user, conversation)
    {
      hide Inv;
      ghost var before := Db();
      KnownActive(before);
      if conversation.Some? && (user !in active || active[user] != conversation.value) {
        return Refused(ConversationNotFound);
      }
      if user !in active {
        return Cleared(None);
      }
      var c := active[user];
      var busy := AnyPendingIn(c);
      assert Db() == before;
      if busy {
        return Refused(TurnPending);
      }
      EraseConversation(c);
      return Cleared(Some(c));
    }

    /** Bump and mark the conversation, drop its messages, blank its receipts. */
    method EraseConversation(c: Id)
      requires c in conversations
      modifies this`conversations, this`messages, this`turns
      ensures Db() == Erase(old(Db()), c)
    {
      ghost var before := Db();
      var revision, _ := Increment(c, false);
      conversations := conversations[c := conversations[c].(resetRevision := revision)];
      messages := map i | i in messages && messages[i].conversation != c :: messages[i];
      turns := map k | k in turns ::
        if turns[k].conversation == c then turns[k].(status := Cancelled, response := Some(CLEARED), http := 409) else turns[k];
      ghost var erased := Erase(before, c);
      hide Erase;
      assert conversations == erased.conversations && messages == erased.messages && turns == erased.turns by {
        assert before.messages == old(messages) && before.turns == old(turns);
        ErasedTables(before, c);
      }
    }

    method UpdateProposal(user: User, message: Id, proposal: Proposal, at: Tick) returns (answer: Outcome)
      requires Inv(Db())
      modifies this`conversations, this`messages
      ensures (Db(), answer) == Next(old(Db()), Op.UpdateProposal(user, message, proposal), at) && Inv(Db())
    {
      hide Inv, ActiveKnown;
      KnownActive(Db());
      NextKeepsInv(Db(), Op.UpdateProposal(user, message, proposal), at);
      if proposal != ProposalApplied && proposal != ProposalDiscarded {
        return Refused(InvalidStatus);
      }
      if message !in messages || conversations[messages[message].conversation].user != user {
        return Refused(MessageNotFound);
      }
      var row := messages[message];
      if row.proposal != ProposalPending && row.proposal != proposal {
        return Refused(NoPendingProposal);
      }
      var revision, _ := Increment(row.conversation, false);
      messages := messages[message := row.(proposal := proposal, revision := revision)];
      return Done;
    }

    /** `clear_guard` around `clear_locked`. */
    method Clear(at: Tick) returns (answer: Outcome)
      requires Inv(Db())
      modifies this
      ensures (Db(), answer) == Next(old(Db()), Op.Clear, at) && Inv(Db())
    {
      var before := Db();
      CommitsClear(before, at);
      hide Inv, Next, Expire, ClearWorkspace;
      ExpireLocked(None, at);
      answer := ClearLocked();
      if answer.Refused? {
        Rollback(before);
      }
    }

    method ClearLocked() returns (answer: Outcome)
      modifies this
      ensures (Db(), answer) == ClearWorkspace(old(Db()))
    {
      ghost var before := Db();
      var busy := AnyPending();
      assert Db() == before;
      if busy {
        return Refused(WorkspaceBusy);
      }
      conversations, active, turns, messages := map[], map[], map[], map[];
      cancels := {};
      return Done;
    }

    /** ORDER BY over rows that do not tie. */
    method OrderBy(rows: set<Message>, col: Column) returns (listed: seq<Message>)
      requires Keyed(rows, col)
      ensures listed == Ascending(rows, col)
    {
      hide Ascending;
      listed := [];
      var rest := rows;
      while rest != {}
        invariant Keyed(rest, col)
        invariant listed + Ascending(rest, col) == Ascending(rows, col)
        decreases |rest|
      {
        LeastExists(rest, col);
        var m :| m in rest && forall n :: n in rest ==> Key(m, col) <= Key(n, col);
        AnyLeastIsNext(rest, col, m);
        assert listed + Ascending(rest, col) == (listed + [m]) + Ascending(rest - {m}, col);
        listed, rest := listed + [m], rest - {m};
      }
      assert Ascending({}, col) == [] by { EmptyAscending(col); }
    }

    /** The rows one read selects. */
    method SelectRows(c: Id, q: Query) returns (rows: set<Message>)
      requires c in conversations
      ensures rows == Selected(Db(), c, q)
    {
      rows := set i | i in messages && messages[i].conversation == c :: messages[i];
      if q.before.Some? {
        rows := set m | m in rows && m.sequence < q.before.value;
      } else if !MustReset(conversations[c], c, q) {
        rows := set m | m in rows && m.revision > q.after;
      }
    }

    /** The conversation as the page heads it: its cursor and its pending turn. */
    method DescribeConversation(c: Id, cursor: nat) returns (head: Head)
      requires OnePending(Db())
      ensures head == HeadOf(Db(), c, cursor)
    {
      var pending := set k | k in turns && turns[k].conversation == c && turns[k].status == Pending;
      assert forall k :: k in pending <==> PendingIn(Db(), k, c);
      head := Head(c, cursor, None, false);
      if pending != {} {
        var k :| k in pending;
        head := Head(c, cursor, Some(k.turn), turns[k].cancelRequested);
      }
    }

    /** One poll: expire this user's dead turn, then answer from one snapshot. */
    method Read(user: User, q: Query, at: Tick) returns (page: Page)
      requires Inv(Db())
      modifies this
      ensures Db() == Next(old(Db()), Op.Read(user), at).0 && Inv(Db())
      ensures ActiveKnown(Db()) && page == PageOf(Db(), user, q)
    {
      hide Inv, Expire, PageOf, ActiveKnown;
      ExpireLocked(Some(user), at);
      page := Snapshot(user, q);
    }

    method Snapshot(user: User, q: Query) returns (page: Page)
      requires Inv(Db())
      ensures ActiveKnown(Db()) && page == PageOf(Db(), user, q)
    {
      hide Inv, Rows, ActiveKnown, OnePending, Ascending, Selected, HeadOf, MustReset, Keyed, Ordered, Clamp;
      KnownActive(Db());
      RowsAndTurn(Db());
      if user !in active {
        return NO_CONVERSATION;
      }
      assert active[user] in conversations by { KnownAt(Db(), user); }
      var c := active[user];
      var row := conversations[c];
      var limit := Clamp(q.limit);
      var reset := MustReset(row, c, q);
      var back := reset || q.before.Some?;
      var col := if back then BySequence else ByRevision;
      var rows := SelectRows(c, q);
      SelectedAreKeyed(Db(), c, q, col);
      var listed := OrderBy(rows, col);
      AscendingIsOrdered(rows, col);
      var more := |listed| > limit;
      var shown := if !more then listed else if back then listed[|listed| - limit..] else listed[..limit];
      var cursor := row.revision;
      if more && !back {
        PrefixOrdered(listed, limit);
        cursor := MaxRevision(shown, q.after);
      }
      var head := DescribeConversation(c, cursor);
      page := Page(Some(head), shown, reset && q.before.None?, if back then more else false, more && !back);
    }

    /** max(message["revision"] for message in messages, default=after), on a page in revision order. */
    method MaxRevision(shown: seq<Message>, after: nat) returns (best: nat)
      requires Ordered(shown, ByRevision)
      ensures best == if shown == [] then after else shown[|shown| - 1].revision
    {
      if shown == [] {
        return after;
      }
      best := shown[0].revision;
      for n := 1 to |shown|
        invariant best == shown[n - 1].revision
      {
        if shown[n].revision > best {
          best := shown[n].revision;
        }
      }
    }
  }

  lemma CancelIsNext(db: Tables, user: User, turn: TurnId, at: Tick)
    requires Inv(db)
    ensures Next(db, Op.Cancel(user, turn), at) == (RequestCancel(db, TurnKey(user, turn)), Done)
    ensures Inv(RequestCancel(db, TurnKey(user, turn)))
  {
    hide Inv, RequestCancel;
    NextKeepsInv(db, Op.Cancel(user, turn), at);
  }

  lemma FinishedHasResponse(db: Tables, k: TurnKey)
    requires Inv(db) && k in db.turns && db.turns[k].status != Pending
    ensures db.turns[k].response.Some?
  {
  }

  lemma ErasedTables(db: Tables, c: Id)
    requires c in db.conversations
    ensures var row := Bumped(db.conversations[c], false);
            Erase(db, c).conversations == db.conversations[c := row][c := row.(resetRevision := row.revision)]
    ensures Erase(db, c).messages == map i | i in db.messages && db.messages[i].conversation != c :: db.messages[i]
    ensures Erase(db, c).turns == map k | k in db.turns ::
              if db.turns[k].conversation == c then db.turns[k].(status := Cancelled, response := Some(CLEARED), http := 409) else db.turns[k]
    ensures Erase(db, c) == db.(conversations := Erase(db, c).conversations, messages := Erase(db, c).messages, turns := Erase(db, c).turns)
  {
  }

  lemma RowsAndTurn(db: Tables)
    requires Inv(db)
    ensures Rows(db) && OnePending(db)
  {
  }

  lemma {:induction false} PrefixOrdered(listed: seq<Message>, n: nat)
    requires Ordered(listed, ByRevision) && n <= |listed|
    ensures Ordered(listed[..n], ByRevision)
  {
  }

  lemma AnyLeastIsNext(rows: set<Message>, col: Column, m: Message)
    requires Keyed(rows, col) && m in rows && forall n :: n in rows ==> Key(m, col) <= Key(n, col)
    ensures Ascending(rows, col) == [m] + Ascending(rows - {m}, col) && Keyed(rows - {m}, col)
  {
    hide Ascending;
    var first := AscendingStep(rows, col);
  }

  lemma EmptyAscending(col: Column)
    ensures Ascending({}, col) == []
  {
  }

  lemma SelectedAreKeyed(db: Tables, c: Id, q: Query, col: Column)
    requires Rows(db) && c in db.conversations
    ensures Keyed(Selected(db, c, q), col)
  {
    RowsAreKeyed(db, c, col);
  }

  lemma FinishedTables(db: Tables, k: TurnKey, response: Response, http: nat, status: Terminal, now: Stamp)
    requires Finishable(db) && PendingTurn(db, k)
    ensures var t := db.turns[k];
      && t.conversation in db.conversations && HasUserMessage(db, t.conversation, k.turn)
      && FinishTurn(db, k, response, http, status, now) ==
         AddMessage(db, t.conversation, k.turn, FromAssistant, ReplyText(response), status, ReplyProposal(response)).(turns :=
           db.turns[k := t.(status := status, http := http, heartbeatAt := now,
                            response := Some(response.(ids := Some(ReplyIds(db.nextId, UserMessageId(db, t.conversation, k.turn))))))])
  {
    FinishableAt(db, k);
    hide AddMessage, Finishable, HasUserMessage;
  }

  lemma {:induction false} AnswerIsNoQuestion(db: Tables, c: Id, turn: TurnId, content: string, status: TurnStatus, proposal: Proposal)
    requires c in db.conversations && db.nextId !in db.messages
    ensures var after := AddMessage(db, c, turn, FromAssistant, content, status, proposal);
      after.turns == db.turns && forall i :: UserMessageOf(after, i, c, turn) <==> UserMessageOf(db, i, c, turn)
  {
  }

  /** What inserting the answer of a pending turn needs, and the one row `scalar_one` selects. */
  lemma AnswerReady(db: Tables, k: TurnKey) returns (question: Id)
    requires Inv(db) && PendingTurn(db, k)
    ensures Insertable(db, db.turns[k].conversation, k.turn, FromAssistant)
    ensures HasUserMessage(db, db.turns[k].conversation, k.turn) && question == UserMessageId(db, db.turns[k].conversation, k.turn)
    ensures forall i :: UserMessageOf(db, i, db.turns[k].conversation, k.turn) ==> i == question
    ensures UserMessageOf(db, question, db.turns[k].conversation, k.turn)
    ensures db.nextId !in db.messages && db.turns[k].conversation in db.conversations
  {
    AnswerInsertable(db, k);
    ScalarOne(db, k);
    question := UserMessageId(db, db.turns[k].conversation, k.turn);
  }
}
