/** What every transaction keeps, and hence what holds in every reachable state of the tables. */
module ChatInvariant {
  import opened Clock
  import opened ChatTables
  import opened Wrappers

  // ----- the invariant -------------------------------------------------------------------------

  /** Identifiers come from the supply. */
  ghost predicate Issued(db: Tables) {
    && (forall c :: c in db.conversations ==> c < db.nextId)
    && (forall i :: i in db.messages ==> i < db.nextId && db.messages[i].id == i)
  }

  /** Every user has at most one conversation, and it is the active one. */
  ghost predicate Owned(db: Tables) {
    && (forall u :: u in db.active ==> db.active[u] in db.conversations && db.conversations[db.active[u]].user == u)
    && (forall c :: c in db.conversations ==>
          db.conversations[c].user in db.active && db.active[db.conversations[c].user] == c
          && db.conversations[c].resetRevision <= db.conversations[c].revision)
  }

  ghost predicate Receipts(db: Tables) {
    forall k :: k in db.turns ==>
      && k.user in db.active && db.turns[k].conversation == db.active[k.user]
      && (db.turns[k].status != Pending ==> db.turns[k].response.Some?)
      && (db.turns[k].status == Pending && k in db.cancels ==> db.turns[k].cancelRequested)
  }

  /** Counters bound the messages, and every message belongs to a turn of its conversation. */
  ghost predicate Counted(db: Tables) {
    forall i :: i in db.messages ==>
      var m := db.messages[i];
      && m.conversation in db.conversations
      && TurnKey(db.conversations[m.conversation].user, m.turn) in db.turns
      && 1 <= m.sequence <= db.conversations[m.conversation].sequence
      && db.conversations[m.conversation].resetRevision < m.revision <= db.conversations[m.conversation].revision
  }

  /** The UNIQUE constraints, and distinct revisions. */
  ghost predicate Unique(db: Tables) {
    forall i, j, c {:trigger InConversation(db, i, c), InConversation(db, j, c)} ::
      InConversation(db, i, c) && InConversation(db, j, c) && i != j ==>
      && db.messages[i].sequence != db.messages[j].sequence
      && db.messages[i].revision != db.messages[j].revision
      && (db.messages[i].turn != db.messages[j].turn || db.messages[i].role != db.messages[j].role)
  }

  ghost predicate Successor(m: Message, n: Message) {
    m.conversation == n.conversation && n.sequence == m.sequence + 1
  }

  ghost predicate Answers(m: Message, n: Message) {
    m.role == FromUser && n.role == FromAssistant && m.turn == n.turn
  }

  ghost predicate Followed(db: Tables, i: Id)
    requires i in db.messages
  {
    exists j :: j in db.messages && Successor(db.messages[i], db.messages[j])
  }

  ghost predicate Asked(db: Tables, i: Id)
    requires i in db.messages
  {
    exists j :: j in db.messages && Successor(db.messages[j], db.messages[i]) && Answers(db.messages[j], db.messages[i])
  }

  /** Sequences are contiguous up to the counter, and alternate question and answer. */
  ghost predicate Paired(db: Tables)
    requires Counted(db)
  {
    && (forall i {:trigger Followed(db, i)} :: i in db.messages && db.messages[i].sequence < db.conversations[db.messages[i].conversation].sequence ==> Followed(db, i))
    && (forall i {:trigger Asked(db, i)} :: i in db.messages && db.messages[i].role == FromAssistant ==> Asked(db, i))
    && (forall i, j {:trigger Successor(db.messages[i], db.messages[j])} ::
          i in db.messages && j in db.messages && Successor(db.messages[i], db.messages[j]) && db.messages[i].role == FromUser ==>
          Answers(db.messages[i], db.messages[j]))
  }

  ghost predicate OnePending(db: Tables) {
    forall k, l :: PendingTurn(db, k) && PendingTurn(db, l) ==> k == l
  }

  ghost predicate Tail(db: Tables, i: Id, k: TurnKey)
    requires Counted(db)
  {
    && i in db.messages && db.messages[i].role == FromUser
    && k == TurnKey(db.conversations[db.messages[i].conversation].user, db.messages[i].turn)
    && db.messages[i].sequence == db.conversations[db.messages[i].conversation].sequence
  }

  /** A turn is pending exactly when its question is the unanswered end of its conversation. */
  ghost predicate PendingAtTail(db: Tables)
    requires Counted(db)
  {
    && (forall k :: PendingTurn(db, k) ==> exists i :: Tail(db, i, k))
    && (forall i, k :: Tail(db, i, k) ==> PendingTurn(db, k))
  }

  ghost predicate Rows(db: Tables) {
    Issued(db) && Owned(db) && Counted(db) && Unique(db) && Paired(db)
  }

  ghost predicate Inv(db: Tables) {
    Rows(db) && Receipts(db) && OnePending(db) && PendingAtTail(db)
  }

  lemma InvParts(db: Tables)
    requires Inv(db)
    ensures Rows(db) && Issued(db) && Owned(db) && Counted(db) && Unique(db) && Paired(db)
    ensures Receipts(db) && OnePending(db) && PendingAtTail(db)
  {
  }

  // ----- the queries of `_finish` never come back empty-handed -----------------------------------

  /** `scalar_one` finds exactly one row. */
  lemma ScalarOne(db: Tables, k: TurnKey)
    requires Inv(db) && PendingTurn(db, k)
    ensures db.turns[k].conversation in db.conversations
    ensures HasUserMessage(db, db.turns[k].conversation, k.turn)
    ensures forall i, j :: UserMessageOf(db, i, db.turns[k].conversation, k.turn) && UserMessageOf(db, j, db.turns[k].conversation, k.turn) ==> i == j
  {
    var i :| Tail(db, i, k);
    assert UserMessageOf(db, i, db.turns[k].conversation, k.turn);
  }

  lemma AlwaysFinishable(db: Tables)
    requires Inv(db)
    ensures Finishable(db)
  {
    forall k | PendingTurn(db, k)
      ensures db.turns[k].conversation in db.conversations && HasUserMessage(db, db.turns[k].conversation, k.turn)
    {
      ScalarOne(db, k);
    }
  }

  /** Inserting a message of this turn and role violates neither UNIQUE constraint. */
  ghost predicate Insertable(db: Tables, c: Id, turn: TurnId, role: Role) {
    && c in db.conversations && db.nextId !in db.messages
    && (forall i :: InConversation(db, i, c) ==>
          db.messages[i].sequence != db.conversations[c].sequence + 1 && (db.messages[i].turn != turn || db.messages[i].role != role))
  }

  /** The new row continues the alternation: an answer right after its question, or a question
      after an answer or at the start. */
  ghost predicate Alternates(db: Tables, c: Id, turn: TurnId, role: Role)
    requires c in db.conversations
  {
    && (forall i :: InConversation(db, i, c) && db.messages[i].sequence == db.conversations[c].sequence ==>
          if role == FromAssistant then db.messages[i].role == FromUser && db.messages[i].turn == turn
          else db.messages[i].role == FromAssistant)
    && (role == FromAssistant ==> exists i :: InConversation(db, i, c) && db.messages[i].sequence == db.conversations[c].sequence)
  }

  lemma AnswerInsertable(db: Tables, k: TurnKey)
    requires Inv(db) && PendingTurn(db, k)
    ensures Insertable(db, db.turns[k].conversation, k.turn, FromAssistant)
    ensures Alternates(db, db.turns[k].conversation, k.turn, FromAssistant)
  {
    var c := db.turns[k].conversation;
    var q :| Tail(db, q, k);
    assert InConversation(db, q, c);
    forall i | InConversation(db, i, c) && db.messages[i].role == FromAssistant
      ensures db.messages[i].turn != k.turn
    {
      assert Asked(db, i);
      var j :| j in db.messages && Successor(db.messages[j], db.messages[i]) && Answers(db.messages[j], db.messages[i]);
      assert InConversation(db, j, c) && j != q;
    }
  }

  // ----- adding a message ------------------------------------------------------------------------

  lemma {:induction false} AddKeepsOwned(db: Tables, c: Id, turn: TurnId, role: Role, content: string, status: TurnStatus, proposal: Proposal)
    requires Issued(db) && Owned(db) && c in db.conversations
    ensures var after := AddMessage(db, c, turn, role, content, status, proposal); Issued(after) && Owned(after)
  {
  }

  lemma {:induction false} AddKeepsCounted(db: Tables, c: Id, turn: TurnId, role: Role, content: string, status: TurnStatus, proposal: Proposal)
    requires Owned(db) && Counted(db) && c in db.conversations && TurnKey(db.conversations[c].user, turn) in db.turns
    ensures Counted(AddMessage(db, c, turn, role, content, status, proposal))
  {
  }

  lemma {:induction false} AddKeepsUnique(db: Tables, c: Id, turn: TurnId, role: Role, content: string, status: TurnStatus, proposal: Proposal)
    requires Counted(db) && Unique(db) && Insertable(db, c, turn, role)
    ensures Unique(AddMessage(db, c, turn, role, content, status, proposal))
  {
    var after := AddMessage(db, c, turn, role, content, status, proposal);
    assert forall i, d :: InConversation(after, i, d) && i != db.nextId ==> InConversation(db, i, d);
  }

  lemma {:induction false} AddKeepsFollowed(db: Tables, c: Id, turn: TurnId, role: Role, content: string, status: TurnStatus, proposal: Proposal, i: Id)
    requires Issued(db) && Counted(db) && Paired(db) && c in db.conversations && i in db.messages
    requires db.messages[i].conversation == c || db.messages[i].sequence < db.conversations[db.messages[i].conversation].sequence
    ensures Followed(AddMessage(db, c, turn, role, content, status, proposal), i)
  {
    var after, a := AddMessage(db, c, turn, role, content, status, proposal), db.nextId;
    if db.messages[i].sequence == db.conversations[db.messages[i].conversation].sequence {
      assert Successor(after.messages[i], after.messages[a]);
    } else {
      assert Followed(db, i);
      var j :| j in db.messages && Successor(db.messages[i], db.messages[j]);
      assert after.messages[j] == db.messages[j] && after.messages[i] == db.messages[i];
    }
  }

  lemma {:induction false} AddKeepsAsked(db: Tables, c: Id, turn: TurnId, role: Role, content: string, status: TurnStatus, proposal: Proposal, i: Id)
    requires Issued(db) && Counted(db) && Paired(db) && c in db.conversations && Alternates(db, c, turn, role)
    requires if i == db.nextId then role == FromAssistant else i in db.messages && db.messages[i].role == FromAssistant
    ensures Asked(AddMessage(db, c, turn, role, content, status, proposal), i)
  {
    var after, a := AddMessage(db, c, turn, role, content, status, proposal), db.nextId;
    if i == a {
      var q :| InConversation(db, q, c) && db.messages[q].sequence == db.conversations[c].sequence;
      assert after.messages[q] == db.messages[q];
      assert Successor(after.messages[q], after.messages[a]) && Answers(after.messages[q], after.messages[a]);
    } else {
      assert Asked(db, i);
      var j :| j in db.messages && Successor(db.messages[j], db.messages[i]) && Answers(db.messages[j], db.messages[i]);
      assert after.messages[j] == db.messages[j] && after.messages[i] == db.messages[i];
    }
  }

  lemma {:induction false} AddKeepsAlternation(db: Tables, c: Id, turn: TurnId, role: Role, content: string, status: TurnStatus, proposal: Proposal, i: Id, j: Id)
    requires Issued(db) && Counted(db) && Paired(db) && c in db.conversations && Alternates(db, c, turn, role)
    requires var after := AddMessage(db, c, turn, role, content, status, proposal);
             i in after.messages && j in after.messages && Successor(after.messages[i], after.messages[j]) && after.messages[i].role == FromUser
    ensures var after := AddMessage(db, c, turn, role, content, status, proposal); Answers(after.messages[i], after.messages[j])
  {
    var a := db.nextId;
    if j == a {
      assert InConversation(db, i, c);
    } else if i == a {
      assert false;
    } else {
      assert Successor(db.messages[i], db.messages[j]);
    }
  }

  lemma {:induction false} AddKeepsPairs(db: Tables, c: Id, turn: TurnId, role: Role, content: string, status: TurnStatus, proposal: Proposal)
    requires Issued(db) && Counted(db) && Paired(db) && c in db.conversations && Alternates(db, c, turn, role)
    requires Counted(AddMessage(db, c, turn, role, content, status, proposal))
    ensures Paired(AddMessage(db, c, turn, role, content, status, proposal))
  {
    var after := AddMessage(db, c, turn, role, content, status, proposal);
    forall i | i in after.messages && after.messages[i].sequence < after.conversations[after.messages[i].conversation].sequence
      ensures Followed(after, i)
    {
      AddKeepsFollowed(db, c, turn, role, content, status, proposal, i);
    }
    forall i | i in after.messages && after.messages[i].role == FromAssistant
      ensures Asked(after, i)
    {
      AddKeepsAsked(db, c, turn, role, content, status, proposal, i);
    }
    forall i, j | i in after.messages && j in after.messages && Successor(after.messages[i], after.messages[j]) && after.messages[i].role == FromUser
      ensures Answers(after.messages[i], after.messages[j])
    {
      AddKeepsAlternation(db, c, turn, role, content, status, proposal, i, j);
    }
  }

  lemma {:induction false} AddKeepsRows(db: Tables, c: Id, turn: TurnId, role: Role, content: string, status: TurnStatus, proposal: Proposal)
    requires Rows(db) && Insertable(db, c, turn, role) && Alternates(db, c, turn, role)
    requires TurnKey(db.conversations[c].user, turn) in db.turns
    ensures Rows(AddMessage(db, c, turn, role, content, status, proposal))
  {
    assert c in db.conversations;
    hide Issued, Owned, Counted, Unique, Paired, Insertable, Alternates, AddMessage;
    AddKeepsOwned(db, c, turn, role, content, status, proposal);
    AddKeepsCounted(db, c, turn, role, content, status, proposal);
    AddKeepsUnique(db, c, turn, role, content, status, proposal);
    AddKeepsPairs(db, c, turn, role, content, status, proposal);
  }

  // ----- preservation, transaction by transaction ------------------------------------------------

  lemma FinishableAt(db: Tables, k: TurnKey)
    requires Finishable(db) && PendingTurn(db, k)
    ensures db.turns[k].conversation in db.conversations && HasUserMessage(db, db.turns[k].conversation, k.turn)
  {
  }

  lemma FinishedKeepsRows(db: Tables, k: TurnKey, response: Response, http: nat, status: Terminal, now: Stamp)
    requires Inv(db) && Finishable(db) && PendingTurn(db, k)
    ensures Rows(FinishTurn(db, k, response, http, status, now))
  {
    hide Inv, Rows, Issued, Owned, Counted, Unique, Paired, Receipts, Insertable, Alternates, Finishable, UserMessageId;
    var c, text, proposal := db.turns[k].conversation, ReplyText(response), ReplyProposal(response);
    FinishableAt(db, k);
    AnswerInsertable(db, k);
    FinishedKey(db, k);
    AddKeepsRows(db, c, k.turn, FromAssistant, text, status, proposal);
    SameRows(AddMessage(db, c, k.turn, FromAssistant, text, status, proposal), FinishTurn(db, k, response, http, status, now));
  }

  lemma FinishedKey(db: Tables, k: TurnKey)
    requires Inv(db) && PendingTurn(db, k)
    ensures Rows(db) && db.turns[k].conversation in db.conversations
    ensures TurnKey(db.conversations[db.turns[k].conversation].user, k.turn) in db.turns
  {
  }

  lemma FinishedKeepsReceipts(db: Tables, k: TurnKey, response: Response, http: nat, status: Terminal, now: Stamp)
    requires Receipts(db) && Finishable(db) && PendingTurn(db, k)
    ensures Receipts(FinishTurn(db, k, response, http, status, now))
  {
    FinishableAt(db, k);
    hide Finishable;
  }

  lemma FinishKeepsInv(db: Tables, k: TurnKey, response: Response, http: nat, status: Terminal, now: Stamp)
    requires Inv(db) && Finishable(db)
    ensures Inv(FinishTurn(db, k, response, http, status, now))
  {
    hide Rows, Issued, Owned, Counted, Unique, Paired, Receipts, OnePending, PendingAtTail, Finishable, FinishTurn, HasUserMessage;
    if !PendingTurn(db, k) {
      UnpendingFinishesNothing(db, k, response, http, status, now);
    } else {
      FinishableAt(db, k);
      FinishedKeepsRows(db, k, response, http, status, now);
      FinishedKeepsReceipts(db, k, response, http, status, now);
      RowsParts(FinishTurn(db, k, response, http, status, now));
      FinishKeepsTail(db, k, response, http, status, now);
    }
  }

  lemma UnpendingFinishesNothing(db: Tables, k: TurnKey, response: Response, http: nat, status: Terminal, now: Stamp)
    requires !PendingTurn(db, k)
    ensures FinishTurn(db, k, response, http, status, now) == db
  {
  }

  lemma RowsParts(db: Tables)
    requires Rows(db)
    ensures Issued(db) && Owned(db) && Counted(db) && Unique(db) && Paired(db)
  {
  }

  /** Counting, uniqueness and pairing speak of messages, counters and turn keys only. */
  lemma SameRows(db: Tables, after: Tables)
    requires Rows(db) && db.nextId == after.nextId
    requires after.messages == db.messages && after.conversations == db.conversations && after.active == db.active
    requires after.turns.Keys == db.turns.Keys
    ensures Rows(after)
  {
    assert forall i, c :: InConversation(after, i, c) ==> InConversation(db, i, c);
    assert Counted(after) && Unique(after);
    SamePairs(db, after);
  }

  lemma SamePairs(db: Tables, after: Tables)
    requires Counted(db) && Paired(db) && Counted(after)
    requires after.messages == db.messages
    requires forall i :: i in db.messages ==>
      after.conversations[db.messages[i].conversation].sequence == db.conversations[db.messages[i].conversation].sequence
    ensures Paired(after)
  {
    assert forall i :: i in db.messages ==> (Followed(db, i) <==> Followed(after, i)) && (Asked(db, i) <==> Asked(after, i));
  }

  lemma FinishKeepsTail(db: Tables, k: TurnKey, response: Response, http: nat, status: Terminal, now: Stamp)
    requires Inv(db) && Finishable(db) && PendingTurn(db, k)
    ensures var after := FinishTurn(db, k, response, http, status, now);
            Counted(after) ==> PendingAtTail(after) && OnePending(after)
  {
    var after := FinishTurn(db, k, response, http, status, now);
    forall l
      ensures !PendingTurn(after, l)
    {
      if l != k { assert PendingTurn(after, l) ==> PendingTurn(db, l); }
    }
    if Counted(after) {
      forall i, l
        ensures !Tail(after, i, l)
      {
        if Tail(after, i, l) {
          assert i != db.nextId;
          assert db.messages[i].conversation != db.turns[k].conversation ==> Tail(db, i, l);
        }
      }
    }
  }

  lemma KnownActive(db: Tables)
    requires Inv(db)
    ensures ActiveKnown(db) && MessagesKnown(db)
  {
  }

  lemma KnownAt(db: Tables, user: User)
    requires ActiveKnown(db) && user in db.active
    ensures db.active[user] in db.conversations
  {
  }

  /** At most one pending turn, so expiry fails one turn or none. */
  lemma OneStale(db: Tables, who: Option<User>, at: Tick)
    requires Inv(db) && Finishable(db)
    ensures forall k :: Stale(db, k, who, at.cutoff) ==> Expire(db, who, at) == FinishTurn(db, k, INTERRUPTED, 500, Failed, at.now)
    ensures forall k, l :: Stale(db, k, who, at.cutoff) && Stale(db, l, who, at.cutoff) ==> k == l
    ensures (forall k :: !Stale(db, k, who, at.cutoff)) ==> Expire(db, who, at) == db
  {
    hide Inv, Finishable, FinishTurn, Before, Issued, Owned, Counted, Unique, Paired, Receipts, PendingAtTail;
    InvParts(db);
    assert forall k, l :: Stale(db, k, who, at.cutoff) && Stale(db, l, who, at.cutoff) ==> k == l;
  }

  lemma ExpireKeepsInv(db: Tables, who: Option<User>, at: Tick)
    requires Inv(db)
    ensures Finishable(db)
    ensures Inv(Expire(db, who, at)) && ActiveKnown(Expire(db, who, at))
  {
    hide Inv, Finishable, FinishTurn, Stale, ActiveKnown;
    AlwaysFinishable(db);
    KnownActive(db);
    if exists k :: Stale(db, k, who, at.cutoff) {
      var k :| Stale(db, k, who, at.cutoff) && Expire(db, who, at) == FinishTurn(db, k, INTERRUPTED, 500, Failed, at.now);
      FinishKeepsInv(db, k, INTERRUPTED, 500, Failed, at.now);
      KnownActive(Expire(db, who, at));
    }
  }

  /** The tables a question is added to: the conversation exists and the turn row is in. */
  ghost function Claimed(db: Tables, op: Op, now: Stamp): Tables
    requires op.Start?
  {
    var ready := if op.user in db.active then db else OpenConversation(db, op.user);
    var k := TurnKey(op.user, op.turn);
    ready.(turns := db.turns[k := Turn(ready.active[op.user], op.sha, Pending, k in db.cancels, None, 0, now)])
  }

  lemma ClaimedKeepsOwned(db: Tables, op: Op, now: Stamp)
    requires op.Start? && Issued(db) && Owned(db) && Receipts(db)
    ensures var c := Claimed(db, op, now); Issued(c) && Owned(c) && Receipts(c)
  {
  }

  lemma ClaimedKeepsCounted(db: Tables, op: Op, now: Stamp)
    requires op.Start? && Issued(db) && Owned(db) && Counted(db) && Unique(db)
    ensures var c := Claimed(db, op, now); Counted(c) && Unique(c)
    ensures forall i :: i in db.messages ==>
      var d := db.messages[i].conversation; d in Claimed(db, op, now).conversations && Claimed(db, op, now).conversations[d] == db.conversations[d]
  {
    var c := Claimed(db, op, now);
    assert forall i :: i in db.messages ==> c.conversations[db.messages[i].conversation] == db.conversations[db.messages[i].conversation];
    assert forall i, d :: InConversation(c, i, d) ==> InConversation(db, i, d);
  }

  lemma ClaimedKeepsRows(db: Tables, op: Op, now: Stamp)
    requires op.Start? && Rows(db) && Receipts(db)
    ensures Rows(Claimed(db, op, now)) && Receipts(Claimed(db, op, now))
  {
    hide Issued, Owned, Receipts, Counted, Unique, Paired;
    ClaimedKeepsOwned(db, op, now);
    ClaimedKeepsCounted(db, op, now);
    SamePairs(db, Claimed(db, op, now));
  }

  lemma StartedKeepsRows(db: Tables, op: Op, now: Stamp)
    requires op.Start? && Inv(db) && StartTurn(db, op, now).1.Run?
    ensures Rows(StartTurn(db, op, now).0) && Receipts(StartTurn(db, op, now).0)
  {
    var ready := Claimed(db, op, now);
    var c := ready.active[op.user];
    var after := StartTurn(db, op, now).0;
    assert after == AddMessage(ready, c, op.turn, FromUser, op.text, Completed, NoProposal);
    assert Rows(after) by {
      ClaimedKeepsRows(db, op, now);
      QuestionAllowed(db, op, now);
      AddKeepsRows(ready, c, op.turn, FromUser, op.text, Completed, NoProposal);
    }
    assert Receipts(after) by { ClaimedKeepsRows(db, op, now); }
    hide Rows, Receipts, OnePending, PendingAtTail;
  }

  lemma UnstartedChangesNothing(db: Tables, op: Op, now: Stamp)
    requires op.Start? && ActiveKnown(db) && !StartTurn(db, op, now).1.Run?
    ensures StartTurn(db, op, now).0 == db
  {
  }

  lemma StartKeepsInv(db: Tables, op: Op, now: Stamp)
    requires op.Start? && Inv(db)
    ensures Inv(StartTurn(db, op, now).0)
  {
    hide Issued, Owned, Counted, Unique, Paired, Receipts, OnePending, PendingAtTail, StartTurn, ActiveKnown;
    KnownActive(db);
    if StartTurn(db, op, now).1.Run? {
      StartedKeepsRows(db, op, now);
      StartKeepsTail(db, op, now);
    } else {
      UnstartedChangesNothing(db, op, now);
    }
  }

  /** With nothing pending the conversation ends in an answer, and the turn is new to it. */
  lemma QuestionAllowed(db: Tables, op: Op, now: Stamp)
    requires op.Start? && Inv(db) && TurnKey(op.user, op.turn) !in db.turns
    requires forall p :: !PendingTurn(db, p)
    ensures var ready := Claimed(db, op, now);
            var c := ready.active[op.user];
            c in ready.conversations && Insertable(ready, c, op.turn, FromUser) && Alternates(ready, c, op.turn, FromUser)
  {
    var ready := Claimed(db, op, now);
    var c := ready.active[op.user];
    forall i | InConversation(ready, i, c) && ready.messages[i].sequence == ready.conversations[c].sequence
      ensures ready.messages[i].role == FromAssistant
    {
      assert c in db.conversations;
      assert Tail(db, i, TurnKey(op.user, db.messages[i].turn)) || db.messages[i].role == FromAssistant;
    }
  }

  lemma StartKeepsTail(db: Tables, op: Op, now: Stamp)
    requires op.Start? && Inv(db)
    requires StartTurn(db, op, now).1.Run? && Counted(StartTurn(db, op, now).0)
    ensures PendingAtTail(StartTurn(db, op, now).0) && OnePending(StartTurn(db, op, now).0)
  {
    hide Inv, Issued, Owned, Unique, Paired, Receipts, StartTurn, ActiveKnown, Claimed;
    InvParts(db);
    KnownActive(db);
    var after, k, a := StartTurn(db, op, now).0, TurnKey(op.user, op.turn), Claimed(db, op, now).nextId;
    OnlyNewPending(db, op, now);
    assert Tail(after, a, k);
    forall i, l | i != a
      ensures !Tail(after, i, l)
    {
      OnlyNewTail(db, op, now, i, l);
    }
    hide Counted;
  }

  lemma OnlyNewPending(db: Tables, op: Op, now: Stamp)
    requires op.Start? && ActiveKnown(db) && Issued(db) && Owned(db)
    requires StartTurn(db, op, now).1.Run? && Counted(StartTurn(db, op, now).0)
    ensures var after, k, a := StartTurn(db, op, now).0, TurnKey(op.user, op.turn), Claimed(db, op, now).nextId;
      && (forall l :: PendingTurn(after, l) <==> l == k)
      && (forall l :: Tail(after, a, l) <==> l == k)
  {
    var after, k := StartTurn(db, op, now).0, TurnKey(op.user, op.turn);
    assert forall p :: !PendingTurn(db, p);
    forall l
      ensures PendingTurn(after, l) <==> l == k
    {
      if l != k { assert PendingTurn(after, l) ==> PendingTurn(db, l); }
    }
    hide Counted;
  }

  lemma OnlyNewTail(db: Tables, op: Op, now: Stamp, i: Id, l: TurnKey)
    requires op.Start? && Issued(db) && Counted(db) && PendingAtTail(db)
    requires ActiveKnown(db)
    requires StartTurn(db, op, now).1.Run? && Counted(StartTurn(db, op, now).0) && i != Claimed(db, op, now).nextId
    ensures !Tail(StartTurn(db, op, now).0, i, l)
  {
    assert !PendingTurn(db, l);
    assert Tail(StartTurn(db, op, now).0, i, l) ==> Tail(db, i, l);
  }

  /** Messages of other conversations, and their pairing, survive the erasure of conversation `c`. */
  lemma ErasureKeepsPaired(db: Tables, after: Tables, c: Id)
    requires Counted(db) && Paired(db) && Counted(after)
    requires after.messages == map i | i in db.messages && db.messages[i].conversation != c :: db.messages[i]
    requires forall d :: d in db.conversations && d != c ==> d in after.conversations && after.conversations[d] == db.conversations[d]
    ensures Paired(after)
  {
    forall i | i in after.messages
      ensures after.messages[i].sequence < after.conversations[after.messages[i].conversation].sequence ==> Followed(after, i)
      ensures after.messages[i].role == FromAssistant ==> Asked(after, i)
    {
      ErasureKeepsNeighbours(db, after, c, i);
    }
  }

  lemma ErasureKeepsNeighbours(db: Tables, after: Tables, c: Id, i: Id)
    requires after.messages == map i | i in db.messages && db.messages[i].conversation != c :: db.messages[i]
    requires i in after.messages
    ensures Followed(db, i) ==> Followed(after, i)
    ensures Asked(db, i) ==> Asked(after, i)
  {
    if Followed(db, i) {
      var j :| j in db.messages && Successor(db.messages[i], db.messages[j]);
      assert j in after.messages;
    }
    if Asked(db, i) {
      var j :| j in db.messages && Successor(db.messages[j], db.messages[i]) && Answers(db.messages[j], db.messages[i]);
      assert j in after.messages;
    }
  }

  lemma EraseKeepsOwned(db: Tables, c: Id)
    requires c in db.conversations && Issued(db) && Owned(db) && Receipts(db)
    ensures Issued(Erase(db, c)) && Owned(Erase(db, c)) && Receipts(Erase(db, c))
  {
  }

  lemma EraseKeepsCounted(db: Tables, c: Id)
    requires c in db.conversations && Owned(db) && Counted(db)
    ensures Counted(Erase(db, c))
  {
  }

  lemma EraseKeepsUnique(db: Tables, c: Id)
    requires c in db.conversations && Unique(db)
    ensures Unique(Erase(db, c))
  {
    var after := Erase(db, c);
    assert forall i, d :: InConversation(after, i, d) ==> InConversation(db, i, d) && after.messages[i] == db.messages[i];
  }

  lemma EraseKeepsPaired(db: Tables, c: Id)
    requires c in db.conversations && Counted(db) && Paired(db) && Counted(Erase(db, c))
    ensures Paired(Erase(db, c))
  {
    hide Counted, Paired;
    ErasureKeepsPaired(db, Erase(db, c), c);
  }

  /** What is pending is in another conversation, and stays. */
  lemma EraseKeepsTail(db: Tables, c: Id)
    requires c in db.conversations && Owned(db) && Receipts(db) && Counted(db) && OnePending(db) && PendingAtTail(db)
    requires Counted(Erase(db, c)) && forall k :: PendingTurn(db, k) ==> db.turns[k].conversation != c
    ensures OnePending(Erase(db, c)) && PendingAtTail(Erase(db, c))
  {
    var after := Erase(db, c);
    forall k
      ensures PendingTurn(after, k) <==> PendingTurn(db, k)
    {
    }
    forall i, k
      ensures Tail(after, i, k) ==> Tail(db, i, k)
      ensures Tail(db, i, k) ==> Tail(after, i, k)
    {
      if Tail(db, i, k) { assert PendingTurn(db, k); }
    }
    hide Tail, Owned, Receipts, Counted, PendingTurn, Erase;
  }

  lemma EraseKeepsInv(db: Tables, c: Id)
    requires Inv(db) && c in db.conversations && forall k :: PendingTurn(db, k) ==> db.turns[k].conversation != c
    ensures Inv(Erase(db, c))
  {
    hide Issued, Owned, Receipts, Counted, Unique, Paired, OnePending, PendingAtTail, Erase, PendingTurn;
    EraseKeepsOwned(db, c);
    EraseKeepsCounted(db, c);
    EraseKeepsUnique(db, c);
    EraseKeepsPaired(db, c);
    EraseKeepsTail(db, c);
  }

  lemma ResetErasesOrNothing(db: Tables, user: User, conversation: Option<Id>)
    requires ActiveKnown(db)
    ensures var after := ResetConversation(db, user, conversation).0;
            after == db || (user in db.active && after == Erase(db, db.active[user])
                            && forall k :: PendingTurn(db, k) ==> db.turns[k].conversation != db.active[user])
  {
    hide Erase;
  }

  lemma ResetKeepsInv(db: Tables, user: User, conversation: Option<Id>)
    requires Inv(db)
    ensures Inv(ResetConversation(db, user, conversation).0)
  {
    hide Inv, ResetConversation, Erase;
    KnownActive(db);
    ResetErasesOrNothing(db, user, conversation);
    if ResetConversation(db, user, conversation).0 != db {
      EraseKeepsInv(db, db.active[user]);
    }
  }

  lemma ProposalKeepsOwned(db: Tables, user: User, message: Id, proposal: Proposal)
    requires Issued(db) && Owned(db) && Receipts(db) && Counted(db)
    ensures var after := SetProposal(db, user, message, proposal).0; Issued(after) && Owned(after) && Receipts(after)
  {
  }

  lemma ProposalKeepsCounted(db: Tables, user: User, message: Id, proposal: Proposal)
    requires Owned(db) && Counted(db)
    ensures Counted(SetProposal(db, user, message, proposal).0)
  {
  }

  lemma ProposalKeepsUnique(db: Tables, user: User, message: Id, proposal: Proposal)
    requires Counted(db) && Unique(db)
    ensures Unique(SetProposal(db, user, message, proposal).0)
  {
    var (after, outcome) := SetProposal(db, user, message, proposal);
    if outcome.Done? {
      assert forall i, c :: InConversation(after, i, c) ==> InConversation(db, i, c);
    }
  }

  lemma ProposalKeepsInv(db: Tables, user: User, message: Id, proposal: Proposal)
    requires Inv(db)
    ensures Inv(SetProposal(db, user, message, proposal).0)
  {
    var (after, outcome) := SetProposal(db, user, message, proposal);
    assert Issued(after) && Owned(after) && Receipts(after) by { ProposalKeepsOwned(db, user, message, proposal); }
    assert Counted(after) by { ProposalKeepsCounted(db, user, message, proposal); }
    assert Unique(after) by { ProposalKeepsUnique(db, user, message, proposal); }
    if outcome.Done? {
      assert Paired(after) && PendingAtTail(after) && OnePending(after) by { SameShape(db, after); }
    }
    hide Issued, Owned, Receipts, Counted, Unique, Paired, OnePending, PendingAtTail;
  }

  /** Changing revisions and proposals only leaves pairing and the pending tail alone. */
  lemma SameShape(db: Tables, after: Tables)
    requires Counted(db) && Paired(db) && PendingAtTail(db) && OnePending(db) && Counted(after)
    requires after.messages.Keys == db.messages.Keys && after.conversations.Keys == db.conversations.Keys
    requires forall i :: i in db.messages ==>
      after.messages[i] == db.messages[i].(proposal := after.messages[i].proposal, revision := after.messages[i].revision)
    requires forall c :: c in db.conversations ==>
      after.conversations[c].user == db.conversations[c].user && after.conversations[c].sequence == db.conversations[c].sequence
    requires forall k :: PendingTurn(db, k) <==> PendingTurn(after, k)
    ensures Paired(after) && PendingAtTail(after) && OnePending(after)
  {
    hide Tail, Paired, PendingAtTail, OnePending, Counted, PendingTurn;
    SamePairing(db, after);
    SameTails(db, after);
  }

  lemma SamePairing(db: Tables, after: Tables)
    requires Counted(db) && Paired(db) && Counted(after)
    requires after.messages.Keys == db.messages.Keys
    requires forall i :: i in db.messages ==>
      after.messages[i] == db.messages[i].(proposal := after.messages[i].proposal, revision := after.messages[i].revision)
    requires forall c :: c in db.conversations ==> c in after.conversations && after.conversations[c].sequence == db.conversations[c].sequence
    ensures Paired(after)
  {
    assert forall i, j :: i in db.messages && j in db.messages ==>
      (Successor(db.messages[i], db.messages[j]) <==> Successor(after.messages[i], after.messages[j]))
      && (Answers(db.messages[i], db.messages[j]) <==> Answers(after.messages[i], after.messages[j]));
    assert forall i :: i in db.messages ==> (Followed(db, i) <==> Followed(after, i)) && (Asked(db, i) <==> Asked(after, i));
  }

  lemma SameTails(db: Tables, after: Tables)
    requires Counted(db) && PendingAtTail(db) && OnePending(db) && Counted(after)
    requires after.messages.Keys == db.messages.Keys && after.conversations.Keys == db.conversations.Keys
    requires forall i :: i in db.messages ==>
      after.messages[i] == db.messages[i].(proposal := after.messages[i].proposal, revision := after.messages[i].revision)
    requires forall c :: c in db.conversations ==>
      after.conversations[c].user == db.conversations[c].user && after.conversations[c].sequence == db.conversations[c].sequence
    requires forall k :: PendingTurn(db, k) <==> PendingTurn(after, k)
    ensures PendingAtTail(after) && OnePending(after)
  {
    assert forall i, k :: Tail(db, i, k) <==> Tail(after, i, k);
    hide Tail, Counted, PendingTurn;
  }

  /** Turn flags and heartbeats may change as long as the same turns stay pending. */
  lemma TurnFlagsOnly(db: Tables, after: Tables)
    requires Inv(db) && Receipts(after)
    requires after == db.(turns := after.turns, cancels := after.cancels) && after.turns.Keys == db.turns.Keys
    requires forall k :: PendingTurn(db, k) <==> PendingTurn(after, k)
    ensures Inv(after)
  {
    assert Rows(after) by { SameRows(db, after); }
    assert OnePending(after) && PendingAtTail(after) by { SamePending(db, after); }
    hide Rows, Receipts, OnePending, PendingAtTail;
  }

  lemma SamePending(db: Tables, after: Tables)
    requires Counted(db) && OnePending(db) && PendingAtTail(db) && Counted(after)
    requires after.messages == db.messages && after.conversations == db.conversations
    requires forall k :: PendingTurn(db, k) <==> PendingTurn(after, k)
    ensures OnePending(after) && PendingAtTail(after)
  {
    assert forall i, k :: Tail(db, i, k) <==> Tail(after, i, k);
  }

  lemma BeatKeepsInv(db: Tables, k: TurnKey, now: Stamp)
    requires Inv(db)
    ensures Inv(Beat(db, k, now).0)
  {
    BeatKeepsReceipts(db, k, now);
    assert Inv(Beat(db, k, now).0) by {
      TurnFlagsOnly(db, Beat(db, k, now).0);
    }
  }

  lemma BeatKeepsReceipts(db: Tables, k: TurnKey, now: Stamp)
    requires Receipts(db)
    ensures var after := Beat(db, k, now).0;
            Receipts(after) && forall l :: PendingTurn(db, l) <==> PendingTurn(after, l)
  {
  }

  lemma CancelKeepsInv(db: Tables, k: TurnKey)
    requires Inv(db)
    ensures Inv(RequestCancel(db, k))
  {
    CancelKeepsReceipts(db, k);
    assert Inv(RequestCancel(db, k)) by {
      TurnFlagsOnly(db, RequestCancel(db, k));
    }
  }

  lemma CancelKeepsReceipts(db: Tables, k: TurnKey)
    requires Receipts(db)
    ensures var after := RequestCancel(db, k);
            Receipts(after) && forall l :: PendingTurn(db, l) <==> PendingTurn(after, l)
  {
  }

  lemma CommitKeepsInv(before: Tables, after: (Tables, Outcome))
    requires Inv(before) && Inv(after.0)
    ensures Inv(Commit(before, after).0)
  {
  }

  // ----- the protocol --------------------------------------------------------------------------

  /** One request, as one transaction. A read changes nothing but what it expires. */
  ghost function Next(db: Tables, op: Op, at: Tick): (Tables, Outcome)
    requires Inv(db)
  {
    AlwaysFinishable(db);
    match op
    case Start(_, _, _, _, _) =>
      ExpireKeepsInv(db, None, at);
      Commit(db, StartTurn(Expire(db, None, at), op, at.now))
    case Finish(user, turn, response, http, status) =>
      (FinishTurn(db, TurnKey(user, turn), response, http, status, at.now), Done)
    case Heartbeat(user, turn) => Beat(db, TurnKey(user, turn), at.now)
    case Cancel(user, turn) => (RequestCancel(db, TurnKey(user, turn)), Done)
    case Reset(user, conversation) =>
      ExpireKeepsInv(db, Some(user), at);
      Commit(db, ResetConversation(Expire(db, Some(user), at), user, conversation))
    case UpdateProposal(user, message, proposal) => SetProposal(db, user, message, proposal)
    case Clear => Commit(db, ClearWorkspace(Expire(db, None, at)))
    case Read(user) => (Expire(db, Some(user), at), Done)
  }

  /** Every transaction keeps the invariant, whatever its arguments and the clock. */
  lemma NextKeepsInv(db: Tables, op: Op, at: Tick)
    requires Inv(db)
    ensures Inv(Next(db, op, at).0)
  {
    hide Inv, Finishable, ActiveKnown, MessagesKnown, Expire, StartTurn, FinishTurn, ResetConversation, SetProposal, ClearWorkspace, Beat, RequestCancel, Commit;
    AlwaysFinishable(db);
    KnownActive(db);
    match op
    case Start(_, _, _, _, _) => StartCommits(db, op, at);
    case Finish(user, turn, response, http, status) => FinishKeepsInv(db, TurnKey(user, turn), response, http, status, at.now);
    case Heartbeat(user, turn) => BeatKeepsInv(db, TurnKey(user, turn), at.now);
    case Cancel(user, turn) => CancelKeepsInv(db, TurnKey(user, turn));
    case Reset(user, conversation) => ResetCommits(db, op, at);
    case UpdateProposal(user, message, proposal) => ProposalKeepsInv(db, user, message, proposal);
    case Clear => ClearCommits(db, at);
    case Read(user) => ExpireKeepsInv(db, Some(user), at);
  }

  lemma StartCommits(db: Tables, op: Op, at: Tick)
    requires Inv(db) && op.Start?
    ensures Inv(Next(db, op, at).0)
  {
    hide Inv, Finishable, ActiveKnown, Expire, StartTurn, Commit;
    ExpireKeepsInv(db, None, at);
    StartKeepsInv(Expire(db, None, at), op, at.now);
    CommitKeepsInv(db, StartTurn(Expire(db, None, at), op, at.now));
  }

  lemma ResetCommits(db: Tables, op: Op, at: Tick)
    requires Inv(db) && op.Reset?
    ensures Inv(Next(db, op, at).0)
  {
    hide Inv, Finishable, ActiveKnown, Expire, ResetConversation, Commit;
    var who := Some(op.user);
    ExpireKeepsInv(db, who, at);
    ResetKeepsInv(Expire(db, who, at), op.user, op.conversation);
    CommitKeepsInv(db, ResetConversation(Expire(db, who, at), op.user, op.conversation));
  }

  lemma ClearKeepsInv(db: Tables)
    requires Inv(db)
    ensures Inv(ClearWorkspace(db).0)
  {
    assert Inv(EMPTY.(nextId := db.nextId));
    hide Inv, PendingTurn;
  }

  lemma ClearCommits(db: Tables, at: Tick)
    requires Inv(db)
    ensures Inv(Next(db, Clear, at).0)
  {
    hide Inv, Finishable, Expire, ClearWorkspace, Commit;
    ExpireKeepsInv(db, None, at);
    ClearKeepsInv(Expire(db, None, at));
    CommitKeepsInv(db, ClearWorkspace(Expire(db, None, at)));
  }

  // ----- requests that expire first --------------------------------------------------------------

  lemma CommitsStart(db: Tables, op: Op, at: Tick)
    requires Inv(db) && op.Start?
    ensures Finishable(db) && ActiveKnown(Expire(db, None, at))
    ensures Next(db, op, at) == Commit(db, StartTurn(Expire(db, None, at), op, at.now)) && Inv(Next(db, op, at).0)
  {
    hide Inv, Expire, StartTurn, Finishable, ActiveKnown;
    ExpireKeepsInv(db, None, at);
    NextKeepsInv(db, op, at);
  }

  lemma CommitsReset(db: Tables, user: User, conversation: Option<Id>, at: Tick)
    requires Inv(db)
    ensures Finishable(db) && ActiveKnown(Expire(db, Some(user), at))
    ensures var op := Op.Reset(user, conversation);
            Next(db, op, at) == Commit(db, ResetConversation(Expire(db, Some(user), at), user, conversation)) && Inv(Next(db, op, at).0)
  {
    hide Inv, Expire, ResetConversation, Finishable, ActiveKnown;
    ExpireKeepsInv(db, Some(user), at);
    NextKeepsInv(db, Op.Reset(user, conversation), at);
  }

  lemma CommitsClear(db: Tables, at: Tick)
    requires Inv(db)
    ensures Finishable(db)
    ensures Next(db, Op.Clear, at) == Commit(db, ClearWorkspace(Expire(db, None, at))) && Inv(Next(db, Op.Clear, at).0)
  {
    hide Inv, Expire, ClearWorkspace, Finishable, ActiveKnown;
    ExpireKeepsInv(db, None, at);
    NextKeepsInv(db, Op.Clear, at);
  }
}
