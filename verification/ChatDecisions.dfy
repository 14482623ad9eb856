/** When each request goes ahead and what it then does, decided from the tables, the clock and the
    request; and what earlier requests have decided for good. */
module ChatDecisions {
  import opened Clock
  import opened ChatTables
  import opened ChatInvariant
  import opened ChatRuns
  import opened ChatTurns
  import opened ChatClient
  import opened Wrappers

  /** A pending turn that gave a sign of life in the last 120 seconds. */
  ghost predicate Alive(db: Tables, k: TurnKey, at: Tick) {
    PendingTurn(db, k) && !Late(db.turns[k], at)
  }

  /** The conversation that the request names, if any, is its user's active one. */
  ghost predicate Names(db: Tables, user: User, conversation: Option<Id>) {
    conversation.Some? ==> user in db.active && db.active[user] == conversation.value
  }

  // ----- start -----------------------------------------------------------------------------------

  /** A turn without a receipt goes ahead exactly when the conversation it names is the active one and no
      turn of the workspace is alive; then in the user's conversation, or in a new one. */
  lemma NewTurnIsDecided(db: Tables, op: Op, at: Tick)
    requires Inv(db) && op.Start? && TurnKey(op.user, op.turn) !in db.turns
    ensures var (next, answer) := Next(db, op, at);
      if !Names(db, op.user, op.conversation) then answer == Refused(ConversationChanged) && next == db
      else if exists k :: Alive(db, k, at) then answer == Refused(WorkspaceBusy) && next == db
      else
        && answer.Run? && op.user in next.active && next.active[op.user] == answer.conversation
        && (if op.user in db.active then answer.conversation == db.active[op.user] else answer.conversation !in db.conversations)
  {
    hide Inv, Next, Expire, StartTurn, Finishable, ActiveKnown, Late, Issued;
    CommitsStart(db, op, at);
    InvParts(db);
    ExpireKeepsInv(db, None, at);
    var expired := Expire(db, None, at);
    InvParts(expired);
    PendingAfterExpiry(db, at);
    NewTurn(db, expired, op, at.now);
  }

  /** What is pending after an expiry of the workspace is what was alive. */
  lemma PendingAfterExpiry(db: Tables, at: Tick)
    requires Inv(db)
    ensures Finishable(db)
    ensures var expired := Expire(db, None, at);
      && OnlyAdds(db, expired) && expired.turns.Keys == db.turns.Keys
      && forall k :: PendingTurn(expired, k) <==> Alive(db, k, at)
  {
    InvParts(db);
    hide *;
    if k :| Dead(db, k, None, at) {
      DeadIsFinished(db, None, at, k);
      OnlyDeadPending(db, Expire(db, None, at), at, k);
    } else {
      NothingDead(db, None, at);
      NoneDead(db, at);
    }
  }

  lemma OnlyDeadPending(db: Tables, expired: Tables, at: Tick, k: TurnKey)
    requires OnePending(db) && Dead(db, k, None, at) && OnlyTurn(db, expired, k) && !PendingTurn(expired, k)
    ensures OnlyAdds(db, expired) && expired.turns.Keys == db.turns.Keys && forall l :: PendingTurn(expired, l) <==> Alive(db, l, at)
  {
    hide Late;
    forall l
      ensures !PendingTurn(expired, l) && !Alive(db, l, at)
    {
      assert PendingTurn(db, l) ==> l == k;
    }
  }

  lemma NoneDead(db: Tables, at: Tick)
    requires forall k :: !Dead(db, k, None, at)
    ensures OnlyAdds(db, db) && forall k :: PendingTurn(db, k) <==> Alive(db, k, at)
  {
    hide Late;
    forall k
      ensures PendingTurn(db, k) <==> Alive(db, k, at)
    {
      assert !Dead(db, k, None, at);
    }
  }

  lemma NewTurn(db: Tables, expired: Tables, op: Op, now: Stamp)
    requires op.Start? && ActiveKnown(expired) && OnlyAdds(db, expired) && expired.turns.Keys == db.turns.Keys
    requires Issued(expired) && TurnKey(op.user, op.turn) !in db.turns
    ensures var (next, answer) := StartTurn(expired, op, now);
      if !Names(db, op.user, op.conversation) then answer == Refused(ConversationChanged)
      else if exists k :: PendingTurn(expired, k) then answer == Refused(WorkspaceBusy)
      else
        && answer.Run? && op.user in next.active && next.active[op.user] == answer.conversation
        && (if op.user in db.active then answer.conversation == db.active[op.user] else answer.conversation !in db.conversations)
  {
  }

  // ----- reset -----------------------------------------------------------------------------------

  /** A reset goes ahead exactly when it names the active conversation, if any, and no turn of this user
      is alive: then the conversation is empty, under a new reset revision, and nothing else is lost. */
  lemma ResetIsDecided(db: Tables, user: User, conversation: Option<Id>, at: Tick)
    requires Inv(db)
    ensures var (next, answer) := Next(db, Op.Reset(user, conversation), at);
      if !Names(db, user, conversation) then answer == Refused(ConversationNotFound) && next == db
      else if user !in db.active then answer == Cleared(None) && OnlyAdds(db, next)
      else if exists k :: Alive(db, k, at) && k.user == user then answer == Refused(TurnPending) && next == db
      else answer == Cleared(Some(db.active[user])) && Emptied(db, next, db.active[user])
  {
    hide Inv, Next, Expire, ResetConversation, Finishable, ActiveKnown, Issued, Owned, Counted, Unique, Paired, Receipts, OnePending, PendingAtTail, Emptied,
      Alive;
    CommitsReset(db, user, conversation, at);
    InvParts(db);
    ExpireKeepsInv(db, Some(user), at);
    var expired := Expire(db, Some(user), at);
    InvParts(expired);
    PendingAfterOwnExpiry(db, user, at);
    ExpiryOnlyAdds(db, Some(user), at);
    ExpiryRevisions(db, Some(user), at);
    if user in db.active {
      OwnTurns(expired, user);
      ResetHere(db, expired, user, conversation);
    } else {
      ResetNowhere(expired, user, conversation);
    }
  }

  /** No message of the conversation is left, its reset revision is its new revision, and the other
      conversations have what they had. */
  ghost predicate Emptied(db: Tables, next: Tables, c: Id) {
    && next.active == db.active && c in db.conversations && c in next.conversations
    && (forall i :: !InConversation(next, i, c))
    && next.conversations[c].resetRevision == next.conversations[c].revision > db.conversations[c].revision
    && (forall i :: i in db.messages && db.messages[i].conversation != c ==> i in next.messages && next.messages[i] == db.messages[i])
  }

  /** What is pending of this user after its own expiry is what was alive. */
  lemma PendingAfterOwnExpiry(db: Tables, user: User, at: Tick)
    requires Inv(db)
    ensures Finishable(db)
    ensures forall k :: PendingTurn(Expire(db, Some(user), at), k) && k.user == user <==> Alive(db, k, at) && k.user == user
  {
    InvParts(db);
    hide *;
    if k :| Dead(db, k, Some(user), at) {
      DeadIsFinished(db, Some(user), at, k);
      OnlyDeadOfUser(db, Expire(db, Some(user), at), user, at, k);
    } else {
      NothingDead(db, Some(user), at);
      NoneDeadOfUser(db, user, at);
    }
  }

  lemma OnlyDeadOfUser(db: Tables, expired: Tables, user: User, at: Tick, k: TurnKey)
    requires OnePending(db) && Dead(db, k, Some(user), at) && OnlyTurn(db, expired, k) && !PendingTurn(expired, k)
    ensures forall l :: PendingTurn(expired, l) && l.user == user <==> Alive(db, l, at) && l.user == user
  {
    hide Late;
    forall l
      ensures !PendingTurn(expired, l) && !Alive(db, l, at)
    {
      assert PendingTurn(db, l) ==> l == k;
    }
  }

  lemma NoneDeadOfUser(db: Tables, user: User, at: Tick)
    requires forall k :: !Dead(db, k, Some(user), at)
    ensures forall k :: PendingTurn(db, k) && k.user == user <==> Alive(db, k, at) && k.user == user
  {
    hide Late;
    forall k
      ensures PendingTurn(db, k) && k.user == user <==> Alive(db, k, at) && k.user == user
    {
      assert !Dead(db, k, Some(user), at);
    }
  }

  lemma OwnTurns(db: Tables, user: User)
    requires Inv(db) && user in db.active
    ensures forall k :: k in db.turns ==> (db.turns[k].conversation == db.active[user] <==> k.user == user)
  {
    forall k | k in db.turns
      ensures db.turns[k].conversation == db.active[user] <==> k.user == user
    {
      OwnConversation(db, user, k);
    }
  }

  /** Expiry raises revisions, if anything. */
  lemma ExpiryRevisions(db: Tables, who: Option<User>, at: Tick)
    requires Inv(db)
    ensures Finishable(db)
    ensures forall c :: c in db.conversations ==>
      c in Expire(db, who, at).conversations && Expire(db, who, at).conversations[c].revision >= db.conversations[c].revision
  {
    hide Inv, Expire, Finishable, FinishTurn;
    if k :| Dead(db, k, who, at) {
      DeadIsFinished(db, who, at, k);
      FinishRevisions(db, k, at.now);
    } else {
      NothingDead(db, who, at);
    }
  }

  lemma FinishRevisions(db: Tables, k: TurnKey, now: Stamp)
    requires Finishable(db) && PendingTurn(db, k)
    ensures var after := FinishTurn(db, k, INTERRUPTED, 500, Failed, now);
      forall c :: c in db.conversations ==> c in after.conversations && after.conversations[c].revision >= db.conversations[c].revision
  {
    FinishableAt(db, k);
    hide Finishable;
  }

  lemma ResetNowhere(expired: Tables, user: User, conversation: Option<Id>)
    requires ActiveKnown(expired) && user !in expired.active
    ensures ResetConversation(expired, user, conversation) == if conversation.Some? then (expired, Refused(ConversationNotFound)) else (expired, Cleared(None))
  {
  }

  lemma ResetHere(db: Tables, expired: Tables, user: User, conversation: Option<Id>)
    requires OnlyAdds(db, expired) && ActiveKnown(expired) && user in db.active && db.active[user] in db.conversations
    requires forall c :: c in db.conversations ==> c in expired.conversations && expired.conversations[c].revision >= db.conversations[c].revision
    requires forall k :: k in expired.turns ==> (expired.turns[k].conversation == expired.active[user] <==> k.user == user)
    ensures var (next, answer) := ResetConversation(expired, user, conversation);
      if !Names(db, user, conversation) then answer == Refused(ConversationNotFound)
      else if exists k :: PendingTurn(expired, k) && k.user == user then answer == Refused(TurnPending)
      else answer == Cleared(Some(db.active[user])) && Emptied(db, next, db.active[user])
  {
  }

  // ----- clear -----------------------------------------------------------------------------------

  /** A clear goes ahead exactly when no turn is alive, and leaves nothing but the supply of identifiers. */
  lemma ClearIsDecided(db: Tables, at: Tick)
    requires Inv(db)
    ensures var (next, answer) := Next(db, Op.Clear, at);
      if exists k :: Alive(db, k, at) then answer == Refused(WorkspaceBusy) && next == db
      else answer == Done && next == EMPTY.(nextId := next.nextId)
  {
    hide Inv, Next, Expire, Alive, PendingTurn;
    CommitsClear(db, at);
    PendingAfterExpiry(db, at);
  }

  // ----- read ------------------------------------------------------------------------------------

  /** A read fails exactly its user's dead turn, and otherwise leaves the tables alone. */
  lemma ReadSweepsExactly(db: Tables, user: User, at: Tick, k: TurnKey)
    requires Inv(db) && k in db.turns
    ensures var next := Next(db, Op.Read(user), at).0;
      && OnlyAdds(db, next) && next.turns.Keys == db.turns.Keys
      && (if PendingTurn(db, k) && Late(db.turns[k], at) && k.user == user then
            forall text, q :: Posed(db, q, db.turns[k].conversation, k.turn, text) ==> Closed(next, k, text, INTERRUPTED, 500, Failed)
          else next.turns[k] == db.turns[k])
      && ((forall l :: PendingTurn(db, l) && l.user == user ==> Alive(db, l, at)) ==> next == db)
  {
    ReadIsExpiry(db, user, at);
    hide *;
    if l :| Dead(db, l, Some(user), at) {
      DeadIsFinished(db, Some(user), at, l);
      DeadAlone(db, Expire(db, Some(user), at), user, at, k, l);
    } else {
      NothingDead(db, Some(user), at);
      NotDead(db, user, at, k);
    }
  }

  lemma ReadIsExpiry(db: Tables, user: User, at: Tick)
    requires Inv(db)
    ensures Finishable(db) && OnePending(db) && Next(db, Op.Read(user), at).0 == Expire(db, Some(user), at)
  {
    hide Expire;
    AlwaysFinishable(db);
  }

  lemma DeadAlone(db: Tables, next: Tables, user: User, at: Tick, k: TurnKey, l: TurnKey)
    requires k in db.turns && Dead(db, l, Some(user), at) && OnlyTurn(db, next, l)
    ensures OnlyAdds(db, next) && next.turns.Keys == db.turns.Keys && k in next.turns
    ensures OnePending(db) && PendingTurn(db, k) && Late(db.turns[k], at) && k.user == user ==> k == l
    ensures !(PendingTurn(db, k) && Late(db.turns[k], at) && k.user == user) ==> next.turns[k] == db.turns[k]
    ensures !(forall m :: PendingTurn(db, m) && m.user == user ==> Alive(db, m, at))
  {
    hide Late;
  }

  lemma NotDead(db: Tables, user: User, at: Tick, k: TurnKey)
    requires k in db.turns && forall l :: !Dead(db, l, Some(user), at)
    ensures OnlyAdds(db, db) && !(PendingTurn(db, k) && Late(db.turns[k], at) && k.user == user)
  {
    hide Late;
    assert !Dead(db, k, Some(user), at);
  }

  // ----- proposals -------------------------------------------------------------------------------

  /** A proposal is decided exactly when its message is in a conversation of the user and it is pending, or
      was decided this way before; and then the message changes in nothing else. */
  lemma ProposalIsDecided(db: Tables, user: User, message: Id, proposal: Proposal, at: Tick)
    requires Inv(db)
    ensures var (next, answer) := Next(db, Op.UpdateProposal(user, message, proposal), at);
      var known := message in db.messages && user in db.active && db.messages[message].conversation == db.active[user];
      if proposal !in {ProposalApplied, ProposalDiscarded} then answer == Refused(InvalidStatus) && next == db
      else if !known then answer == Refused(MessageNotFound) && next == db
      else if db.messages[message].proposal !in {ProposalPending, proposal} then answer == Refused(NoPendingProposal) && next == db
      else
        && answer == Done && next.turns == db.turns && message in next.messages
        && next.messages == db.messages[message := db.messages[message].(proposal := proposal, revision := next.messages[message].revision)]
        && (forall i :: InConversation(db, i, db.active[user]) ==> db.messages[i].revision < next.messages[message].revision)
  {
    KnownActive(db);
    assert Owned(db) && Counted(db);
    hide Inv;
  }

  /** Decisions stand: what was applied stays applied, and what was discarded stays discarded, as long as
      the conversation is not reset or cleared. */
  lemma {:induction false} DecisionsStand(db: Tables, run: seq<Event>, i: nat, j: nat, user: User, m: Id)
    requires Inv(db) && i <= j <= |run| && Undisturbed(db, run, i, j, user)
    requires var before := After(db, run[..i]);
      && m in before.messages && before.messages[m].conversation in before.conversations
      && before.conversations[before.messages[m].conversation].user == user
    ensures var before, after := After(db, run[..i]), After(db, run[..j]);
      && m in after.messages && after.messages[m].content == before.messages[m].content
      && after.messages[m].conversation == before.messages[m].conversation
      && after.messages[m].conversation in after.conversations && after.conversations[after.messages[m].conversation].user == user
      && (before.messages[m].proposal != ProposalPending ==> after.messages[m].proposal == before.messages[m].proposal)
    decreases j
  {
    hide Micros, Valid, Inv, Next, After, Answer, Undisturbed, Wiped, Erases;
    if i < j {
      OneMoreUndisturbed(db, run, i, j - 1, user);
      DecisionsStand(db, run, i, j - 1, user, m);
      Served(db, run, j - 1);
      var mid := After(db, run[..j - 1]);
      MessageStays(mid, run[j - 1].op, run[j - 1].at, m);
      OwnerStays(mid, run[j - 1].op, run[j - 1].at, m);
    }
  }

  lemma OwnerStays(db: Tables, op: Op, at: Tick, m: Id)
    requires Inv(db) && m in db.messages && db.messages[m].conversation in db.conversations
    requires var next := Next(db, op, at).0; m in next.messages && next.messages[m].conversation == db.messages[m].conversation
    ensures var c, next := db.messages[m].conversation, Next(db, op, at).0;
      c in next.conversations && next.conversations[c].user == db.conversations[c].user
  {
    hide Inv, Next, Evolves;
    NextEvolves(db, op, at);
    NextKeepsInv(db, op, at);
    ConversationOf(db, Next(db, op, at).0, m);
  }

  lemma ConversationOf(db: Tables, next: Tables, m: Id)
    requires Inv(next) && Evolves(db, next) && m in db.messages && m in next.messages
    requires next.messages[m].conversation == db.messages[m].conversation && db.messages[m].conversation in db.conversations
    ensures var c := db.messages[m].conversation; c in next.conversations && next.conversations[c].user == db.conversations[c].user
  {
    InvParts(next);
    hide Inv, Rows, Issued, Owned, Unique, Paired, Receipts, OnePending, PendingAtTail;
    var c := db.messages[m].conversation;
    assert c in next.conversations;
    assert Grows(db, next, c);
  }

  // ----- cancel and heartbeat --------------------------------------------------------------------

  predicate Cancels(op: Op, k: TurnKey) {
    op.Cancel? && TurnKey(op.user, op.turn) == k
  }

  /** Pending turns are flagged exactly when a cancel request is stored. */
  ghost predicate Flagged(db: Tables) {
    forall k :: PendingTurn(db, k) ==> (db.turns[k].cancelRequested <==> k in db.cancels)
  }

  /** The tables after a run keep the flags, and which cancels are stored. */
  lemma CancelStep(db: Tables, op: Op, at: Tick, k: TurnKey)
    requires Inv(db) && Flagged(db)
    ensures var (next, answer) := Next(db, op, at);
      && Flagged(next) && (k in next.cancels <==> !Wiped(op, answer) && (Cancels(op, k) || k in db.cancels))
  {
    hide Inv, Finishable, ActiveKnown, MessagesKnown, Expire, StartTurn, FinishTurn, ResetConversation, ClearWorkspace, Flagged, Late, Commit;
    AlwaysFinishable(db);
    KnownActive(db);
    match op
    case Start(_, _, _, _, _) => StartFlags(db, op, at);
    case Finish(u, t, response, http, status) =>
      FinishMessages(db, TurnKey(u, t), response, http, status, at.now);
      FinishFlags(db, TurnKey(u, t), response, http, status, at.now);
    case Heartbeat(u, t) => BeatFlags(db, TurnKey(u, t), at.now);
    case Cancel(u, t) => CancelFlags(db, TurnKey(u, t));
    case Reset(u, conversation) => ResetFlags(db, op, at);
    case UpdateProposal(u, m, proposal) => ProposalFlags(db, u, m, proposal);
    case Clear => ClearFlags(db, at);
    case Read(u) => ExpiryFlags(db, Some(u), at);
  }

  lemma ExpiryFlags(db: Tables, who: Option<User>, at: Tick)
    requires Inv(db) && Flagged(db)
    ensures Finishable(db) && Flagged(Expire(db, who, at)) && Expire(db, who, at).cancels == db.cancels
  {
    hide Inv, Expire, Dead;
    if k :| Dead(db, k, who, at) {
      DeadIsFinished(db, who, at, k);
    } else {
      NothingDead(db, who, at);
    }
  }

  lemma FinishFlags(db: Tables, k: TurnKey, response: Response, http: nat, status: Terminal, now: Stamp)
    requires Inv(db) && Finishable(db) && Flagged(db)
    ensures var after := FinishTurn(db, k, response, http, status, now); Flagged(after) && after.cancels == db.cancels
  {
    hide Inv, Finishable, FinishTurn;
    if PendingTurn(db, k) {
      FinishedOnly(db, k, response, http, status, now);
    } else {
      UnpendingFinishesNothing(db, k, response, http, status, now);
    }
  }

  lemma BeatFlags(db: Tables, k: TurnKey, now: Stamp)
    requires Flagged(db)
    ensures Flagged(Beat(db, k, now).0) && Beat(db, k, now).0.cancels == db.cancels
  {
  }

  lemma CancelFlags(db: Tables, k: TurnKey)
    requires Flagged(db)
    ensures Flagged(RequestCancel(db, k)) && RequestCancel(db, k).cancels == db.cancels + {k}
  {
  }

  lemma ProposalFlags(db: Tables, user: User, message: Id, proposal: Proposal)
    requires Flagged(db) && MessagesKnown(db)
    ensures var after := SetProposal(db, user, message, proposal).0; Flagged(after) && after.cancels == db.cancels
  {
  }

  lemma StartedFlags(db: Tables, op: Op, now: Stamp)
    requires op.Start? && ActiveKnown(db) && Flagged(db)
    ensures var after := StartTurn(db, op, now).0; Flagged(after) && after.cancels == db.cancels
  {
  }

  lemma StartFlags(db: Tables, op: Op, at: Tick)
    requires Inv(db) && op.Start? && Flagged(db)
    ensures Flagged(Next(db, op, at).0) && Next(db, op, at).0.cancels == db.cancels
  {
    hide Inv, Next, Expire, StartTurn, ActiveKnown, Finishable, Flagged;
    CommitsStart(db, op, at);
    ExpiryFlags(db, None, at);
    StartedFlags(Expire(db, None, at), op, at.now);
  }

  lemma ResetFlags(db: Tables, op: Op, at: Tick)
    requires Inv(db) && op.Reset? && Flagged(db)
    ensures Flagged(Next(db, op, at).0) && Next(db, op, at).0.cancels == db.cancels
  {
    hide Inv, Next, Expire, ResetConversation, ActiveKnown, Finishable, Flagged, PendingTurn;
    CommitsReset(db, op.user, op.conversation, at);
    ExpiryFlags(db, Some(op.user), at);
    var expired := Expire(db, Some(op.user), at);
    ResetErasesOrNothing(expired, op.user, op.conversation);
    if op.user in expired.active {
      KnownAt(expired, op.user);
      EraseFlags(expired, expired.active[op.user]);
    }
  }

  lemma EraseFlags(db: Tables, c: Id)
    requires c in db.conversations && Flagged(db)
    ensures Flagged(Erase(db, c)) && Erase(db, c).cancels == db.cancels
  {
  }

  lemma ClearFlags(db: Tables, at: Tick)
    requires Inv(db) && Flagged(db)
    ensures var (next, answer) := Next(db, Op.Clear, at); Flagged(next) && next.cancels == if answer.Done? then {} else db.cancels
  {
    hide Inv, Alive;
    ClearIsDecided(db, at);
    hide Next;
  }

  /** Before request `j` a cancel of the turn was served, or was stored from the beginning, and no clear
      after it. */
  ghost predicate CancelledBefore(db: Tables, run: seq<Event>, j: nat, k: TurnKey)
    requires Inv(db) && j <= |run|
  {
    || (k in db.cancels && NoClear(db, run, 0, j))
    || exists m: nat :: m < j && Cancels(run[m].op, k) && NoClear(db, run, m, j)
  }

  lemma {:induction false} CancelsAreStored(db: Tables, run: seq<Event>, j: nat, k: TurnKey)
    requires Inv(db) && Flagged(db) && j <= |run|
    ensures Flagged(After(db, run[..j])) && (k in After(db, run[..j]).cancels <==> CancelledBefore(db, run, j, k))
    decreases j
  {
    hide Micros, Valid, Inv, Next, After, Answer, Wiped, Cancels, CancelledBefore, Flagged;
    if j == 0 {
      CancelledAtFirst(db, run, k);
    } else {
      CancelsAreStored(db, run, j - 1, k);
      Served(db, run, j - 1);
      CancelStep(After(db, run[..j - 1]), run[j - 1].op, run[j - 1].at, k);
      OneMoreCancel(db, run, j - 1, k);
    }
  }

  lemma {:induction false} CancelledAtFirst(db: Tables, run: seq<Event>, k: TurnKey)
    requires Inv(db)
    ensures After(db, run[..0]) == db && (CancelledBefore(db, run, 0, k) <==> k in db.cancels)
  {
    assert run[..0] == [];
    hide Inv;
  }

  lemma {:induction false} OneMoreCancel(db: Tables, run: seq<Event>, j: nat, k: TurnKey)
    requires Inv(db) && j < |run|
    ensures CancelledBefore(db, run, j + 1, k) <==>
      !Wiped(run[j].op, Answer(db, run, j)) && (Cancels(run[j].op, k) || CancelledBefore(db, run, j, k))
  {
    hide Micros, Valid, Inv, Answer, NoClear;
    OneMoreUncleared(db, run, 0, j);
    OneMoreUncleared(db, run, j, j);
    NothingCleared(db, run, j);
    assert Cancels(run[j].op, k) ==> !Wiped(run[j].op, Answer(db, run, j)) && NoClear(db, run, j, j + 1);
    if m: nat :| m < j && Cancels(run[m].op, k) && NoClear(db, run, m, j) {
      OneMoreUncleared(db, run, m, j);
    }
    if m: nat :| m < j + 1 && Cancels(run[m].op, k) && NoClear(db, run, m, j + 1) {
      OneMoreUncleared(db, run, m, j);
      assert m < j ==> CancelledBefore(db, run, j, k);
    }
  }

  lemma {:induction false} OneMoreUncleared(db: Tables, run: seq<Event>, m: nat, j: nat)
    requires Inv(db) && m <= j < |run|
    ensures NoClear(db, run, m, j + 1) <==> NoClear(db, run, m, j) && !Wiped(run[j].op, Answer(db, run, j))
  {
    hide Inv, Answer, Wiped;
  }

  lemma {:induction false} NothingCleared(db: Tables, run: seq<Event>, j: nat)
    requires Inv(db) && j <= |run|
    ensures NoClear(db, run, j, j)
  {
  }

  /** From tables whose flags agree, as the empty ones do, in every run: the heartbeat of a turn that is
      running says stop exactly when a cancel of the turn was served, before or after it started, and the
      workspace not cleared since. */
  lemma {:induction false} StopsExactlyWhenCancelled(db: Tables, run: seq<Event>, i: nat, j: nat, k: TurnKey)
    requires Inv(db) && Flagged(db) && i < j < |run| && Starts(run[i].op, Answer(db, run, i), k)
    requires Unfinished(run, i, j, k) && InTime(run, i, j, k) && Beats(run[j].op, k)
    ensures Answer(db, run, j) == Stop(CancelledBefore(db, run, j, k))
  {
    hide Micros, Valid, Inv, Next, After, Answer, CancelledBefore, Undisturbed, Starts;
    StartsIsStart(run[i].op, Answer(db, run, i), k);
    HeartbeatsKeepAlive(db, run, i, j, k);
    CancelsAreStored(db, run, j, k);
    Served(db, run, j);
    BeatAnswers(After(db, run[..j]), run[j].op, run[j].at, k);
  }

  lemma EmptyIsFlagged()
    ensures Inv(EMPTY) && Flagged(EMPTY)
  {
  }

  /** And a turn that is not pending is told to stop. */
  lemma BeatAnswers(db: Tables, op: Op, at: Tick, k: TurnKey)
    requires Inv(db) && Flagged(db) && Beats(op, k)
    ensures Next(db, op, at).1 == Stop(!PendingTurn(db, k) || k in db.cancels)
  {
    hide Inv;
  }
}
