/** The life of a turn over whole runs, told from the requests and their clocks alone. */
module ChatTurns {
  import opened Clock
  import opened ChatTables
  import opened ChatInvariant
  import opened ChatRuns
  import opened Wrappers

  // ----- what a run says about a turn ------------------------------------------------------------

  predicate Finishes(op: Op, k: TurnKey) {
    op.Finish? && TurnKey(op.user, op.turn) == k
  }

  predicate Beats(op: Op, k: TurnKey) {
    op.Heartbeat? && TurnKey(op.user, op.turn) == k
  }

  /** The requests that fail a dead turn of this user before they do anything else, and leave it failed. */
  predicate Sweeps(op: Op, user: User) {
    op.Start? || ((op.Reset? || op.Read?) && op.user == user)
  }

  /** The last sign of life of the turn before request `j`: its start, which is request `i`, or a heartbeat. */
  function LastBeat(run: seq<Event>, i: nat, j: nat, k: TurnKey): Stamp
    requires i < j <= |run|
    decreases j
  {
    if j - 1 == i || Beats(run[j - 1].op, k) then run[j - 1].at.now else LastBeat(run, i, j - 1, k)
  }

  /** Request `n` comes more than 120 seconds after the turn's last sign of life. */
  predicate Silent(run: seq<Event>, i: nat, n: nat, k: TurnKey)
    requires i < n < |run|
  {
    Micros(LastBeat(run, i, n, k)) + 120_000_000 < Micros(run[n].at.now)
  }

  predicate Unfinished(run: seq<Event>, i: nat, j: nat, k: TurnKey)
    requires j <= |run|
  {
    forall n :: i < n < j ==> !Finishes(run[n].op, k)
  }

  predicate InTime(run: seq<Event>, i: nat, j: nat, k: TurnKey)
    requires j <= |run|
  {
    forall n :: i < n < j ==> !Silent(run, i, n, k)
  }

  // ----- what the tables hold --------------------------------------------------------------------

  /** The question of a turn, with its text. */
  ghost predicate Posed(db: Tables, q: Id, c: Id, turn: TurnId, text: string) {
    && UserMessageOf(db, q, c, turn)
    && db.messages[q].content == text && db.messages[q].status == Completed && db.messages[q].proposal == NoProposal
  }

  /** The answer of a turn: the text of the response, and a proposal exactly when the response has one. */
  ghost predicate Replied(db: Tables, a: Id, c: Id, turn: TurnId, response: Response, status: TurnStatus) {
    && InConversation(db, a, c) && db.messages[a].turn == turn && db.messages[a].role == FromAssistant
    && db.messages[a].content == (if response.assistantMessage != "" then response.assistantMessage else FAILED_TEXT)
    && db.messages[a].status == status && (db.messages[a].proposal != NoProposal <==> response.previewPending)
  }

  /** The turn ended with this outcome: its receipt stores it, with the identifiers of its two messages. */
  ghost predicate Closed(db: Tables, k: TurnKey, text: string, response: Response, http: nat, status: TurnStatus) {
    && k in db.turns && db.turns[k].status == status && db.turns[k].http == http
    && db.turns[k].response.Some? && db.turns[k].response.value.ids.Some?
    && db.turns[k].response.value == response.(ids := db.turns[k].response.value.ids)
    && var ids := db.turns[k].response.value.ids.value;
    && Posed(db, ids.user, db.turns[k].conversation, k.turn, text)
    && Replied(db, ids.assistant, db.turns[k].conversation, k.turn, response, status)
  }

  /** The turn is pending with this last sign of life, and its question has been asked. */
  ghost predicate Waiting(db: Tables, k: TurnKey, text: string, beat: Stamp) {
    PendingTurn(db, k) && db.turns[k].heartbeatAt == beat && exists q :: Posed(db, q, db.turns[k].conversation, k.turn, text)
  }

  ghost predicate Unanswered(db: Tables, k: TurnKey, text: string) {
    PendingTurn(db, k) && Waiting(db, k, text, db.turns[k].heartbeatAt)
  }

  ghost predicate Late(t: Turn, at: Tick) {
    Micros(t.heartbeatAt) + 120_000_000 < Micros(at.now)
  }

  // ----- one request -----------------------------------------------------------------------------

  /** A pending turn that expiry on behalf of `who`, a user or the workspace, fails. */
  ghost predicate Dead(db: Tables, k: TurnKey, who: Option<User>, at: Tick) {
    PendingTurn(db, k) && Late(db.turns[k], at) && (who.Some? ==> k.user == who.value)
  }

  lemma StaleMeansDead(db: Tables, who: Option<User>, at: Tick)
    ensures forall k :: Stale(db, k, who, at.cutoff) <==> Dead(db, k, who, at)
  {
    hide Micros, Before;
    forall k | PendingTurn(db, k)
      ensures Stale(db, k, who, at.cutoff) <==> Dead(db, k, who, at)
    {
      TextOrderIsTimeOrder(db.turns[k].heartbeatAt, at.cutoff);
    }
  }

  /** Nothing but the named turn's row changed among the turns, and the messages are still there. */
  ghost predicate OnlyTurn(db: Tables, after: Tables, k: TurnKey) {
    && OnlyAdds(db, after)
    && k in db.turns && k in after.turns && after.turns == db.turns[k := after.turns[k]]
    && after.turns[k].conversation == db.turns[k].conversation && after.turns[k].sha == db.turns[k].sha
  }

  /** Messages are only added, and the rest of the tables is not touched but for turns and counters. */
  ghost predicate OnlyAdds(db: Tables, after: Tables) {
    && after.active == db.active && after.cancels == db.cancels && after.conversations.Keys == db.conversations.Keys
    && forall i :: i in db.messages ==> i in after.messages && after.messages[i] == db.messages[i]
  }

  lemma {:induction false} AnswerAdded(db: Tables, q: Id, c: Id, turn: TurnId, text: string, response: Response, status: TurnStatus)
    requires Issued(db) && c in db.conversations && Posed(db, q, c, turn, text)
    ensures var added := AddMessage(db, c, turn, FromAssistant, ReplyText(response), status, ReplyProposal(response));
      && OnlyAdds(db, added) && added.turns == db.turns && Posed(added, q, c, turn, text) && Replied(added, db.nextId, c, turn, response, status)
  {
  }

  lemma {:induction false} SameMessages(db: Tables, after: Tables, q: Id, a: Id, c: Id, turn: TurnId, text: string, response: Response, status: TurnStatus)
    requires after.messages == db.messages
    ensures Posed(db, q, c, turn, text) ==> Posed(after, q, c, turn, text)
    ensures Replied(db, a, c, turn, response, status) ==> Replied(after, a, c, turn, response, status)
  {
  }

  lemma {:induction false} PosedIsQuestion(db: Tables, q: Id, c: Id, turn: TurnId, text: string)
    requires Posed(db, q, c, turn, text)
    ensures UserMessageOf(db, q, c, turn) && HasUserMessage(db, c, turn)
  {
  }

  lemma FinishedOnly(db: Tables, k: TurnKey, response: Response, http: nat, status: Terminal, now: Stamp)
    requires Inv(db) && Finishable(db) && PendingTurn(db, k)
    ensures OnlyTurn(db, FinishTurn(db, k, response, http, status, now), k) && !PendingTurn(FinishTurn(db, k, response, http, status, now), k)
  {
    FinishableAt(db, k);
    assert Issued(db);
    hide Inv, Finishable;
  }

  lemma {:induction false} FinishCloses(db: Tables, k: TurnKey, text: string, response: Response, http: nat, status: Terminal, now: Stamp)
    requires Inv(db) && Finishable(db) && PendingTurn(db, k) && exists q :: Posed(db, q, db.turns[k].conversation, k.turn, text)
    ensures var after := FinishTurn(db, k, response, http, status, now);
      Closed(after, k, text, response, http, status)
  {
    hide Inv, Finishable, Issued, Rows, Owned, Counted, Unique, Paired, Receipts, OnePending, PendingAtTail, AddMessage, Posed, Replied;
    InvParts(db);
    FinishableAt(db, k);
    ScalarOne(db, k);
    var t, answer := db.turns[k], db.nextId;
    var q :| Posed(db, q, t.conversation, k.turn, text);
    PosedIsQuestion(db, q, t.conversation, k.turn, text);
    assert UserMessageId(db, t.conversation, k.turn) == q;
    hide UserMessageId, UserMessageOf;
    AnswerAdded(db, q, t.conversation, k.turn, text, response, status);
    var added := AddMessage(db, t.conversation, k.turn, FromAssistant, ReplyText(response), status, ReplyProposal(response));
    var after := FinishTurn(db, k, response, http, status, now);
    SameMessages(added, after, q, answer, t.conversation, k.turn, text, response, status);
  }

  lemma NothingDead(db: Tables, who: Option<User>, at: Tick)
    requires Inv(db) && forall k :: !Dead(db, k, who, at)
    ensures Finishable(db) && Expire(db, who, at) == db
  {
    hide Inv, Finishable, Expire, FinishTurn, Dead, Stale;
    AlwaysFinishable(db);
    StaleMeansDead(db, who, at);
    OneStale(db, who, at);
  }

  lemma DeadIsFinished(db: Tables, who: Option<User>, at: Tick, k: TurnKey)
    requires Inv(db) && Dead(db, k, who, at)
    ensures Finishable(db) && Expire(db, who, at) == FinishTurn(db, k, INTERRUPTED, 500, Failed, at.now)
    ensures OnlyTurn(db, Expire(db, who, at), k) && !PendingTurn(Expire(db, who, at), k)
    ensures forall text, q :: Posed(db, q, db.turns[k].conversation, k.turn, text) ==> Closed(Expire(db, who, at), k, text, INTERRUPTED, 500, Failed)
  {
    hide Inv, Finishable, Expire, FinishTurn, Late, OnlyTurn, Posed, Closed, Stale;
    AlwaysFinishable(db);
    StaleMeansDead(db, who, at);
    OneStale(db, who, at);
    FinishedOnly(db, k, INTERRUPTED, 500, Failed, at.now);
    forall text, q | Posed(db, q, db.turns[k].conversation, k.turn, text)
      ensures Closed(Expire(db, who, at), k, text, INTERRUPTED, 500, Failed)
    {
      FinishCloses(db, k, text, INTERRUPTED, 500, Failed, at.now);
    }
  }

  /** The only pending turn is not dead for this expiry: nothing happens. */
  lemma AliveStays(db: Tables, who: Option<User>, at: Tick, k: TurnKey)
    requires Inv(db) && PendingTurn(db, k) && !Dead(db, k, who, at)
    ensures Finishable(db) && Expire(db, who, at) == db
  {
    assert OnePending(db);
    hide Inv, Expire, Late;
    forall l
      ensures !Dead(db, l, who, at)
    {
    }
    NothingDead(db, who, at);
  }

  /** Expiry in the two cases there are. */
  lemma ExpiryCases(db: Tables, who: Option<User>, at: Tick)
    requires Inv(db)
    ensures Finishable(db)
    ensures Expire(db, who, at) == db || exists k :: Dead(db, k, who, at) && OnlyTurn(db, Expire(db, who, at), k)
  {
    hide Inv, Expire, Dead, OnlyTurn;
    if k :| Dead(db, k, who, at) {
      DeadIsFinished(db, who, at, k);
    } else {
      NothingDead(db, who, at);
    }
  }

  /** The message is still there; only a pending proposal may have been decided. */
  ghost predicate Stays(db: Tables, after: Tables, i: Id)
    requires i in db.messages
  {
    && i in after.messages
    && after.messages[i] == db.messages[i].(proposal := after.messages[i].proposal, revision := after.messages[i].revision)
    && (after.messages[i].proposal == db.messages[i].proposal
        || (db.messages[i].proposal == ProposalPending && after.messages[i].proposal in {ProposalApplied, ProposalDiscarded}))
  }

  lemma StartAdds(db: Tables, op: Op, now: Stamp)
    requires op.Start? && Issued(db) && ActiveKnown(db)
    ensures var after := StartTurn(db, op, now).0;
      && (forall i :: i in db.messages ==> i in after.messages && after.messages[i] == db.messages[i])
      && (forall k :: k in db.turns ==> k in after.turns && after.turns[k] == db.turns[k])
  {
  }

  /** Whatever is served, a message stays until its conversation is erased or the workspace cleared. */
  lemma MessageStays(db: Tables, op: Op, at: Tick, i: Id)
    requires Inv(db) && i in db.messages && db.messages[i].conversation in db.conversations
    requires !Wiped(op, Next(db, op, at).1) && !Erases(op, Next(db, op, at).1, db.conversations[db.messages[i].conversation].user)
    ensures Stays(db, Next(db, op, at).0, i)
  {
    hide Inv, Finishable, Expire, FinishTurn, StartTurn, ResetConversation, ClearWorkspace, ActiveKnown, MessagesKnown, Dead, Beat, RequestCancel;
    AlwaysFinishable(db);
    KnownActive(db);
    match op
    case Start(_, _, _, _, _) => StartMessages(db, op, at, i);
    case Finish(u, t, response, http, status) => FinishMessages(db, TurnKey(u, t), response, http, status, at.now);
    case Reset(_, _) => ResetMessages(db, op, at, i);
    case Clear => CommitsClear(db, at); ClearsOrRefuses(db, at);
    case Read(u) => ExpiryCases(db, Some(u), at);
    case Heartbeat(u, t) => FlagsOnly(db, TurnKey(u, t), at.now);
    case Cancel(u, t) => FlagsOnly(db, TurnKey(u, t), at.now);
    case UpdateProposal(_, _, _) =>
  }

  lemma FlagsOnly(db: Tables, k: TurnKey, now: Stamp)
    ensures Beat(db, k, now).0.messages == db.messages && RequestCancel(db, k).messages == db.messages
  {
  }

  lemma FinishMessages(db: Tables, k: TurnKey, response: Response, http: nat, status: Terminal, now: Stamp)
    requires Inv(db) && Finishable(db)
    ensures FinishTurn(db, k, response, http, status, now) == db || OnlyTurn(db, FinishTurn(db, k, response, http, status, now), k)
  {
    hide Inv, Finishable, FinishTurn, OnlyTurn;
    if PendingTurn(db, k) {
      FinishedOnly(db, k, response, http, status, now);
    } else {
      UnpendingFinishesNothing(db, k, response, http, status, now);
    }
  }

  lemma ClearsOrRefuses(db: Tables, at: Tick)
    requires Inv(db)
    ensures Wiped(Op.Clear, Next(db, Op.Clear, at).1) || Next(db, Op.Clear, at).0 == db
  {
    CommitsClear(db, at);
    hide Inv, Expire, Next;
  }

  lemma StartMessages(db: Tables, op: Op, at: Tick, i: Id)
    requires Inv(db) && op.Start? && i in db.messages
    ensures var after := Next(db, op, at).0; i in after.messages && after.messages[i] == db.messages[i]
  {
    hide Inv, Next, Expire, StartTurn, Dead, ActiveKnown, Finishable, Issued;
    CommitsStart(db, op, at);
    ExpireKeepsInv(db, None, at);
    ExpiryCases(db, None, at);
    InvParts(Expire(db, None, at));
    StartAdds(Expire(db, None, at), op, at.now);
  }

  lemma ResetMessages(db: Tables, op: Op, at: Tick, i: Id)
    requires Inv(db) && op.Reset? && i in db.messages && db.messages[i].conversation in db.conversations
    requires !Erases(op, Next(db, op, at).1, db.conversations[db.messages[i].conversation].user)
    ensures var after := Next(db, op, at).0; i in after.messages && after.messages[i] == db.messages[i]
  {
    hide Inv, Next, Expire, ResetConversation, Dead, ActiveKnown, Finishable, Issued, Owned, Counted, Unique, Paired, Receipts, OnePending, PendingAtTail;
    CommitsReset(db, op.user, op.conversation, at);
    var expired := Expire(db, Some(op.user), at);
    if op.user == db.conversations[db.messages[i].conversation].user {
      ResetAnswers(expired, op.user, op.conversation);
    } else {
      InvParts(db);
      ExpiryOnlyAdds(db, Some(op.user), at);
      OtherReset(db, expired, op.user, op.conversation, i);
    }
  }

  lemma ExpiryOnlyAdds(db: Tables, who: Option<User>, at: Tick)
    requires Inv(db)
    ensures Finishable(db) && OnlyAdds(db, Expire(db, who, at))
  {
    hide Inv, Dead, Expire;
    ExpiryCases(db, who, at);
  }

  lemma OtherReset(db: Tables, expired: Tables, user: User, conversation: Option<Id>, i: Id)
    requires OnlyAdds(db, expired) && ActiveKnown(expired) && Owned(db)
    requires i in db.messages && db.messages[i].conversation in db.conversations && user != db.conversations[db.messages[i].conversation].user
    ensures var after := ResetConversation(expired, user, conversation).0; i in after.messages && after.messages[i] == db.messages[i]
  {
    hide ResetConversation, Owned, PendingTurn, ActiveKnown;
    ResetErasesOrNothing(expired, user, conversation);
    if user in db.active {
      OtherConversation(db, user, db.messages[i].conversation);
      KnownAt(expired, user);
    }
  }

  lemma ResetAnswers(db: Tables, user: User, conversation: Option<Id>)
    requires ActiveKnown(db)
    ensures ResetConversation(db, user, conversation).1.Refused? || ResetConversation(db, user, conversation).1.Cleared?
  {
  }

  lemma OtherConversation(db: Tables, user: User, c: Id)
    requires Owned(db) && c in db.conversations && user != db.conversations[c].user && user in db.active
    ensures db.active[user] != c
  {
  }

  lemma {:induction false} PosedStays(db: Tables, after: Tables, q: Id, c: Id, turn: TurnId, text: string)
    requires Posed(db, q, c, turn, text) && Stays(db, after, q)
    ensures Posed(after, q, c, turn, text)
  {
  }

  lemma RepliedStays(db: Tables, after: Tables, a: Id, c: Id, turn: TurnId, response: Response, status: TurnStatus)
    requires Replied(db, a, c, turn, response, status) && Stays(db, after, a)
    ensures Replied(after, a, c, turn, response, status)
  {
  }

  /** A closed turn stays closed while its receipt and the messages of its conversation stay. */
  lemma {:induction false} ClosedStays(db: Tables, after: Tables, k: TurnKey, text: string, response: Response, http: nat, status: TurnStatus)
    requires Closed(db, k, text, response, http, status) && k in after.turns && after.turns[k] == db.turns[k]
    requires forall i :: InConversation(db, i, db.turns[k].conversation) ==> Stays(db, after, i)
    ensures Closed(after, k, text, response, http, status)
  {
    hide Stays;
    var c, ids := db.turns[k].conversation, db.turns[k].response.value.ids.value;
    assert Posed(db, ids.user, c, k.turn, text) && Replied(db, ids.assistant, c, k.turn, response, status);
    PosedStays(db, after, ids.user, c, k.turn, text);
    RepliedStays(db, after, ids.assistant, c, k.turn, response, status);
  }

  lemma {:induction false} WaitingStays(db: Tables, after: Tables, k: TurnKey, text: string, beat: Stamp, later: Stamp)
    requires Waiting(db, k, text, beat) && k in after.turns
    requires after.turns[k] == db.turns[k].(heartbeatAt := later, cancelRequested := after.turns[k].cancelRequested)
    requires forall i :: InConversation(db, i, db.turns[k].conversation) ==> Stays(db, after, i)
    ensures Waiting(after, k, text, later)
  {
    hide Stays;
    var q :| Posed(db, q, db.turns[k].conversation, k.turn, text);
    PosedStays(db, after, q, db.turns[k].conversation, k.turn, text);
  }

  /** What one request can do to a pending turn: finish it; fail it, when it is late; or leave it pending,
      with a new sign of life when the request is its heartbeat. */
  ghost predicate Steps(db: Tables, next: Tables, op: Op, at: Tick, k: TurnKey, text: string) {
    && k in db.turns && k in next.turns
    && next.turns[k].conversation == db.turns[k].conversation && next.turns[k].sha == db.turns[k].sha
    && if Finishes(op, k) then Closed(next, k, text, op.response, op.http, op.status)
       else
         || Waiting(next, k, text, if Beats(op, k) then at.now else db.turns[k].heartbeatAt)
         || (Sweeps(op, k.user) && Late(db.turns[k], at) && Closed(next, k, text, INTERRUPTED, 500, Failed))
  }

  lemma {:induction false} SameSteps(db: Tables, op: Op, at: Tick, k: TurnKey, text: string)
    requires Unanswered(db, k, text) && !Finishes(op, k) && !Beats(op, k)
    ensures Steps(db, db, op, at, k, text)
  {
  }

  lemma {:induction false} SweptSteps(db: Tables, who: Option<User>, op: Op, at: Tick, k: TurnKey, text: string)
    requires Inv(db) && Unanswered(db, k, text) && Dead(db, k, who, at) && Sweeps(op, k.user)
    requires !Finishes(op, k) && !Beats(op, k)
    ensures Finishable(db) && Steps(db, Expire(db, who, at), op, at, k, text)
  {
    hide Inv, Expire, Posed, Closed;
    DeadIsFinished(db, who, at, k);
    var q :| Posed(db, q, db.turns[k].conversation, k.turn, text);
  }

  /** Expiry on behalf of `who`, as a request of its own. */
  lemma {:induction false} ReadSteps(db: Tables, op: Op, at: Tick, k: TurnKey, text: string)
    requires Inv(db) && Unanswered(db, k, text) && op.Read?
    ensures Finishable(db) && Steps(db, Expire(db, Some(op.user), at), op, at, k, text)
  {
    hide Inv, Expire, Steps, Waiting;
    if Dead(db, k, Some(op.user), at) {
      SweptSteps(db, Some(op.user), op, at, k, text);
    } else {
      AliveStays(db, Some(op.user), at, k);
      SameSteps(db, op, at, k, text);
    }
  }

  lemma {:induction false} StartSteps(db: Tables, op: Op, at: Tick, k: TurnKey, text: string)
    requires Inv(db) && Unanswered(db, k, text) && op.Start?
    ensures Steps(db, Next(db, op, at).0, op, at, k, text)
  {
    hide Inv, Next, Expire, Steps, Waiting, StartTurn, ActiveKnown, Finishable, Late, Issued;
    CommitsStart(db, op, at);
    SameSteps(db, op, at, k, text);
    if Dead(db, k, None, at) {
      var expired := Expire(db, None, at);
      SweptSteps(db, None, op, at, k, text);
      DeadIsFinished(db, None, at, k);
      ExpireKeepsInv(db, None, at);
      InvParts(expired);
      StartAdds(expired, op, at.now);
      if !StartTurn(expired, op, at.now).1.Refused? {
        SteppedStays(db, expired, StartTurn(expired, op, at.now).0, op, at, k, text);
      }
    } else {
      AliveStays(db, None, at, k);
      BusyRefuses(db, op, at.now, k);
    }
  }

  lemma {:induction false} SteppedStays(db: Tables, mid: Tables, after: Tables, op: Op, at: Tick, k: TurnKey, text: string)
    requires Steps(db, mid, op, at, k, text) && !Finishes(op, k) && !PendingTurn(mid, k)
    requires k in after.turns && after.turns[k] == mid.turns[k]
    requires forall i :: i in mid.messages ==> i in after.messages && after.messages[i] == mid.messages[i]
    ensures Steps(db, after, op, at, k, text)
  {
    hide Closed;
    ClosedStays(mid, after, k, text, INTERRUPTED, 500, Failed);
  }

  lemma {:induction false} ResetSteps(db: Tables, op: Op, at: Tick, k: TurnKey, text: string)
    requires Inv(db) && Unanswered(db, k, text) && op.Reset?
    requires !Erases(op, Next(db, op, at).1, k.user)
    ensures Steps(db, Next(db, op, at).0, op, at, k, text)
  {
    hide Inv, Next, Expire, Steps, Waiting, ResetConversation, ActiveKnown, Finishable, Late;
    CommitsReset(db, op.user, op.conversation, at);
    SameSteps(db, op, at, k, text);
    ResetAnswers(Expire(db, Some(op.user), at), op.user, op.conversation);
    if op.user != k.user {
      AliveStays(db, Some(op.user), at, k);
      OtherResetSteps(db, op, at, k, text);
    }
  }

  lemma {:induction false} OtherResetSteps(db: Tables, op: Op, at: Tick, k: TurnKey, text: string)
    requires Inv(db) && ActiveKnown(db) && Unanswered(db, k, text) && op.Reset? && op.user != k.user
    ensures Steps(db, ResetConversation(db, op.user, op.conversation).0, op, at, k, text)
  {
    var after := ResetConversation(db, op.user, op.conversation).0;
    hide Inv, Steps, Waiting, ResetConversation, ActiveKnown;
    SameSteps(db, op, at, k, text);
    OwnConversation(db, op.user, k);
    ResetErasesOrNothing(db, op.user, op.conversation);
    if after != db {
      WaitingStays(db, after, k, text, db.turns[k].heartbeatAt, db.turns[k].heartbeatAt);
      WaitingSteps(db, after, op, at, k, text);
    }
  }

  lemma {:induction false} WaitingSteps(db: Tables, after: Tables, op: Op, at: Tick, k: TurnKey, text: string)
    requires PendingTurn(db, k) && !Finishes(op, k) && k in after.turns
    requires after.turns[k].conversation == db.turns[k].conversation && after.turns[k].sha == db.turns[k].sha
    requires Waiting(after, k, text, if Beats(op, k) then at.now else db.turns[k].heartbeatAt)
    ensures Steps(db, after, op, at, k, text)
  {
  }

  lemma {:induction false} BeatSteps(db: Tables, op: Op, at: Tick, k: TurnKey, text: string)
    requires Inv(db) && Unanswered(db, k, text) && op.Heartbeat?
    ensures Steps(db, Beat(db, TurnKey(op.user, op.turn), at.now).0, op, at, k, text)
  {
    var l := TurnKey(op.user, op.turn);
    var after := Beat(db, l, at.now).0;
    assert OnePending(db);
    hide Inv, Steps, Waiting;
    if l == k {
      WaitingStays(db, after, k, text, db.turns[k].heartbeatAt, at.now);
      WaitingSteps(db, after, op, at, k, text);
    } else {
      assert !PendingTurn(db, l);
      SameSteps(db, op, at, k, text);
    }
  }

  lemma {:induction false} CancelSteps(db: Tables, op: Op, at: Tick, k: TurnKey, text: string)
    requires Inv(db) && Unanswered(db, k, text) && op.Cancel?
    ensures Steps(db, RequestCancel(db, TurnKey(op.user, op.turn)), op, at, k, text)
  {
    var after := RequestCancel(db, TurnKey(op.user, op.turn));
    hide Inv, Steps, Waiting;
    WaitingStays(db, after, k, text, db.turns[k].heartbeatAt, db.turns[k].heartbeatAt);
    WaitingSteps(db, after, op, at, k, text);
  }

  lemma {:induction false} ProposalSteps(db: Tables, op: Op, at: Tick, k: TurnKey, text: string)
    requires Inv(db) && MessagesKnown(db) && Unanswered(db, k, text) && op.UpdateProposal?
    requires forall i :: i in db.messages ==> Stays(db, SetProposal(db, op.user, op.message, op.proposal).0, i)
    ensures Steps(db, SetProposal(db, op.user, op.message, op.proposal).0, op, at, k, text)
  {
    var after := SetProposal(db, op.user, op.message, op.proposal).0;
    assert after.turns == db.turns;
    hide Inv, Steps, Waiting, SetProposal, Stays, MessagesKnown;
    WaitingStays(db, after, k, text, db.turns[k].heartbeatAt, db.turns[k].heartbeatAt);
    WaitingSteps(db, after, op, at, k, text);
  }

  lemma ProposalKeepsMessages(db: Tables, user: User, message: Id, proposal: Proposal)
    requires MessagesKnown(db)
    ensures forall i :: i in db.messages ==> Stays(db, SetProposal(db, user, message, proposal).0, i)
  {
  }

  lemma {:induction false} FinishSteps(db: Tables, op: Op, at: Tick, k: TurnKey, text: string)
    requires Inv(db) && Finishable(db) && Unanswered(db, k, text) && op.Finish?
    ensures Steps(db, FinishTurn(db, TurnKey(op.user, op.turn), op.response, op.http, op.status, at.now), op, at, k, text)
  {
    var l := TurnKey(op.user, op.turn);
    assert OnePending(db);
    hide Inv, Finishable, FinishTurn, Posed;
    if l == k {
      FinishedOnly(db, k, op.response, op.http, op.status, at.now);
      FinishCloses(db, k, text, op.response, op.http, op.status, at.now);
    } else {
      assert !PendingTurn(db, l);
      UnpendingFinishesNothing(db, l, op.response, op.http, op.status, at.now);
      SameSteps(db, op, at, k, text);
    }
  }

  /** One request and one pending turn. */
  lemma {:induction false} PendingStep(db: Tables, op: Op, at: Tick, k: TurnKey, text: string)
    requires Inv(db) && Unanswered(db, k, text) && !Wiped(op, Next(db, op, at).1) && !Erases(op, Next(db, op, at).1, k.user)
    ensures Steps(db, Next(db, op, at).0, op, at, k, text)
  {
    hide Inv, Finishable, ActiveKnown, MessagesKnown, Expire, StartTurn, FinishTurn, ResetConversation, SetProposal, ClearWorkspace, Beat, RequestCancel,
      Commit, Steps, Waiting;
    AlwaysFinishable(db);
    KnownActive(db);
    match op
    case Start(_, _, _, _, _) => StartSteps(db, op, at, k, text);
    case Finish(_, _, _, _, _) => FinishSteps(db, op, at, k, text);
    case Heartbeat(_, _) => BeatSteps(db, op, at, k, text);
    case Cancel(_, _) => CancelSteps(db, op, at, k, text);
    case Reset(_, _) => ResetSteps(db, op, at, k, text);
    case UpdateProposal(user, message, proposal) =>
      ProposalKeepsMessages(db, user, message, proposal);
      ProposalSteps(db, op, at, k, text);
    case Clear =>
      ClearsOrRefuses(db, at);
      SameSteps(db, op, at, k, text);
    case Read(_) => ReadSteps(db, op, at, k, text);
  }

  /** No request but its own `finish` ends a turn that is not late. */
  lemma AliveStep(db: Tables, op: Op, at: Tick, k: TurnKey)
    requires Inv(db) && PendingTurn(db, k) && !Late(db.turns[k], at) && !Finishes(op, k)
    ensures !Wiped(op, Next(db, op, at).1) && !Erases(op, Next(db, op, at).1, k.user)
  {
    hide Inv, Late, Expire;
    if op.Clear? {
      CommitsClear(db, at);
      AliveStays(db, None, at, k);
    } else if op.Reset? && op.user == k.user {
      CommitsReset(db, op.user, op.conversation, at);
      AliveStays(db, Some(op.user), at, k);
      OwnConversation(db, op.user, k);
      SomethingErased(db, k);
    }
  }

  /** A start that is told to run leaves its turn pending, under the hash and with the text it was given. */
  lemma StartOpens(db: Tables, op: Op, at: Tick, k: TurnKey)
    requires Inv(db) && Starts(op, Next(db, op, at).1, k)
    ensures var (after, answer) := Next(db, op, at);
      && k in after.turns && after.turns[k].conversation == answer.conversation && after.turns[k].sha == op.sha
      && Waiting(after, k, op.text, at.now)
  {
    hide Inv, Next, Expire, StartTurn, Finishable, ActiveKnown, Waiting, Issued, Owned, Counted, Unique, Paired, Receipts, OnePending, PendingAtTail;
    CommitsStart(db, op, at);
    ExpireKeepsInv(db, None, at);
    InvParts(Expire(db, None, at));
    OpensTurn(Expire(db, None, at), op, at.now, k);
  }

  lemma OpensTurn(db: Tables, op: Op, now: Stamp, k: TurnKey)
    requires Issued(db) && ActiveKnown(db) && op.Start? && Starts(op, StartTurn(db, op, now).1, k)
    ensures var (after, answer) := StartTurn(db, op, now);
      && k in after.turns && after.turns[k].conversation == answer.conversation && after.turns[k].sha == op.sha
      && Waiting(after, k, op.text, now)
  {
    var (after, answer) := StartTurn(db, op, now);
    var q := after.nextId - 1;
    assert Posed(after, q, answer.conversation, k.turn, op.text);
  }

  // ----- runs ------------------------------------------------------------------------------------

  /** Request `n` ended the turn that request `i` started, and the tables hold that outcome: the response
      of the first `finish`, or the interruption when a request swept the turn in silence. */
  ghost predicate EndedBy(db: Tables, run: seq<Event>, i: nat, n: nat, k: TurnKey)
    requires i < |run| && run[i].op.Start?
  {
    && i < n < |run| && Unfinished(run, i, n, k)
    && if Finishes(run[n].op, k) then Closed(db, k, run[i].op.text, run[n].op.response, run[n].op.http, run[n].op.status)
       else Sweeps(run[n].op, k.user) && Silent(run, i, n, k) && Closed(db, k, run[i].op.text, INTERRUPTED, 500, Failed)
  }

  ghost predicate Ended(db: Tables, run: seq<Event>, i: nat, j: nat, k: TurnKey)
    requires i < |run| && run[i].op.Start?
  {
    exists n: nat :: n < j && EndedBy(db, run, i, n, k)
  }

  /** Where the turn that request `i` started is before request `j`. */
  ghost predicate Life(db: Tables, run: seq<Event>, i: nat, j: nat, k: TurnKey, c: Id)
    requires i < j <= |run| && run[i].op.Start?
  {
    && k in db.turns && db.turns[k].conversation == c && db.turns[k].sha == run[i].op.sha
    && if PendingTurn(db, k) then Unfinished(run, i, j, k) && Waiting(db, k, run[i].op.text, LastBeat(run, i, j, k))
       else Ended(db, run, i, j, k)
  }

  lemma {:induction false} LifeStep(db: Tables, run: seq<Event>, i: nat, j: nat, k: TurnKey, c: Id)
    requires Inv(db) && i < j < |run| && run[i].op.Start? && Life(db, run, i, j, k, c)
    requires var answer := Next(db, run[j].op, run[j].at).1; !Wiped(run[j].op, answer) && !Erases(run[j].op, answer, k.user)
    ensures Life(Next(db, run[j].op, run[j].at).0, run, i, j + 1, k, c)
  {
    hide Inv, Next, Waiting, EndedBy, Wiped, Erases, Unfinished, LastBeat, Steps;
    var op, at, text := run[j].op, run[j].at, run[i].op.text;
    var next := Next(db, op, at).0;
    if PendingTurn(db, k) {
      WaitingIsUnanswered(db, k, text, LastBeat(run, i, j, k));
      PendingStep(db, op, at, k, text);
      PendingLife(db, next, run, i, j, k, c);
    } else {
      SettledStep(db, op, at, k);
      var n: nat :| n < j && EndedBy(db, run, i, n, k);
      EndedStays(db, next, run, i, n, k);
    }
  }

  lemma {:induction false} OneMoreRequest(run: seq<Event>, i: nat, j: nat, k: TurnKey)
    requires i < j < |run|
    ensures LastBeat(run, i, j + 1, k) == if Beats(run[j].op, k) then run[j].at.now else LastBeat(run, i, j, k)
    ensures Unfinished(run, i, j + 1, k) <==> Unfinished(run, i, j, k) && !Finishes(run[j].op, k)
    ensures InTime(run, i, j + 1, k) <==> InTime(run, i, j, k) && !Silent(run, i, j, k)
  {
    hide Micros, Valid, Silent, Finishes, Beats;
  }

  lemma {:induction false} WaitingIsUnanswered(db: Tables, k: TurnKey, text: string, beat: Stamp)
    requires Waiting(db, k, text, beat)
    ensures Unanswered(db, k, text) && db.turns[k].heartbeatAt == beat
  {
  }

  lemma {:induction false} PendingLife(db: Tables, next: Tables, run: seq<Event>, i: nat, j: nat, k: TurnKey, c: Id)
    requires i < j < |run| && run[i].op.Start? && Life(db, run, i, j, k, c) && PendingTurn(db, k)
    requires db.turns[k].heartbeatAt == LastBeat(run, i, j, k) && Steps(db, next, run[j].op, run[j].at, k, run[i].op.text)
    ensures Life(next, run, i, j + 1, k, c)
  {
    hide Posed, Replied, LastBeat, Unfinished;
    OneMoreRequest(run, i, j, k);
    if Finishes(run[j].op, k) || !PendingTurn(next, k) {
      assert EndedBy(next, run, i, j, k);
    }
  }

  /** A turn that is no longer pending keeps its receipt, and its messages. */
  lemma SettledStep(db: Tables, op: Op, at: Tick, k: TurnKey)
    requires Inv(db) && k in db.turns && db.turns[k].status != Pending
    requires !Wiped(op, Next(db, op, at).1) && !Erases(op, Next(db, op, at).1, k.user)
    ensures var next := Next(db, op, at).0;
      && k in next.turns && next.turns[k] == db.turns[k]
      && forall i :: InConversation(db, i, db.turns[k].conversation) ==> Stays(db, next, i)
  {
    OwnerOfTurn(db, k);
    hide Inv, Next, Stays, Wiped, Erases;
    StepKeeps(db, op, at, k);
    forall i | InConversation(db, i, db.turns[k].conversation)
      ensures Stays(db, Next(db, op, at).0, i)
    {
      MessageStays(db, op, at, i);
    }
  }

  lemma OwnerOfTurn(db: Tables, k: TurnKey)
    requires Inv(db) && k in db.turns
    ensures db.turns[k].conversation in db.conversations && db.conversations[db.turns[k].conversation].user == k.user
  {
  }

  lemma {:induction false} EndedStays(db: Tables, next: Tables, run: seq<Event>, i: nat, n: nat, k: TurnKey)
    requires i < |run| && run[i].op.Start? && EndedBy(db, run, i, n, k) && k in db.turns && k in next.turns && next.turns[k] == db.turns[k]
    requires forall m :: InConversation(db, m, db.turns[k].conversation) ==> Stays(db, next, m)
    ensures EndedBy(next, run, i, n, k)
  {
    hide Closed, Stays;
    if Finishes(run[n].op, k) {
      ClosedStays(db, next, k, run[i].op.text, run[n].op.response, run[n].op.http, run[n].op.status);
    } else {
      ClosedStays(db, next, k, run[i].op.text, INTERRUPTED, 500, Failed);
    }
  }

  /** No clear, and no reset by this user, between requests `i` and `j`. */
  ghost predicate Undisturbed(db: Tables, run: seq<Event>, i: nat, j: nat, user: User)
    requires Inv(db) && i <= j <= |run|
  {
    NoClear(db, run, i, j) && NoReset(db, run, i, j, user)
  }

  lemma {:induction false} OneMoreUndisturbed(db: Tables, run: seq<Event>, i: nat, j: nat, user: User)
    requires Inv(db) && i <= j < |run|
    ensures var answer := Answer(db, run, j);
      Undisturbed(db, run, i, j + 1, user) <==> Undisturbed(db, run, i, j, user) && !Wiped(run[j].op, answer) && !Erases(run[j].op, answer, user)
  {
    hide Inv, Answer, Wiped, Erases;
  }

  /** The life of a turn: until the workspace is cleared or its user resets, the tables hold the turn as
      it was asked, and either it is pending, not finished, with the last sign of life it gave; or it is
      closed with the outcome of what ended it. */
  lemma {:induction false} TurnLife(db: Tables, run: seq<Event>, i: nat, j: nat, k: TurnKey)
    requires Inv(db) && i < j <= |run| && Starts(run[i].op, Answer(db, run, i), k) && Undisturbed(db, run, i, j, k.user)
    ensures Life(After(db, run[..j]), run, i, j, k, Answer(db, run, i).conversation)
    decreases j
  {
    hide Micros, Valid, Inv, Next, After, Wiped, Erases, Life, Undisturbed, Answer, Starts, Waiting;
    StartsIsStart(run[i].op, Answer(db, run, i), k);
    Served(db, run, j - 1);
    OneMoreUndisturbed(db, run, i, j - 1, k.user);
    var before, c := After(db, run[..j - 1]), Answer(db, run, i).conversation;
    if j - 1 == i {
      StartOpens(before, run[i].op, run[i].at, k);
      OpenLife(After(db, run[..j]), run, i, k, c);
    } else {
      TurnLife(db, run, i, j - 1, k);
      LifeStep(before, run, i, j - 1, k, c);
    }
  }

  lemma StartsIsStart(op: Op, answer: Outcome, k: TurnKey)
    requires Starts(op, answer, k)
    ensures op.Start? && answer.Run?
  {
  }

  /** Request `n` of the run. */
  lemma {:induction false} Served(db: Tables, run: seq<Event>, n: nat)
    requires Inv(db) && n < |run|
    ensures var before := After(db, run[..n]);
      && Inv(before) && Answer(db, run, n) == Next(before, run[n].op, run[n].at).1
      && After(db, run[..n + 1]) == Next(before, run[n].op, run[n].at).0
  {
    hide Inv, Next, After;
    AfterStep(db, run, n);
  }

  lemma {:induction false} OpenLife(db: Tables, run: seq<Event>, i: nat, k: TurnKey, c: Id)
    requires i < |run| && run[i].op.Start? && Waiting(db, k, run[i].op.text, run[i].at.now)
    requires db.turns[k].conversation == c && db.turns[k].sha == run[i].op.sha
    ensures Life(db, run, i, i + 1, k, c)
  {
  }

  /** The turn is pending, under the hash it was started with, and with the last sign of life it gave. */
  ghost predicate Running(db: Tables, run: seq<Event>, i: nat, j: nat, k: TurnKey)
    requires i < j <= |run| && run[i].op.Start?
  {
    PendingTurn(db, k) && db.turns[k].sha == run[i].op.sha && db.turns[k].heartbeatAt == LastBeat(run, i, j, k)
  }

  /** Heartbeats keep a turn alive: as long as no request comes more than 120 seconds after the turn's
      start or its last heartbeat, it stays pending until its own `finish`, whatever else is asked. */
  lemma {:induction false} HeartbeatsKeepAlive(db: Tables, run: seq<Event>, i: nat, j: nat, k: TurnKey)
    requires Inv(db) && i < j <= |run| && Starts(run[i].op, Answer(db, run, i), k)
    requires Unfinished(run, i, j, k) && InTime(run, i, j, k)
    ensures Undisturbed(db, run, i, j, k.user) && Running(After(db, run[..j]), run, i, j, k)
    decreases j
  {
    hide Micros, Valid, Inv, Next, After, Life, Undisturbed, Running, Unfinished, InTime, Answer, Starts, Wiped, Erases, Silent, Finishes, LastBeat;
    StartsIsStart(run[i].op, Answer(db, run, i), k);
    if j - 1 == i {
      NothingYet(db, run, i, k);
    } else {
      OneMoreRequest(run, i, j - 1, k);
      HeartbeatsKeepAlive(db, run, i, j - 1, k);
      Served(db, run, j - 1);
      AliveAt(After(db, run[..j - 1]), run, i, j - 1, k);
    }
    OneMoreUndisturbed(db, run, i, j - 1, k.user);
    TurnLife(db, run, i, j, k);
    StillOpen(After(db, run[..j]), run, i, j, k, Answer(db, run, i).conversation);
  }

  lemma {:induction false} NothingYet(db: Tables, run: seq<Event>, i: nat, k: TurnKey)
    requires Inv(db) && i < |run| && Starts(run[i].op, Answer(db, run, i), k)
    ensures Undisturbed(db, run, i, i, k.user)
    ensures !Wiped(run[i].op, Answer(db, run, i)) && !Erases(run[i].op, Answer(db, run, i), k.user)
  {
    hide Inv, Answer;
  }

  lemma {:induction false} AliveAt(db: Tables, run: seq<Event>, i: nat, n: nat, k: TurnKey)
    requires Inv(db) && i < n < |run| && run[i].op.Start? && Running(db, run, i, n, k) && !Silent(run, i, n, k) && !Finishes(run[n].op, k)
    ensures var answer := Next(db, run[n].op, run[n].at).1; !Wiped(run[n].op, answer) && !Erases(run[n].op, answer, k.user)
  {
    hide Inv, Next, Wiped, Erases, LastBeat;
    AliveStep(db, run[n].op, run[n].at, k);
  }

  /** Nothing has ended the turn. */
  lemma {:induction false} StillOpen(db: Tables, run: seq<Event>, i: nat, j: nat, k: TurnKey, c: Id)
    requires i < j <= |run| && run[i].op.Start? && Life(db, run, i, j, k, c) && Unfinished(run, i, j, k) && InTime(run, i, j, k)
    ensures Running(db, run, i, j, k)
  {
    hide Closed, Posed, LastBeat;
  }

  // ----- what the requests of a turn are answered -------------------------------------------------

  /** A start of a turn that has a receipt: the hash decides first; then the turn is pending and alive, or
      its stored outcome is replayed. */
  lemma RepeatIsDecided(db: Tables, op: Op, at: Tick, k: TurnKey)
    requires Inv(db) && k in db.turns && op.Start? && TurnKey(op.user, op.turn) == k
    ensures var (next, answer) := Next(db, op, at); var t := db.turns[k];
      if op.sha != t.sha then answer == Refused(TurnConflict)
      else if PendingTurn(db, k) && !Late(t, at) then answer == Refused(TurnPending)
      else
        && k in next.turns && !PendingTurn(next, k) && next.turns[k].response.Some?
        && answer == Replay(next.turns[k].conversation, next.turns[k].response.value, next.turns[k].http)
  {
    hide Inv, Next, Expire, StartTurn, Finishable, ActiveKnown, Issued, Owned, Counted, Unique, Paired, Receipts, OnePending, PendingAtTail, Late;
    CommitsStart(db, op, at);
    ExpireKeepsInv(db, None, at);
    var expired := Expire(db, None, at);
    if PendingTurn(db, k) {
      if Late(db.turns[k], at) {
        DeadIsFinished(db, None, at, k);
      } else {
        AliveStays(db, None, at, k);
      }
    } else {
      ExpireKeeps(db, None, at, k);
    }
    InvParts(expired);
    RepeatAnswers(expired, op, at.now, k);
  }

  lemma RepeatAnswers(db: Tables, op: Op, now: Stamp, k: TurnKey)
    requires Receipts(db) && ActiveKnown(db) && k in db.turns && op.Start? && TurnKey(op.user, op.turn) == k
    ensures var (after, answer) := StartTurn(db, op, now); var t := db.turns[k];
      && after == db
      && if op.sha != t.sha then answer == Refused(TurnConflict)
         else if t.status == Pending then answer == Refused(TurnPending)
         else t.response.Some? && answer == Replay(t.conversation, t.response.value, t.http)
  {
  }

  /** The answer replays what request `n` ended the turn with. */
  ghost predicate ReplaysEnd(run: seq<Event>, i: nat, n: nat, k: TurnKey, c: Id, answer: Outcome)
    requires i < |run|
  {
    && i < n < |run| && Unfinished(run, i, n, k) && answer.Replay? && answer.conversation == c && answer.response.ids.Some?
    && if Finishes(run[n].op, k) then answer.response == run[n].op.response.(ids := answer.response.ids) && answer.http == run[n].op.http
       else Sweeps(run[n].op, k.user) && Silent(run, i, n, k) && answer.response == INTERRUPTED.(ids := answer.response.ids) && answer.http == 500
  }

  /** A turn that was told to run is started again: another hash is a conflict; under its own hash the
      turn is refused while it is pending, and otherwise answered with what ended it, the first `finish`
      or the interruption. */
  lemma {:induction false} RepeatedStart(db: Tables, run: seq<Event>, i: nat, j: nat, k: TurnKey)
    requires Inv(db) && i < j < |run| && Starts(run[i].op, Answer(db, run, i), k) && Undisturbed(db, run, i, j, k.user)
    requires run[j].op.Start? && TurnKey(run[j].op.user, run[j].op.turn) == k
    ensures var answer := Answer(db, run, j);
      if run[j].op.sha != run[i].op.sha then answer == Refused(TurnConflict)
      else if answer == Refused(TurnPending) then Unfinished(run, i, j, k) && !Silent(run, i, j, k)
      else exists n: nat :: n <= j && ReplaysEnd(run, i, n, k, Answer(db, run, i).conversation, answer)
  {
    hide Micros, Valid, Inv, Next, After, Life, Undisturbed, Answer, Starts, LastBeat, Wiped, Erases;
    StartsIsStart(run[i].op, Answer(db, run, i), k);
    Served(db, run, j);
    TurnLife(db, run, i, j, k);
    var before, c := After(db, run[..j]), Answer(db, run, i).conversation;
    RepeatAt(before, run, i, j, k, c);
  }

  lemma {:induction false} RepeatAt(db: Tables, run: seq<Event>, i: nat, j: nat, k: TurnKey, c: Id)
    requires Inv(db) && i < j < |run| && run[i].op.Start? && Life(db, run, i, j, k, c)
    requires run[j].op.Start? && TurnKey(run[j].op.user, run[j].op.turn) == k
    ensures var answer := Next(db, run[j].op, run[j].at).1;
      if run[j].op.sha != run[i].op.sha then answer == Refused(TurnConflict)
      else if answer == Refused(TurnPending) then Unfinished(run, i, j, k) && !Silent(run, i, j, k)
      else exists n: nat :: n <= j && ReplaysEnd(run, i, n, k, c, answer)
  {
    hide Inv, Next, LastBeat, Posed, Replied, Unfinished;
    var (next, answer) := Next(db, run[j].op, run[j].at);
    RepeatIsDecided(db, run[j].op, run[j].at, k);
    if run[j].op.sha == run[i].op.sha && answer != Refused(TurnPending) {
      LifeStep(db, run, i, j, k, c);
      var n: nat :| n < j + 1 && EndedBy(next, run, i, n, k);
      assert ReplaysEnd(run, i, n, k, c, answer);
    }
  }

  /** What was finished in time is what every repetition is answered, for good. */
  lemma {:induction false} FinishedIsReplayed(db: Tables, run: seq<Event>, i: nat, n: nat, j: nat, k: TurnKey)
    requires Inv(db) && i < n < j < |run| && Starts(run[i].op, Answer(db, run, i), k) && Undisturbed(db, run, i, j, k.user)
    requires Finishes(run[n].op, k) && Unfinished(run, i, n, k) && InTime(run, i, n, k)
    requires run[j].op.Start? && TurnKey(run[j].op.user, run[j].op.turn) == k && run[j].op.sha == run[i].op.sha
    ensures var answer := Answer(db, run, j);
      && answer.Replay? && answer.conversation == Answer(db, run, i).conversation && answer.http == run[n].op.http
      && answer.response == run[n].op.response.(ids := answer.response.ids)
  {
    hide Micros, Valid, Inv, Answer, Undisturbed, Starts, LastBeat, Silent;
    StartsIsStart(run[i].op, Answer(db, run, i), k);
    RepeatedStart(db, run, i, j, k);
    var c, answer := Answer(db, run, i).conversation, Answer(db, run, j);
    var m: nat :| m <= j && ReplaysEnd(run, i, m, k, c, answer);
  }

  /** While the turn gives signs of life, every start in the workspace is refused or answered from a
      receipt, and its own is told to wait. */
  lemma {:induction false} AliveTurnRefuses(db: Tables, run: seq<Event>, i: nat, j: nat, k: TurnKey)
    requires Inv(db) && i < j < |run| && Starts(run[i].op, Answer(db, run, i), k)
    requires Unfinished(run, i, j, k) && InTime(run, i, j + 1, k) && run[j].op.Start?
    ensures var answer := Answer(db, run, j);
      if TurnKey(run[j].op.user, run[j].op.turn) == k then
        answer == Refused(if run[j].op.sha == run[i].op.sha then TurnPending else TurnConflict)
      else answer.Refused? || answer.Replay?
    ensures After(db, run[..j + 1]) == After(db, run[..j])
  {
    hide Micros, Valid, Inv, Next, After, Undisturbed, Answer, Starts, LastBeat;
    StartsIsStart(run[i].op, Answer(db, run, i), k);
    Served(db, run, j);
    HeartbeatsKeepAlive(db, run, i, j, k);
    assert !Silent(run, i, j, k);
    AliveAnswers(After(db, run[..j]), run[j].op, run[j].at, k);
  }

  lemma AliveAnswers(db: Tables, op: Op, at: Tick, k: TurnKey)
    requires Inv(db) && op.Start? && PendingTurn(db, k) && !Late(db.turns[k], at)
    ensures var (next, answer) := Next(db, op, at);
      && next == db && (answer.Refused? || answer.Replay?)
      && (TurnKey(op.user, op.turn) == k ==> answer == Refused(if op.sha == db.turns[k].sha then TurnPending else TurnConflict))
  {
    hide Inv, Next, Expire, Finishable, ActiveKnown, Late, StartTurn;
    CommitsStart(db, op, at);
    AliveStays(db, None, at, k);
    BusyRefuses(db, op, at.now, k);
    if TurnKey(op.user, op.turn) == k {
      RepeatIsDecided(db, op, at, k);
    }
  }
}
