/** The durable chat tables of one workspace, and what each transaction does to them.
    A table is a map from its primary key to its row.  `uuid4()` is a supply that never repeats:
    `nextId` is the first identifier not handed out yet.  A transaction that raises is rolled back,
    so a refused operation leaves the tables exactly as they were. */
module ChatTables {
  import opened Clock
  import opened Wrappers

  type User = string
  type TurnId = string
  type Id = nat

  datatype TurnStatus = Pending | Completed | Failed | Cancelled
  /** What a turn may end with. */
  type Terminal = s: TurnStatus | s != Pending witness Completed

  datatype Role = FromUser | FromAssistant
  datatype Proposal = NoProposal | ProposalPending | ProposalApplied | ProposalDiscarded

  /** Primary key of `chat_turns` and `chat_cancel_requests` inside the workspace. */
  datatype TurnKey = TurnKey(user: User, turn: TurnId)

  datatype ReplyIds = ReplyIds(assistant: Id, user: Id)

  /** A stored response: the two entries the store looks at, the identifiers it adds, and the rest. */
  datatype Response = Response(assistantMessage: string, previewPending: bool, body: string, ids: Option<ReplyIds>)

  datatype Conversation = Conversation(user: User, revision: nat, resetRevision: nat, sequence: nat)

  datatype Turn = Turn(conversation: Id, sha: string, status: TurnStatus, cancelRequested: bool,
                       response: Option<Response>, http: nat, heartbeatAt: Stamp)

  datatype Message = Message(id: Id, conversation: Id, turn: TurnId, role: Role, content: string,
                             status: TurnStatus, proposal: Proposal, sequence: nat, revision: nat)

  datatype Tables = Tables(conversations: map<Id, Conversation>, active: map<User, Id>,
                           turns: map<TurnKey, Turn>, messages: map<Id, Message>,
                           cancels: set<TurnKey>, nextId: Id)

  const EMPTY := Tables(map[], map[], map[], map[], {}, 0)

  /** One reading of the clock: `now`, and the heartbeat cutoff 120 seconds earlier. */
  datatype Tick_ = Tick(now: Stamp, cutoff: Stamp)
  type Tick = t: Tick_ | Micros(t.cutoff) + 120_000_000 == Micros(t.now)
    witness Tick(DateTime(1970, 1, 1, 0, 2, 0, 0), DateTime(1970, 1, 1, 0, 0, 0, 0))

  datatype Refusal = TurnConflict | TurnPending | ConversationChanged | WorkspaceBusy
                   | ConversationNotFound | MessageNotFound | NoPendingProposal | InvalidStatus

  datatype Op =
    | Start(user: User, turn: TurnId, sha: string, text: string, conversation: Option<Id>)
    | Finish(user: User, turn: TurnId, response: Response, http: nat, status: Terminal)
    | Heartbeat(user: User, turn: TurnId)
    | Cancel(user: User, turn: TurnId)
    | Reset(user: User, conversation: Option<Id>)
    | UpdateProposal(user: User, message: Id, proposal: Proposal)
    | Clear
    | Read(user: User)

  datatype Outcome =
    | Run(conversation: Id)
    | Replay(conversation: Id, response: Response, http: nat)
    | Refused(code: Refusal)
    | Stop(stop: bool)
    | Cleared(erased: Option<Id>)
    | Done

  // ----- queries -------------------------------------------------------------------------------

  ghost predicate PendingTurn(db: Tables, k: TurnKey) {
    k in db.turns && db.turns[k].status == Pending
  }

  ghost predicate InConversation(db: Tables, i: Id, c: Id) {
    i in db.messages && db.messages[i].conversation == c
  }

  ghost predicate UserMessageOf(db: Tables, i: Id, c: Id, turn: TurnId) {
    InConversation(db, i, c) && db.messages[i].turn == turn && db.messages[i].role == FromUser
  }

  ghost predicate HasUserMessage(db: Tables, c: Id, turn: TurnId) {
    exists i :: UserMessageOf(db, i, c, turn)
  }

  /** Pending turns with a heartbeat older than the cutoff: of one user, or of the workspace. */
  ghost predicate Stale(db: Tables, k: TurnKey, who: Option<User>, cutoff: Stamp) {
    PendingTurn(db, k) && Before(db.turns[k].heartbeatAt, cutoff) && (who.Some? ==> k.user == who.value)
  }

  /** The optional conversation the caller names is not the user's active one. */
  ghost predicate Mismatch(db: Tables, user: User, conversation: Option<Id>) {
    conversation.Some? && (user !in db.active || db.active[user] != conversation.value)
  }

  // ----- single writes -------------------------------------------------------------------------

  function Bumped(c: Conversation, message: bool): Conversation {
    c.(revision := c.revision + 1, sequence := if message then c.sequence + 1 else c.sequence)
  }

  ghost function AddMessage(db: Tables, c: Id, turn: TurnId, role: Role, content: string,
                            status: TurnStatus, proposal: Proposal): Tables
    requires c in db.conversations
  {
    var row := Bumped(db.conversations[c], true);
    db.(conversations := db.conversations[c := row],
        messages := db.messages[db.nextId := Message(db.nextId, c, turn, role, content, status, proposal, row.sequence, row.revision)],
        nextId := db.nextId + 1)
  }

  const FAILED_TEXT := "The request failed. Check the saved pipeline before trying again."
  const INTERRUPTED_TEXT := "The request was interrupted. Check the saved pipeline before trying again."
  const CLEARED_TEXT := "This conversation was cleared."

  const INTERRUPTED := Response("", false, INTERRUPTED_TEXT, None)
  const CLEARED := Response(CLEARED_TEXT, false, "", None)

  function ReplyText(r: Response): string {
    if r.assistantMessage == "" then FAILED_TEXT else r.assistantMessage
  }

  function ReplyProposal(r: Response): Proposal {
    if r.previewPending then ProposalPending else NoProposal
  }

  // ----- transactions --------------------------------------------------------------------------

  /** A terminal outcome for a pending turn; nothing at all for any other turn. */
  ghost function FinishTurn(db: Tables, k: TurnKey, response: Response, http: nat, status: Terminal, now: Stamp): Tables
    requires PendingTurn(db, k) ==>
      && db.turns[k].conversation in db.conversations
      && HasUserMessage(db, db.turns[k].conversation, k.turn)
  {
    if !PendingTurn(db, k) then db
    else
      var t := db.turns[k];
      var user := UserMessageId(db, t.conversation, k.turn);
      var reply := response.(ids := Some(ReplyIds(db.nextId, user)));
      var added := AddMessage(db, t.conversation, k.turn, FromAssistant, ReplyText(response), status, ReplyProposal(response));
      added.(turns := db.turns[k := t.(status := status, response := Some(reply), http := http, heartbeatAt := now)])
  }

  ghost function UserMessageId(db: Tables, c: Id, turn: TurnId): (i: Id)
    requires HasUserMessage(db, c, turn)
    ensures UserMessageOf(db, i, c, turn)
  {
    var i :| UserMessageOf(db, i, c, turn); i
  }

  /** Fail every stale pending turn. At most one turn is pending, so there is at most one. */
  ghost function Expire(db: Tables, who: Option<User>, at: Tick): Tables
    requires Finishable(db)
  {
    if exists k :: Stale(db, k, who, at.cutoff) then
      var k :| Stale(db, k, who, at.cutoff);
      FinishTurn(db, k, INTERRUPTED, 500, Failed, at.now)
    else db
  }

  /** What `_finish` relies on: the row it selects with `scalar_one` is there. */
  ghost predicate Finishable(db: Tables) {
    forall k :: PendingTurn(db, k) ==>
      && db.turns[k].conversation in db.conversations
      && HasUserMessage(db, db.turns[k].conversation, k.turn)
  }

  /** The foreign keys the requests follow. */
  ghost predicate ActiveKnown(db: Tables) {
    forall u :: u in db.active ==> db.active[u] in db.conversations
  }

  ghost predicate MessagesKnown(db: Tables) {
    forall i :: i in db.messages ==> db.messages[i].conversation in db.conversations
  }

  ghost function StartTurn(db: Tables, op: Op, now: Stamp): (Tables, Outcome)
    requires op.Start?
    requires ActiveKnown(db)
  {
    var k := TurnKey(op.user, op.turn);
    if k in db.turns then
      var t := db.turns[k];
      if t.sha != op.sha then (db, Refused(TurnConflict))
      else if t.status == Pending then (db, Refused(TurnPending))
      else (db, Replay(t.conversation, if t.response.Some? then t.response.value else CLEARED, t.http))
    else if Mismatch(db, op.user, op.conversation) then (db, Refused(ConversationChanged))
    else if exists p :: PendingTurn(db, p) then (db, Refused(WorkspaceBusy))
    else
      var ready := if op.user in db.active then db else OpenConversation(db, op.user);
      var c := ready.active[op.user];
      var turn := Turn(c, op.sha, Pending, k in db.cancels, None, 0, now);
      (AddMessage(ready.(turns := db.turns[k := turn]), c, op.turn, FromUser, op.text, Completed, NoProposal), Run(c))
  }

  ghost function OpenConversation(db: Tables, user: User): Tables {
    db.(conversations := db.conversations[db.nextId := Conversation(user, 0, 0, 0)],
        active := db.active[user := db.nextId], nextId := db.nextId + 1)
  }

  ghost function ResetConversation(db: Tables, user: User, conversation: Option<Id>): (Tables, Outcome)
    requires ActiveKnown(db)
  {
    if Mismatch(db, user, conversation) then (db, Refused(ConversationNotFound))
    else if user !in db.active then (db, Cleared(None))
    else
      var c := db.active[user];
      if exists k :: PendingTurn(db, k) && db.turns[k].conversation == c then (db, Refused(TurnPending))
      else
        (Erase(db, c), Cleared(Some(c)))
  }

  /** A new reset revision, no messages, and receipts without content. */
  ghost function Erase(db: Tables, c: Id): Tables
    requires c in db.conversations
  {
    var row := Bumped(db.conversations[c], false);
    db.(conversations := db.conversations[c := row.(resetRevision := row.revision)],
        messages := map i | i in db.messages && db.messages[i].conversation != c :: db.messages[i],
        turns := map k | k in db.turns :: if db.turns[k].conversation == c then Erased(db.turns[k]) else db.turns[k])
  }

  /** A receipt whose response content was erased by a reset. */
  function Erased(t: Turn): Turn {
    t.(status := Cancelled, response := Some(CLEARED), http := 409)
  }

  ghost function SetProposal(db: Tables, user: User, message: Id, proposal: Proposal): (Tables, Outcome)
    requires MessagesKnown(db)
  {
    if proposal != ProposalApplied && proposal != ProposalDiscarded then (db, Refused(InvalidStatus))
    else if message !in db.messages || db.conversations[db.messages[message].conversation].user != user then
      (db, Refused(MessageNotFound))
    else
      var m := db.messages[message];
      if m.proposal != ProposalPending && m.proposal != proposal then (db, Refused(NoPendingProposal))
      else
        var row := Bumped(db.conversations[m.conversation], false);
        (db.(conversations := db.conversations[m.conversation := row],
             messages := db.messages[message := m.(proposal := proposal, revision := row.revision)]),
         Done)
  }

  ghost function Beat(db: Tables, k: TurnKey, now: Stamp): (Tables, Outcome) {
    if !PendingTurn(db, k) then (db, Stop(true))
    else (db.(turns := db.turns[k := db.turns[k].(heartbeatAt := now)]), Stop(db.turns[k].cancelRequested))
  }

  ghost function RequestCancel(db: Tables, k: TurnKey): Tables {
    db.(cancels := db.cancels + {k},
        turns := if PendingTurn(db, k) then db.turns[k := db.turns[k].(cancelRequested := true)] else db.turns)
  }

  /** Deleting the conversations cascades to everything but the cancel requests, deleted next. */
  ghost function ClearWorkspace(db: Tables): (Tables, Outcome) {
    if exists k :: PendingTurn(db, k) then (db, Refused(WorkspaceBusy))
    else (EMPTY.(nextId := db.nextId), Done)
  }

  /** A transaction that raises is rolled back, expiry included. */
  ghost function Commit(before: Tables, after: (Tables, Outcome)): (Tables, Outcome) {
    if after.1.Refused? then (before, after.1) else after
  }
}
