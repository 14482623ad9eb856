/** Whole runs of the turn protocol: receipts, cancellations, expiry. */
module ChatRuns {
  import opened Clock
  import opened ChatTables
  import opened ChatInvariant
  import opened Wrappers

  datatype Event = Event(op: Op, at: Tick)

  /** The tables after a run of requests, in whatever order the workers served them. */
  ghost function After(db: Tables, run: seq<Event>): (after: Tables)
    requires Inv(db)
    ensures Inv(after)
    decreases |run|
  {
    if run == [] then db
    else
      var before := After(db, run[..|run| - 1]);
      var last := run[|run| - 1];
      NextKeepsInv(before, last.op, last.at);
      Next(before, last.op, last.at).0
  }

  /** What request `n` of the run answered. */
  ghost function Answer(db: Tables, run: seq<Event>, n: nat): Outcome
    requires Inv(db) && n < |run|
  {
    Next(After(db, run[..n]), run[n].op, run[n].at).1
  }

  /** Every state a fresh workspace can reach satisfies the invariant. */
  lemma {:induction false} Reachable(run: seq<Event>)
    ensures Inv(EMPTY) && Inv(After(EMPTY, run))
  {
  }

  /** A workspace clear that went through. */
  ghost predicate Wiped(op: Op, answer: Outcome) {
    op.Clear? && answer.Done?
  }

  /** A reset of this user's conversation that went through. */
  ghost predicate Erases(op: Op, answer: Outcome, user: User) {
    op.Reset? && op.user == user && answer.Cleared?
  }

  ghost predicate Starts(op: Op, answer: Outcome, k: TurnKey) {
    op.Start? && TurnKey(op.user, op.turn) == k && answer.Run?
  }

  // ----- one step --------------------------------------------------------------------------------

  /** What no transaction but a clear does to a receipt. */
  ghost predicate KeepsReceipt(before: Tables, after: Tables, k: TurnKey) {
    k in before.turns ==>
      && k in after.turns
      && after.turns[k].sha == before.turns[k].sha
      && after.turns[k].conversation == before.turns[k].conversation
  }

  ghost predicate KeepsOutcome(before: Tables, after: Tables, k: TurnKey) {
    k in before.turns && before.turns[k].status != Pending ==> k in after.turns && after.turns[k] == before.turns[k]
  }

  /** Receipts, recorded outcomes and cancel requests all survive. */
  ghost predicate Kept(before: Tables, after: Tables, k: TurnKey) {
    KeepsReceipt(before, after, k) && KeepsOutcome(before, after, k) && before.cancels <= after.cancels
  }

  lemma ExpireKeeps(db: Tables, who: Option<User>, at: Tick, k: TurnKey)
    requires Finishable(db)
    ensures Kept(db, Expire(db, who, at), k)
    ensures Expire(db, who, at).turns.Keys == db.turns.Keys
  {
  }

  lemma StartKeeps(db: Tables, op: Op, now: Stamp, k: TurnKey)
    requires op.Start? && ActiveKnown(db)
    ensures Kept(db, StartTurn(db, op, now).0, k)
    ensures Starts(op, StartTurn(db, op, now).1, k) ==> k !in db.turns && k in StartTurn(db, op, now).0.turns
  {
  }

  lemma ResetKeeps(db: Tables, user: User, conversation: Option<Id>, k: TurnKey)
    requires ActiveKnown(db) && (user in db.active && k in db.turns ==> (db.turns[k].conversation == db.active[user] ==> k.user == user))
    ensures var (after, answer) := ResetConversation(db, user, conversation);
            KeepsReceipt(db, after, k) && after.cancels == db.cancels && (!(answer.Cleared? && k.user == user) ==> Kept(db, after, k))
  {
  }

  /** One transaction: only a clear drops a receipt, and only a reset by its user rewrites an outcome. */
  lemma StepKeeps(db: Tables, op: Op, at: Tick, k: TurnKey)
    requires Inv(db) && !Wiped(op, Next(db, op, at).1)
    ensures var (after, answer) := Next(db, op, at);
            && KeepsReceipt(db, after, k) && db.cancels <= after.cancels
            && (!Erases(op, answer, k.user) ==> KeepsOutcome(db, after, k))
            && (Starts(op, answer, k) ==> k !in db.turns && k in after.turns)
  {
    match op
    case Start(_, _, _, _, _) => StartStepKeeps(db, op, at, k);
    case Reset(_, _) => ResetStepKeeps(db, op, at, k);
    case _ => OtherStepKeeps(db, op, at, k);
  }

  lemma StartStepKeeps(db: Tables, op: Op, at: Tick, k: TurnKey)
    requires Inv(db) && op.Start?
    ensures var (after, answer) := Next(db, op, at);
            Kept(db, after, k) && (Starts(op, answer, k) ==> k !in db.turns && k in after.turns)
  {
    hide Inv, Next, Expire, StartTurn, Finishable, ActiveKnown;
    CommitsStart(db, op, at);
    ExpireKeeps(db, None, at, k);
    StartKeeps(Expire(db, None, at), op, at.now, k);
  }

  lemma ResetStepKeeps(db: Tables, op: Op, at: Tick, k: TurnKey)
    requires Inv(db) && op.Reset?
    ensures var (after, answer) := Next(db, op, at);
            && KeepsReceipt(db, after, k) && db.cancels <= after.cancels
            && (!Erases(op, answer, k.user) ==> KeepsOutcome(db, after, k))
  {
    hide Inv, Next, Expire, ResetConversation, Finishable, ActiveKnown;
    CommitsReset(db, op.user, op.conversation, at);
    ExpireKeepsInv(db, Some(op.user), at);
    var expired := Expire(db, Some(op.user), at);
    ExpireKeeps(db, Some(op.user), at, k);
    OwnConversation(expired, op.user, k);
    ResetKeeps(expired, op.user, op.conversation, k);
  }

  lemma OwnConversation(db: Tables, user: User, k: TurnKey)
    requires Inv(db)
    ensures user in db.active && k in db.turns ==> (db.turns[k].conversation == db.active[user] <==> k.user == user)
  {
  }

  lemma FinishKeeps(db: Tables, op: Op, at: Tick, k: TurnKey)
    requires op.Finish? && Finishable(db)
    ensures Kept(db, FinishTurn(db, TurnKey(op.user, op.turn), op.response, op.http, op.status, at.now), k)
  {
  }

  lemma OtherStepKeeps(db: Tables, op: Op, at: Tick, k: TurnKey)
    requires Inv(db) && !op.Start? && !op.Reset? && !Wiped(op, Next(db, op, at).1)
    ensures Kept(db, Next(db, op, at).0, k)
  {
    hide Inv, Finishable, Expire, MessagesKnown;
    AlwaysFinishable(db);
    KnownActive(db);
    match op
    case Read(user) => ExpireKeeps(db, Some(user), at, k);
    case Finish(_, _, _, _, _) => hide FinishTurn; FinishKeeps(db, op, at, k);
    case _ =>
  }

  // ----- runs ------------------------------------------------------------------------------------

  lemma {:induction false} AfterStep(db: Tables, run: seq<Event>, n: nat)
    requires Inv(db) && n < |run|
    ensures Inv(After(db, run[..n]))
    ensures After(db, run[..n + 1]) == Next(After(db, run[..n]), run[n].op, run[n].at).0
  {
    assert run[..n + 1][..n] == run[..n];
  }

  /** No clear went through while requests `i` to `j - 1` were served. */
  ghost predicate NoClear(db: Tables, run: seq<Event>, i: nat, j: nat)
    requires Inv(db) && i <= j <= |run|
  {
    forall n | i <= n < j :: !Wiped(run[n].op, Answer(db, run, n))
  }

  ghost predicate NoReset(db: Tables, run: seq<Event>, i: nat, j: nat, user: User)
    requires Inv(db) && i <= j <= |run|
  {
    forall n | i <= n < j :: !Erases(run[n].op, Answer(db, run, n), user)
  }

  lemma {:induction false} ReceiptsSurvive(db: Tables, run: seq<Event>, i: nat, j: nat, k: TurnKey)
    requires Inv(db) && i <= j <= |run| && NoClear(db, run, i, j)
    ensures KeepsReceipt(After(db, run[..i]), After(db, run[..j]), k)
    ensures After(db, run[..i]).cancels <= After(db, run[..j]).cancels
    ensures NoReset(db, run, i, j, k.user) ==> KeepsOutcome(After(db, run[..i]), After(db, run[..j]), k)
    decreases j
  {
    if i < j {
      hide Inv, Next, After, Wiped, Erases;
      ReceiptsSurvive(db, run, i, j - 1, k);
      AfterStep(db, run, j - 1);
      StepKeeps(After(db, run[..j - 1]), run[j - 1].op, run[j - 1].at, k);
    }
  }

  /** Exactly-once starts: the same turn is told to run twice only if the workspace was cleared in between. */
  lemma {:induction false} StartsOnce(db: Tables, run: seq<Event>, i: nat, j: nat, k: TurnKey)
    requires Inv(db) && i < j < |run|
    requires Starts(run[i].op, Answer(db, run, i), k) && Starts(run[j].op, Answer(db, run, j), k)
    ensures exists n :: i < n < j && Wiped(run[n].op, Answer(db, run, n))
  {
    hide Inv, Next, After, Starts;
    if NoClear(db, run, i + 1, j) {
      AfterStep(db, run, i);
      assert !Wiped(run[i].op, Answer(db, run, i)) by { StartsIsNoClear(run[i].op, Answer(db, run, i), k); }
      StepKeeps(After(db, run[..i]), run[i].op, run[i].at, k);
      ReceiptsSurvive(db, run, i + 1, j, k);
      AfterStep(db, run, j);
      assert !Wiped(run[j].op, Answer(db, run, j)) by { StartsIsNoClear(run[j].op, Answer(db, run, j), k); }
      StepKeeps(After(db, run[..j]), run[j].op, run[j].at, k);
      assert false;
    }
  }

  lemma StartsIsNoClear(op: Op, answer: Outcome, k: TurnKey)
    requires Starts(op, answer, k)
    ensures !Wiped(op, answer)
  {
  }

  /** A repeated request gets the stored outcome, another request under its identifier is refused. */
  lemma {:induction false} RepeatIsAnswered(db: Tables, run: seq<Event>, i: nat, j: nat, k: TurnKey)
    requires Inv(db) && i <= j < |run| && NoClear(db, run, i, j) && NoReset(db, run, i, j, k.user)
    requires k in After(db, run[..i]).turns && After(db, run[..i]).turns[k].status != Pending
    requires run[j].op.Start? && TurnKey(run[j].op.user, run[j].op.turn) == k
    ensures var t := After(db, run[..i]).turns[k];
            && t.response.Some?
            && Answer(db, run, j) == if run[j].op.sha == t.sha then Replay(t.conversation, t.response.value, t.http)
                                     else Refused(TurnConflict)
  {
    hide Inv, After, Next;
    ReceiptsSurvive(db, run, i, j, k);
    RepeatHere(After(db, run[..j]), run[j].op, run[j].at, k);
  }

  lemma RepeatHere(db: Tables, op: Op, at: Tick, k: TurnKey)
    requires Inv(db) && k in db.turns && db.turns[k].status != Pending
    requires op.Start? && TurnKey(op.user, op.turn) == k
    ensures var t := db.turns[k];
            && t.response.Some?
            && Next(db, op, at).1 == if op.sha == t.sha then Replay(t.conversation, t.response.value, t.http) else Refused(TurnConflict)
  {
    assert Receipts(db);
    ExpireKeepsInv(db, None, at);
    hide Inv, Finishable, Expire;
    ExpireKeeps(db, None, at, k);
  }

  /** While a turn is pending and alive, repeating it is refused, and so is every other turn of the workspace. */
  lemma BusyWorkspaceRefuses(db: Tables, op: Op, at: Tick, k: TurnKey)
    requires Inv(db) && op.Start? && PendingTurn(db, k) && !Before(db.turns[k].heartbeatAt, at.cutoff)
    ensures Next(db, op, at).1.Refused? || Next(db, op, at).1.Replay?
    ensures Next(db, op, at).1.Refused? ==> Next(db, op, at).0 == db
    ensures TurnKey(op.user, op.turn) == k && op.sha == db.turns[k].sha ==> Next(db, op, at).1 == Refused(TurnPending)
  {
    hide Inv, Next, Expire, Finishable, ActiveKnown, Issued, Owned, Counted, Unique, Paired, Receipts, OnePending, PendingAtTail, StartTurn, Before;
    CommitsStart(db, op, at);
    InvParts(db);
    assert Expire(db, None, at) == db by { NothingStale(db, at, k); }
    BusyRefuses(db, op, at.now, k);
  }

  lemma BusyRefuses(db: Tables, op: Op, now: Stamp, k: TurnKey)
    requires op.Start? && ActiveKnown(db) && PendingTurn(db, k)
    ensures StartTurn(db, op, now).1.Refused? || StartTurn(db, op, now).1.Replay?
    ensures StartTurn(db, op, now).0 == db
    ensures TurnKey(op.user, op.turn) == k && op.sha == db.turns[k].sha ==> StartTurn(db, op, now).1 == Refused(TurnPending)
  {
    hide AddMessage, OpenConversation, ActiveKnown;
  }

  lemma NothingStale(db: Tables, at: Tick, k: TurnKey)
    requires Finishable(db) && OnePending(db) && PendingTurn(db, k) && !Before(db.turns[k].heartbeatAt, at.cutoff)
    ensures Expire(db, None, at) == db
  {
    hide Finishable, FinishTurn;
    assert forall l :: Stale(db, l, None, at.cutoff) ==> l == k;
  }

  /** A reset leaves receipts behind: every turn of the conversation now answers 409, without its old content. */
  lemma ResetLeavesReceipts(db: Tables, op: Op, at: Tick, k: TurnKey)
    requires Inv(db) && op.Reset? && Erases(op, Next(db, op, at).1, k.user) && k in db.turns
    ensures var after := Next(db, op, at).0;
            k in after.turns && after.turns[k].status == Cancelled && after.turns[k].response == Some(CLEARED)
            && after.turns[k].http == 409 && after.turns[k].sha == db.turns[k].sha
  {
    hide Inv, Next, Expire, Finishable, ActiveKnown;
    CommitsReset(db, op.user, op.conversation, at);
    ExpireKeepsInv(db, Some(op.user), at);
    var expired := Expire(db, Some(op.user), at);
    ExpireKeeps(db, Some(op.user), at, k);
    OwnConversation(expired, op.user, k);
    SomethingErased(expired, k);
  }

  lemma SomethingErased(db: Tables, k: TurnKey)
    requires Inv(db) && k in db.turns
    ensures k.user in db.active
  {
  }

  /** Cancellation is sticky: from the cancel on, every heartbeat of the turn says stop. */
  lemma {:induction false} CancelSticks(db: Tables, run: seq<Event>, i: nat, j: nat, k: TurnKey)
    requires Inv(db) && i < j < |run| && NoClear(db, run, i, j)
    requires run[i].op == Cancel(k.user, k.turn) && run[j].op == Heartbeat(k.user, k.turn)
    ensures Answer(db, run, j) == Stop(true)
  {
    hide Inv, Next, After;
    AfterStep(db, run, i);
    CancelIsRecorded(After(db, run[..i]), k, run[i].at);
    ReceiptsSurvive(db, run, i + 1, j, k);
    HeartbeatStops(After(db, run[..j]), k, run[j].at);
  }

  lemma CancelIsRecorded(db: Tables, k: TurnKey, at: Tick)
    requires Inv(db)
    ensures k in Next(db, Cancel(k.user, k.turn), at).0.cancels
  {
  }

  lemma HeartbeatStops(db: Tables, k: TurnKey, at: Tick)
    requires Inv(db) && k in db.cancels
    ensures Next(db, Heartbeat(k.user, k.turn), at).1 == Stop(true)
  {
  }

  // ----- expiry ----------------------------------------------------------------------------------

  /** After a workspace expiry every pending turn is alive: its heartbeat is at most 120 seconds old.
      Turns that were alive, finished or not, are exactly as before. */
  lemma ExpiryIsExact(db: Tables, at: Tick)
    requires Inv(db)
    ensures Finishable(db)
    ensures var after := Expire(db, None, at);
            && (forall k :: PendingTurn(after, k) ==> Micros(after.turns[k].heartbeatAt) + 120_000_000 >= Micros(at.now))
            && (forall k :: k in db.turns && (db.turns[k].status != Pending || Micros(db.turns[k].heartbeatAt) + 120_000_000 >= Micros(at.now)) ==>
                  k in after.turns && after.turns[k] == db.turns[k])
            && (forall k :: PendingTurn(db, k) && Micros(db.turns[k].heartbeatAt) + 120_000_000 < Micros(at.now) ==>
                  k in after.turns && after.turns[k].status == Failed && after.turns[k].http == 500)
  {
    hide Inv, Finishable, Micros, Before, Expire, FinishTurn, OnePending;
    AlwaysFinishable(db);
    OneStale(db, None, at);
    forall k | k in db.turns
      ensures Stale(db, k, None, at.cutoff) <==> PendingTurn(db, k) && Micros(db.turns[k].heartbeatAt) + 120_000_000 < Micros(at.now)
    {
      TextOrderIsTimeOrder(db.turns[k].heartbeatAt, at.cutoff);
    }
    if k :| Stale(db, k, None, at.cutoff) {
      FinishedAlone(db, k, at.now);
    }
  }

  lemma FinishedAlone(db: Tables, k: TurnKey, now: Stamp)
    requires Finishable(db) && PendingTurn(db, k)
    ensures var after := FinishTurn(db, k, INTERRUPTED, 500, Failed, now);
      && (forall l :: PendingTurn(after, l) ==> PendingTurn(db, l) && l != k && after.turns[l] == db.turns[l])
      && (forall l :: l in db.turns && l != k ==> l in after.turns && after.turns[l] == db.turns[l])
      && k in after.turns && after.turns[k].status == Failed && after.turns[k].http == 500
  {
    FinishableAt(db, k);
    hide Finishable;
  }

  /** At most one turn is pending in the whole workspace, in every state a run reaches. */
  lemma {:induction false} OnePendingTurn(run: seq<Event>, k: TurnKey, l: TurnKey)
    requires PendingTurn(After(EMPTY, run), k) && PendingTurn(After(EMPTY, run), l)
    ensures k == l
  {
    Reachable(run);
  }
}
