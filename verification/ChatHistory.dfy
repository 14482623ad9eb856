/** Whole histories of a tab and its server: convergence of polling, and loading older pages. */
module ChatHistory {
  import opened Clock
  import opened ChatTables
  import opened ChatInvariant
  import opened ChatRuns
  import opened ChatFeed
  import opened ChatClient
  import opened Wrappers

  // ----- any interleaving of writes and polls ----------------------------------------------------

  /** Something happens: a request is served, or the tab polls, loads what is below a bound, or forgets
      everything.  It asks for nothing below sequence 0.  A poll whose answer the tab drops, because it is
      paused or was changed meanwhile, is only a read that is served. */
  datatype Step =
    | Serve(op: Op, at: Tick)
    | Poll(limit: nat, at: Tick)
    | LoadOlder(before: nat, limit: nat, at: Tick)
    | StartOver

  datatype World = World(db: Tables, client: Client)

  ghost predicate Sound(w: World, user: User) {
    Inv(w.db) && Agrees(w.client, w.db, user)
  }

  /** The tables a read answers from: this user's dead turn is expired first. */
  ghost function Seen(db: Tables, user: User, at: Tick): (seen: Tables)
    requires Inv(db)
    ensures Inv(seen) && ActiveKnown(seen)
  {
    NextKeepsInv(db, Op.Read(user), at);
    KnownActive(Next(db, Op.Read(user), at).0);
    Next(db, Op.Read(user), at).0
  }

  ghost function Advance(w: World, user: User, step: Step): World
    requires Inv(w.db)
  {
    match step
    case Serve(op, at) => World(Next(w.db, op, at).0, w.client)
    case Poll(limit, at) =>
      var db := Seen(w.db, user, at);
      World(db, Polled(w.client, db, user, limit))
    case LoadOlder(before, limit, at) =>
      if before == 0 then w else
      var db := Seen(w.db, user, at);
      World(db, ApplyOlder(w.client, PageOf(db, user, OlderQuery(w.client, before, limit))))
    case StartOver => World(w.db, FRESH)
  }

  /** What the world is after a history of steps. */
  ghost function Play(w: World, user: User, steps: seq<Step>): (end: World)
    requires Inv(w.db)
    ensures Inv(end.db)
    decreases |steps|
  {
    if steps == [] then w
    else
      var before := Play(w, user, steps[..|steps| - 1]);
      AdvanceKeepsInv(before, user, steps[|steps| - 1]);
      Advance(before, user, steps[|steps| - 1])
  }

  lemma AdvanceKeepsInv(w: World, user: User, step: Step)
    requires Inv(w.db)
    ensures Inv(Advance(w, user, step).db)
  {
    match step
    case Serve(op, at) => NextKeepsInv(w.db, op, at);
    case Poll(_, _) =>
    case LoadOlder(_, _, _) =>
    case StartOver =>
  }

  // ----- loading older messages ------------------------------------------------------------------

  /** The server's messages between the bound and the window, up to the cursor, are held already. */
  ghost predicate NoGap(client: Client, db: Tables, c: Id, before: nat) {
    forall i :: InConversation(db, i, c) && before <= db.messages[i].sequence < client.floor && db.messages[i].revision <= client.cursor ==> i in client.held
  }

  ghost predicate HeldAt(client: Client, sequence: nat) {
    exists i :: i in client.held && client.held[i].sequence == sequence
  }

  /** The tab holds a message at every sequence between the bound and its window: something it can check
      before it asks. */
  ghost predicate Covered(client: Client, before: nat) {
    forall s: nat {:trigger HeldAt(client, s)} :: before <= s < client.floor ==> HeldAt(client, s)
  }

  ghost predicate LowestHeld(client: Client, low: nat) {
    && HeldAt(client, low)
    && (forall i :: i in client.held ==> low <= client.held[i].sequence)
  }

  /** Loading what is below a bound keeps the agreement exactly when no gap is left under the window. */
  lemma OlderKeepsAgreement(client: Client, db: Tables, user: User, before: nat, limit: nat)
    requires Inv(db) && ActiveKnown(db) && Agrees(client, db, user) && before >= 1
    ensures var now := ApplyOlder(client, PageOf(db, user, OlderQuery(client, before, limit)));
            Agrees(now, db, user) <==> (Current(client, db, user) ==> NoGap(client, db, client.id.value, before))
  {
    hide Inv, Rows, Issued, Owned, Counted, Unique, Paired, Receipts, OnePending, PendingAtTail, PageOf, ActiveKnown, Upsert, Genuine, FloorOf, Ordered, HeldAgrees, WindowHeld, NoGap, InReach;
    InvParts(db);
    if user in db.active && client.id == Some(db.active[user]) {
      var c, q := db.active[user], OlderQuery(client, before, limit);
      var page := PageOf(db, user, q);
      BackPage(db, user, q);
      ActiveIssued(db, user);
      FloorIsCounted(db, c, page);
      if Current(client, db, user) {
        OlderMerge(client, db, c, page, q);
      }
    } else {
      NotCurrent(client, db, user);
      hide Current;
    }
  }

  lemma NotCurrent(client: Client, db: Tables, user: User)
    requires Owned(db) && !(user in db.active && client.id == Some(db.active[user]))
    ensures !Current(client, db, user)
  {
  }

  /** A bound that is covered leaves no gap, whatever happened at the server since the last poll. */
  lemma CoveredLeavesNoGap(client: Client, db: Tables, c: Id, before: nat)
    requires Unique(db) && HeldAgrees(client, db, c) && Covered(client, before)
    ensures NoGap(client, db, c, before)
  {
    forall i | InConversation(db, i, c) && before <= db.messages[i].sequence < client.floor
      ensures i in client.held
    {
      assert HeldAt(client, db.messages[i].sequence);
      var j :| j in client.held && client.held[j].sequence == db.messages[i].sequence;
      assert InConversation(db, j, c) && db.messages[j].sequence == db.messages[i].sequence;
    }
  }

  /** Sequences have no gaps at the server. */
  lemma {:induction false} SequenceExists(db: Tables, c: Id, i: Id, s: nat) returns (j: Id)
    requires Rows(db) && InConversation(db, i, c) && c in db.conversations
    requires db.messages[i].sequence <= s <= db.conversations[c].sequence
    ensures InConversation(db, j, c) && db.messages[j].sequence == s
    decreases s - db.messages[i].sequence
  {
    j := i;
    if db.messages[i].sequence < s {
      assert Followed(db, i);
      var next :| next in db.messages && Successor(db.messages[i], db.messages[next]);
      j := SequenceExists(db, c, next, s);
    }
  }

  /** For a tab that is up to date and asks with the browser's bound, no gap means covered. */
  lemma NoGapMeansCovered(client: Client, db: Tables, user: User, before: nat)
    requires Inv(db) && Exact(client, db, user) && user in db.active && LowestHeld(client, before)
    requires client.floor <= db.conversations[db.active[user]].sequence
    requires NoGap(client, db, db.active[user], before)
    ensures Covered(client, before)
  {
    var c := db.active[user];
    var low :| low in client.held && client.held[low].sequence == before;
    assert Rows(db) && Counted(db);
    forall s: nat | before <= s < client.floor
      ensures HeldAt(client, s)
    {
      var j := SequenceExists(db, c, low, s);
      assert j in client.held;
    }
  }

  /** The browser asks for what is below its lowest held message.  For a tab that is up to date this
      keeps the agreement exactly when its messages fill the range up to the window. */
  lemma BrowserBoundExactly(client: Client, db: Tables, user: User, before: nat, limit: nat)
    requires Inv(db) && ActiveKnown(db) && Agrees(client, db, user) && Exact(client, db, user) && user in db.active
    requires LowestHeld(client, before)
    ensures before >= 1
    ensures Agrees(ApplyOlder(client, PageOf(db, user, OlderQuery(client, before, limit))), db, user) <==> Covered(client, before)
  {
    var c := db.active[user];
    ExactIsCurrent(client, db, user);
    LowestIsPositive(client, db, user, before);
    OlderKeepsAgreement(client, db, user, before, limit);
    assert Rows(db);
    hide Inv, Issued, Owned, Counted, Paired, PageOf, ApplyOlder, Covered, NoGap, Exact, LowestHeld, HeldAgrees, WindowHeld, ActiveKnown;
    if Covered(client, before) {
      CoveredLeavesNoGap(client, db, c, before);
    }
    if NoGap(client, db, c, before) {
      NoGapMeansCovered(client, db, user, before);
    }
  }

  /** There is no hole among the held messages from the bound up: what a tab can tell from its messages. */
  ghost predicate Filled(client: Client, before: nat) {
    forall s: nat, t: nat {:trigger HeldAt(client, s), HeldAt(client, t)} :: before <= s <= t && HeldAt(client, t) ==> HeldAt(client, s)
  }

  /** For a tab that is up to date, covered means filled. */
  lemma CoveredMeansFilled(client: Client, db: Tables, user: User, before: nat)
    requires Inv(db) && Agrees(client, db, user) && Exact(client, db, user) && user in db.active && LowestHeld(client, before)
    ensures Covered(client, before) <==> Filled(client, before)
  {
    var c := db.active[user];
    ExactIsCurrent(client, db, user);
    var low :| low in client.held && client.held[low].sequence == before;
    assert Rows(db) && Counted(db);
    hide Inv, Rows;
    forall s: nat | before <= s <= db.conversations[c].sequence
      ensures s >= client.floor ==> HeldAt(client, s)
    {
      var j := SequenceExists(db, c, low, s);
    }
    assert forall t: nat :: HeldAt(client, t) ==> t <= db.conversations[c].sequence;
    assert Filled(client, before) ==> HeldAt(client, db.conversations[c].sequence);
  }

  lemma ExactIsCurrent(client: Client, db: Tables, user: User)
    requires Inv(db) && Exact(client, db, user) && user in db.active
    ensures Current(client, db, user) && client.id == Some(db.active[user])
  {
    assert Owned(db);
  }

  lemma LowestIsPositive(client: Client, db: Tables, user: User, before: nat)
    requires Inv(db) && Exact(client, db, user) && user in db.active && LowestHeld(client, before)
    ensures before >= 1
  {
    assert Counted(db);
    var low :| low in client.held && client.held[low].sequence == before;
    assert InConversation(db, low, db.active[user]);
  }

  lemma OlderMerge(client: Client, db: Tables, c: Id, page: Page, q: Query)
    requires Issued(db) && HeldAgrees(client, db, c) && WindowHeld(client, db, c) && Genuine(page, db, c)
    requires q.before.Some? && q.before.value >= 1
    requires forall m :: m in page.messages ==> InReach(m, q) && FloorOf(page) <= m.sequence
    requires forall i :: InConversation(db, i, c) && InReach(db.messages[i], q) && FloorOf(page) <= db.messages[i].sequence ==> db.messages[i] in page.messages
    ensures var now := client.(held := Upsert(client.held, page.messages), floor := FloorOf(page));
            HeldAgrees(now, db, c) && (WindowHeld(now, db, c) <==> NoGap(client, db, c, q.before.value))
  {
    var now := client.(held := Upsert(client.held, page.messages), floor := FloorOf(page));
    UpsertFacts(client.held, page.messages);
    assert FloorOf(page) < q.before.value;
    hide Upsert, FloorOf;
    forall i | i in now.held
      ensures InConversation(db, i, c) && UpToChanges(now.held[i], db.messages[i], now.cursor)
    {
      assert now.held[i] in page.messages || i in client.held;
    }
    forall i | InConversation(db, i, c) && FloorOf(page) <= db.messages[i].sequence < q.before.value
      ensures i in now.held
    {
      assert InReach(db.messages[i], q) && db.messages[i].id == i;
    }
    if WindowHeld(now, db, c) {
      forall i | InConversation(db, i, c) && q.before.value <= db.messages[i].sequence < client.floor && db.messages[i].revision <= client.cursor
        ensures i in client.held
      {
        assert i in now.held;
        assert db.messages[i] !in page.messages;
      }
    }
  }

  // ----- convergence -----------------------------------------------------------------------------

  lemma SeenAgrees(w: World, user: User, at: Tick)
    requires Sound(w, user)
    ensures Agrees(w.client, Seen(w.db, user, at), user)
  {
    ServerKeepsAgreement(w.client, w.db, Op.Read(user), at, user);
  }

  /** What the tab has to look at before it loads older messages. */
  ghost predicate Careful(client: Client, step: Step) {
    step.LoadOlder? ==> Covered(client, step.before)
  }

  lemma CarefulLoadAgrees(client: Client, db: Tables, user: User, before: nat, limit: nat)
    requires Inv(db) && ActiveKnown(db) && Agrees(client, db, user) && before >= 1 && Covered(client, before)
    ensures Agrees(ApplyOlder(client, PageOf(db, user, OlderQuery(client, before, limit))), db, user)
  {
    assert Unique(db);
    hide Inv, Covered, NoGap, PageOf, ApplyOlder, HeldAgrees, WindowHeld, Unique, ActiveKnown;
    OlderKeepsAgreement(client, db, user, before, limit);
    if Current(client, db, user) {
      CoveredLeavesNoGap(client, db, client.id.value, before);
    }
  }

  lemma AdvanceKeepsSound(w: World, user: User, step: Step)
    requires Sound(w, user) && Careful(w.client, step)
    ensures Sound(Advance(w, user, step), user)
  {
    AdvanceKeepsInv(w, user, step);
    hide Inv, Agrees, Seen, Polled, PageOf, ActiveKnown;
    match step
    case Serve(op, at) => ServerKeepsAgreement(w.client, w.db, op, at, user);
    case Poll(limit, at) =>
      SeenAgrees(w, user, at);
      PollAgrees(w.client, Seen(w.db, user, at), user, limit);
    case LoadOlder(before, limit, at) =>
      if before >= 1 {
        SeenAgrees(w, user, at);
        CarefulLoadAgrees(w.client, Seen(w.db, user, at), user, before, limit);
      }
    case StartOver => FreshAgrees(w.db, user);
  }

  lemma FreshAgrees(db: Tables, user: User)
    ensures Agrees(FRESH, db, user)
  {
  }

  /** The tab looks every time: at the edge of its window that is nothing to look at, and with the
      browser's bound it is that its messages fill the range up to the window. */
  ghost predicate AlwaysCareful(w: World, user: User, steps: seq<Step>)
    requires Inv(w.db)
  {
    forall n :: 0 <= n < |steps| ==> Careful(Play(w, user, steps[..n]).client, steps[n])
  }

  lemma {:induction false} CarefulFront(w: World, user: User, steps: seq<Step>)
    requires Inv(w.db) && steps != [] && AlwaysCareful(w, user, steps)
    ensures AlwaysCareful(w, user, steps[..|steps| - 1])
    ensures Careful(Play(w, user, steps[..|steps| - 1]).client, steps[|steps| - 1])
  {
    hide Inv, Play, Careful;
    var front := steps[..|steps| - 1];
    forall n | 0 <= n < |front|
      ensures Careful(Play(w, user, front[..n]).client, front[n])
    {
      assert front[..n] == steps[..n];
    }
  }

  lemma {:induction false} PlayKeepsSound(w: World, user: User, steps: seq<Step>)
    requires Sound(w, user) && AlwaysCareful(w, user, steps)
    ensures Sound(Play(w, user, steps), user)
    decreases |steps|
  {
    hide Inv, Agrees, AlwaysCareful, Careful, Advance;
    if steps != [] {
      var front := steps[..|steps| - 1];
      CarefulFront(w, user, steps);
      PlayKeepsSound(w, user, front);
      AdvanceKeepsSound(Play(w, user, front), user, steps[|steps| - 1]);
    }
  }

  /** A new tab on a fresh workspace. */
  ghost function Opening(): (w: World)
    ensures Inv(w.db)
  {
    World(EMPTY, FRESH)
  }

  lemma OpeningIsSound(user: User)
    ensures Sound(Opening(), user)
  {
  }

  /** Convergence: after any interleaving of everybody's requests with this tab's polls, a poll that
      does not continue leaves the tab with exactly the server's messages of its window. */
  lemma {:induction false} PollingConverges(user: User, steps: seq<Step>, limit: nat, at: Tick)
    requires AlwaysCareful(Opening(), user, steps)
    ensures var w := Play(Opening(), user, steps);
            var end := Advance(w, user, Poll(limit, at));
            !Continues(w.client, Seen(w.db, user, at), user, limit) ==> Exact(end.client, end.db, user)
  {
    hide Inv, Agrees, Exact, Seen, Polled, Continues, Play, ActiveKnown, Opening, AlwaysCareful;
    OpeningIsSound(user);
    var w := Play(Opening(), user, steps);
    PlayKeepsSound(Opening(), user, steps);
    SeenAgrees(w, user, at);
    PollAgrees(w.client, Seen(w.db, user, at), user, limit);
  }

  /** Polling ends: with nobody writing, each continuing poll raises the cursor, so a tab that keeps
      polling reaches a poll that does not continue, and is exact then. */
  ghost function CatchUp(client: Client, db: Tables, user: User, limit: nat): (end: Client)
    requires Inv(db) && ActiveKnown(db) && Agrees(client, db, user)
    ensures Agrees(end, db, user) && Exact(end, db, user)
    decreases if user in db.active && db.active[user] in db.conversations && client.cursor <= db.conversations[db.active[user]].revision
              then db.conversations[db.active[user]].revision - client.cursor + 1 else 0
  {
    PollAgrees(client, db, user, limit);
    if Continues(client, db, user, limit) then CatchUp(Polled(client, db, user, limit), db, user, limit)
    else Polled(client, db, user, limit)
  }

  // ----- the bound the browser uses --------------------------------------------------------------

  /** The tab is looking at the user's conversation, and the server will continue from its cursor. */
  ghost predicate Follows(client: Client, db: Tables, user: User) {
    && user in db.active && client.id == Some(db.active[user]) && client.id.value in db.conversations
    && db.conversations[client.id.value].resetRevision <= client.cursor <= db.conversations[client.id.value].revision
    && 0 < client.cursor
  }

  /** The tab holds `x`.  Of the later message `y` it has nothing as long as that is the `row` it was;
      when `y` has changed, it is held from the poll on that took the change in. */
  ghost predicate Tracked(client: Client, db: Tables, user: User, x: Id, y: Id, row: Message) {
    && Follows(client, db, user)
    && InConversation(db, x, client.id.value) && InConversation(db, y, client.id.value) && x in client.held
    && client.held[x].sequence == db.messages[x].sequence < db.messages[y].sequence == row.sequence
    && if db.messages[y] == row then row.revision <= client.cursor && y !in client.held
       else row.revision < db.messages[y].revision && (db.messages[y].revision <= client.cursor ==> y in client.held)
  }

  /** The tab holds `x` but not the later message `y`, and its cursor is past `y`. */
  ghost predicate Skipped(client: Client, db: Tables, user: User, x: Id, y: Id) {
    y in db.messages && Tracked(client, db, user, x, y, db.messages[y])
  }

  /** The conversation is there at both times, and was not reset in between. */
  ghost predicate Lives(a: Tables, b: Tables, c: Id) {
    c in a.conversations && c in b.conversations && a.conversations[c].resetRevision == b.conversations[c].resetRevision
  }

  /** The row is the same, or has changed under a higher revision. */
  ghost predicate RowSurvives(a: Tables, b: Tables, c: Id, i: Id) {
    && c in a.conversations && c in b.conversations && InConversation(a, i, c) && InConversation(b, i, c)
    && a.messages[i].revision <= a.conversations[c].revision <= b.conversations[c].revision
    && (b.messages[i] == a.messages[i] || (SameQuestion(a.messages[i], b.messages[i]) && b.messages[i].revision > a.conversations[c].revision))
  }

  /** Whatever is served, the tab still has nothing of an unchanged `y`. */
  lemma ServeTracks(client: Client, a: Tables, b: Tables, user: User, x: Id, y: Id, row: Message)
    requires Inv(a) && Inv(b) && Evolves(a, b) && Tracked(client, a, user, x, y, row) && Lives(a, b, client.id.value)
    ensures Tracked(client, b, user, x, y, row)
  {
    hide Inv, Rows, Issued, Owned, Counted, Unique, Paired, Receipts, OnePending, PendingAtTail, Evolves, Grows, Tracked, InConversation;
    TrackedFollows(client, a, user, x, y, row);
    var c := client.id.value;
    InvParts(a);
    InvParts(b);
    SameConversation(a, b, user, c);
    RowThrough(a, b, c, x);
    RowThrough(a, b, c, y);
    RowsTrack(client, a, b, user, x, y, row);
  }

  lemma RowsTrack(client: Client, a: Tables, b: Tables, user: User, x: Id, y: Id, row: Message)
    requires Tracked(client, a, user, x, y, row) && Lives(a, b, client.id.value) && user in b.active && b.active[user] == a.active[user]
    requires RowSurvives(a, b, client.id.value, x) && RowSurvives(a, b, client.id.value, y)
    ensures Tracked(client, b, user, x, y, row)
  {
  }

  lemma RowThrough(a: Tables, b: Tables, c: Id, i: Id)
    requires Counted(a) && Lives(a, b, c) && Grows(a, b, c) && InConversation(a, i, c)
    ensures RowSurvives(a, b, c, i)
  {
  }

  /** A poll takes in the changes between two cursors. */
  lemma PollTracks(client: Client, db: Tables, user: User, x: Id, y: Id, row: Message, limit: nat)
    requires Inv(db) && ActiveKnown(db) && Tracked(client, db, user, x, y, row)
    ensures var now := Polled(client, db, user, limit);
            && Tracked(now, db, user, x, y, row) && now.id == client.id && now.floor == client.floor
            && (!Continues(client, db, user, limit) ==> now.cursor == db.conversations[db.active[user]].revision)
  {
    TrackedFollows(client, db, user, x, y, row);
    var c, q, now := db.active[user], PollQuery(client, limit), Polled(client, db, user, limit);
    assert !MustReset(db.conversations[c], c, q);
    DeltaPage(db, user, q);
    var page := PageOf(db, user, q);
    assert now == client.(cursor := page.head.value.revision, held := Upsert(client.held, page.messages));
    OwnName(db, y);
    hide Inv, PageOf, ActiveKnown, Upsert, Polled, Tracked, MustReset;
    DeltaMergeTracks(client, now, db, user, x, y, row, page.messages);
  }

  lemma {:induction false} DeltaMergeTracks(client: Client, now: Client, db: Tables, user: User, x: Id, y: Id, row: Message, page: seq<Message>)
    requires Tracked(client, db, user, x, y, row) && db.messages[y].id == y
    requires now == client.(cursor := now.cursor, held := Upsert(client.held, page))
    requires client.cursor <= now.cursor <= db.conversations[db.active[user]].revision
    requires forall m :: m in page ==> InConversation(db, m.id, db.active[user]) && db.messages[m.id] == m && client.cursor < m.revision
    requires InConversation(db, y, db.active[user]) && client.cursor < db.messages[y].revision <= now.cursor ==> db.messages[y] in page
    ensures Tracked(now, db, user, x, y, row)
  {
    UpsertFacts(client.held, page);
    hide Upsert;
  }

  lemma OwnName(db: Tables, i: Id)
    requires Inv(db) && i in db.messages
    ensures db.messages[i].id == i
  {
  }

  /** An older page under the lowest held message does not bring `y`, and it takes the window below it. */
  lemma OlderTracks(client: Client, db: Tables, user: User, x: Id, y: Id, row: Message, low: nat, limit: nat)
    requires Inv(db) && ActiveKnown(db) && Tracked(client, db, user, x, y, row) && LowestHeld(client, low)
    ensures var now := ApplyOlder(client, PageOf(db, user, OlderQuery(client, low, limit)));
            Tracked(now, db, user, x, y, row) && now.id == client.id && now.floor <= row.sequence
  {
    hide Inv, PageOf, Upsert, ActiveKnown, Ordered, HeldAt;
    var page := PageOf(db, user, OlderQuery(client, low, limit));
    BackPage(db, user, OlderQuery(client, low, limit));
    UpsertFacts(client.held, page.messages);
    assert page.messages != [] ==> page.messages[0] in page.messages;
  }

  /** Older messages are asked for below the lowest held one, and the tab is not started over. */
  ghost predicate AsksBelowLowest(client: Client, step: Step) {
    !step.StartOver? && (step.LoadOlder? ==> step.before >= 1 && LowestHeld(client, step.before))
  }

  /** The history of a browser tab. */
  ghost predicate LikeTheBrowser(w: World, user: User, steps: seq<Step>)
    requires Inv(w.db)
  {
    forall n :: 0 <= n < |steps| ==> AsksBelowLowest(Play(w, user, steps[..n]).client, steps[n])
  }

  lemma {:induction false} BrowserFront(w: World, user: User, steps: seq<Step>)
    requires Inv(w.db) && steps != [] && LikeTheBrowser(w, user, steps)
    ensures LikeTheBrowser(w, user, steps[..|steps| - 1])
    ensures AsksBelowLowest(Play(w, user, steps[..|steps| - 1]).client, steps[|steps| - 1])
  {
    hide Inv, Play, AsksBelowLowest;
    var front := steps[..|steps| - 1];
    forall n | 0 <= n < |front|
      ensures AsksBelowLowest(Play(w, user, front[..n]).client, front[n])
    {
      assert front[..n] == steps[..n];
    }
  }

  lemma AdvanceEvolves(w: World, user: User, step: Step)
    requires Inv(w.db)
    ensures Evolves(w.db, Advance(w, user, step).db)
  {
    hide Inv, Evolves, Next, Polled, PageOf;
    SameEvolves(w.db);
    match step
    case Serve(op, at) => NextEvolves(w.db, op, at);
    case Poll(_, at) => NextEvolves(w.db, Op.Read(user), at);
    case LoadOlder(_, _, at) => NextEvolves(w.db, Op.Read(user), at);
    case StartOver =>
  }

  lemma {:induction false} PlayEvolves(w: World, user: User, steps: seq<Step>)
    requires Inv(w.db)
    ensures Evolves(w.db, Play(w, user, steps).db)
    decreases |steps|
  {
    hide Inv, Evolves, Advance;
    if steps == [] {
      SameEvolves(w.db);
    } else {
      var before, last := Play(w, user, steps[..|steps| - 1]), steps[|steps| - 1];
      PlayEvolves(w, user, steps[..|steps| - 1]);
      AdvanceEvolves(before, user, last);
      AdvanceKeepsInv(before, user, last);
      EvolvesTwice(w.db, before.db, Advance(before, user, last).db);
    }
  }

  lemma AdvanceTracks(w: World, user: User, x: Id, y: Id, row: Message, step: Step)
    requires Inv(w.db) && Tracked(w.client, w.db, user, x, y, row) && AsksBelowLowest(w.client, step)
    requires Lives(w.db, Advance(w, user, step).db, w.client.id.value)
    ensures var end := Advance(w, user, step);
      && Tracked(end.client, end.db, user, x, y, row) && end.client.id == w.client.id
      && (step.LoadOlder? || w.client.floor <= row.sequence ==> end.client.floor <= row.sequence)
  {
    hide Inv, Evolves, Tracked, LowestHeld, Next, Polled, PageOf, ApplyOlder, ActiveKnown, Seen, Lives;
    var end := Advance(w, user, step);
    AdvanceKeepsInv(w, user, step);
    AdvanceEvolves(w, user, step);
    match step
    case Serve(_, _) => ServeTracks(w.client, w.db, end.db, user, x, y, row);
    case Poll(limit, _) =>
      ServeTracks(w.client, w.db, end.db, user, x, y, row);
      PollTracks(w.client, end.db, user, x, y, row, limit);
    case LoadOlder(before, limit, _) =>
      ServeTracks(w.client, w.db, end.db, user, x, y, row);
      OlderTracks(w.client, end.db, user, x, y, row, before, limit);
  }

  ghost predicate Loads(steps: seq<Step>) {
    exists n :: 0 <= n < |steps| && steps[n].LoadOlder?
  }

  lemma {:induction false} LastStep(w: World, user: User, steps: seq<Step>)
    requires Inv(w.db) && steps != []
    ensures Play(w, user, steps) == Advance(Play(w, user, steps[..|steps| - 1]), user, steps[|steps| - 1])
    ensures Loads(steps) ==> Loads(steps[..|steps| - 1]) || steps[|steps| - 1].LoadOlder?
  {
    hide Inv, Advance;
    assert forall n :: 0 <= n < |steps| - 1 ==> steps[..|steps| - 1][n] == steps[n];
  }

  lemma TrackedFollows(client: Client, db: Tables, user: User, x: Id, y: Id, row: Message)
    requires Tracked(client, db, user, x, y, row)
    ensures user in db.active && client.id == Some(db.active[user]) && InConversation(db, x, client.id.value) && InConversation(db, y, client.id.value)
  {
  }

  lemma LivesBetween(a: Tables, mid: Tables, b: Tables, user: User)
    requires Inv(a) && Inv(mid) && Evolves(a, mid) && Evolves(mid, b) && user in a.active && Lives(a, b, a.active[user])
    ensures Lives(a, mid, a.active[user]) && Lives(mid, b, a.active[user])
  {
    hide Inv, Evolves;
    StillThere(a, mid, b, user);
  }

  lemma {:induction false} PlayTracks(w: World, user: User, x: Id, y: Id, row: Message, steps: seq<Step>)
    requires Inv(w.db) && Tracked(w.client, w.db, user, x, y, row) && LikeTheBrowser(w, user, steps)
    requires Lives(w.db, Play(w, user, steps).db, w.client.id.value)
    ensures var end := Play(w, user, steps);
      && Tracked(end.client, end.db, user, x, y, row) && end.client.id == w.client.id
      && (Loads(steps) || w.client.floor <= row.sequence ==> end.client.floor <= row.sequence)
    decreases |steps|
  {
    if steps == [] {
    } else {
      hide Inv, Evolves, LikeTheBrowser, AsksBelowLowest, Play, Advance, Tracked, Lives, Loads;
      var front, last := steps[..|steps| - 1], steps[|steps| - 1];
      BrowserFront(w, user, steps);
      LastStep(w, user, steps);
      var mid := Play(w, user, front);
      PlayEvolves(w, user, front);
      AdvanceEvolves(mid, user, last);
      TrackedFollows(w.client, w.db, user, x, y, row);
      LivesBetween(w.db, mid.db, Play(w, user, steps).db, user);
      PlayTracks(w, user, x, y, row, front);
      AdvanceTracks(mid, user, x, y, row, last);
    }
  }

  /** However the chat goes on, and however often the browser polls and asks for older messages: until
      the conversation is reset or cleared, the message stays skipped exactly as long as it is not
      changed.  Once an older page was loaded the window reaches below it, and the tab is wrong. */
  lemma {:induction false} NeverDelivered(w: World, user: User, x: Id, y: Id, steps: seq<Step>)
    requires Inv(w.db) && Skipped(w.client, w.db, user, x, y) && LikeTheBrowser(w, user, steps)
    requires Lives(w.db, Play(w, user, steps).db, w.db.active[user])
    ensures var end := Play(w, user, steps);
      && y in end.db.messages && end.client.id == w.client.id
      && (Skipped(end.client, end.db, user, x, y) <==> end.db.messages[y] == w.db.messages[y])
      && (Skipped(end.client, end.db, user, x, y) && Loads(steps) ==>
            end.client.floor <= end.db.messages[y].sequence && !Exact(end.client, end.db, user))
  {
    hide Inv, LikeTheBrowser, Play;
    PlayTracks(w, user, x, y, w.db.messages[y], steps);
  }

  /** And a change does bring it: whenever a poll has nothing left to come, the message is there exactly
      when it was changed. */
  lemma {:induction false} DeliveredExactlyWhenChanged(w: World, user: User, x: Id, y: Id, steps: seq<Step>, limit: nat, at: Tick)
    requires Inv(w.db) && Skipped(w.client, w.db, user, x, y) && LikeTheBrowser(w, user, steps)
    requires var mid := Play(w, user, steps);
      Lives(w.db, Advance(mid, user, Poll(limit, at)).db, w.db.active[user]) && !Continues(mid.client, Seen(mid.db, user, at), user, limit)
    ensures var end := Advance(Play(w, user, steps), user, Poll(limit, at));
      y in end.db.messages && (y in end.client.held <==> end.db.messages[y] != w.db.messages[y])
  {
    hide Inv, Evolves, LikeTheBrowser, Play, Advance, Seen, Continues, Tracked, InConversation, Lives;
    var mid := Play(w, user, steps);
    var end := Advance(mid, user, Poll(limit, at));
    PlayEvolves(w, user, steps);
    AdvanceKeepsInv(mid, user, Poll(limit, at));
    AdvanceEvolves(mid, user, Poll(limit, at));
    SkippedFollows(w.client, w.db, user, x, y);
    LivesBetween(w.db, mid.db, end.db, user);
    PlayTracks(w, user, x, y, w.db.messages[y], steps);
    LastPoll(mid, user, x, y, w.db.messages[y], limit, at);
  }

  lemma LastPoll(w: World, user: User, x: Id, y: Id, row: Message, limit: nat, at: Tick)
    requires Inv(w.db) && Tracked(w.client, w.db, user, x, y, row) && !Continues(w.client, Seen(w.db, user, at), user, limit)
    requires Lives(w.db, Advance(w, user, Poll(limit, at)).db, w.client.id.value)
    ensures var end := Advance(w, user, Poll(limit, at));
      y in end.db.messages && (y in end.client.held <==> end.db.messages[y] != row)
  {
    var end := Advance(w, user, Poll(limit, at));
    hide Inv, Evolves, Tracked, Polled, Next, Continues, ActiveKnown, Lives;
    AdvanceEvolves(w, user, Poll(limit, at));
    ServeTracks(w.client, w.db, end.db, user, x, y, row);
    PollTracks(w.client, end.db, user, x, y, row, limit);
    UpToDate(end.client, end.db, user, x, y, row);
  }

  lemma SkippedFollows(client: Client, db: Tables, user: User, x: Id, y: Id)
    requires Skipped(client, db, user, x, y)
    ensures Follows(client, db, user)
  {
  }

  lemma UpToDate(client: Client, db: Tables, user: User, x: Id, y: Id, row: Message)
    requires Inv(db) && Tracked(client, db, user, x, y, row) && client.cursor == db.conversations[db.active[user]].revision
    ensures y in db.messages && (y in client.held <==> db.messages[y] != row)
  {
    assert Counted(db);
  }

  /** The browser asks for what is below its lowest held message, not below its window.  When a change
      to a message under the window reached it, that skips: here `x` was changed under the window of a
      fresh tab, and the next message `y` is skipped from then on. */
  lemma {:induction false} LowestHeldSkips(db: Tables, user: User, x: Id, y: Id, proposal: Proposal, at: Tick, l0: nat, l1: nat, steps: seq<Step>)
    requires Inv(db) && ActiveKnown(db) && user in db.active
    requires InConversation(db, x, db.active[user]) && InConversation(db, y, db.active[user])
    requires SetProposal(db, user, x, proposal).1.Done? && Successor(db.messages[x], db.messages[y])
    requires db.messages[y].sequence < Polled(FRESH, db, user, l0).floor
    ensures var after := Next(db, Op.UpdateProposal(user, x, proposal), at).0;
            && Inv(after) && ActiveKnown(after)
            && var tab := Polled(Polled(FRESH, db, user, l0), after, user, l1); var start := World(after, tab);
            && LowestHeld(tab, db.messages[x].sequence) && !Covered(tab, db.messages[x].sequence)
            && Skipped(tab, after, user, x, y) && UpToRevision(tab, after, user)
            && var end := Play(start, user, steps);
            (LikeTheBrowser(start, user, steps) && Lives(after, end.db, tab.id.value) ==>
              y in end.db.messages && (Skipped(end.client, end.db, user, x, y) <==> end.db.messages[y] == after.messages[y]))
  {
    hide Inv, Next, Polled, PageOf, Owned, ActiveKnown, MessagesKnown, LowestHeld, Covered, Lives, LikeTheBrowser, Play, InConversation, UpToRevision;
    KnownActive(db);
    ProposalIsServed(db, user, x, proposal, at);
    LowestIsBelow(db, user, x, y, proposal, l0, l1);
    var after := SetProposal(db, user, x, proposal).0;
    var start := World(after, Polled(Polled(FRESH, db, user, l0), after, user, l1));
    hide Tracked;
    SkippedFollows(start.client, after, user, x, y);
    if LikeTheBrowser(start, user, steps) && Lives(after, Play(start, user, steps).db, start.client.id.value) {
      NeverDelivered(start, user, x, y, steps);
    }
  }

  /** The tab has everything up to the conversation's revision. */
  ghost predicate UpToRevision(client: Client, db: Tables, user: User) {
    Follows(client, db, user) && client.cursor == db.conversations[db.active[user]].revision
  }

  lemma ProposalIsServed(db: Tables, user: User, x: Id, proposal: Proposal, at: Tick)
    requires Inv(db) && MessagesKnown(db)
    ensures Next(db, Op.UpdateProposal(user, x, proposal), at) == SetProposal(db, user, x, proposal)
    ensures Inv(SetProposal(db, user, x, proposal).0) && ActiveKnown(SetProposal(db, user, x, proposal).0)
  {
    hide Inv;
    NextKeepsInv(db, Op.UpdateProposal(user, x, proposal), at);
    KnownActive(SetProposal(db, user, x, proposal).0);
  }

  /** After the change the lowest held message is the changed one, with a gap right above it. */
  lemma LowestIsBelow(db: Tables, user: User, x: Id, y: Id, proposal: Proposal, l0: nat, l1: nat)
    requires Inv(db) && ActiveKnown(db) && MessagesKnown(db) && user in db.active
    requires InConversation(db, x, db.active[user]) && InConversation(db, y, db.active[user])
    requires SetProposal(db, user, x, proposal).1.Done? && Successor(db.messages[x], db.messages[y])
    requires db.messages[y].sequence < Polled(FRESH, db, user, l0).floor
    requires Inv(SetProposal(db, user, x, proposal).0) && ActiveKnown(SetProposal(db, user, x, proposal).0)
    ensures var after := SetProposal(db, user, x, proposal).0;
            var tab := Polled(Polled(FRESH, db, user, l0), after, user, l1);
            && LowestHeld(tab, db.messages[x].sequence) && !Covered(tab, db.messages[x].sequence)
            && Skipped(tab, after, user, x, y) && UpToRevision(tab, after, user)
  {
    var after := SetProposal(db, user, x, proposal).0;
    InvParts(db);
    KnownConversation(db, user);
    FirstWindow(db, user, l0);
    ProposalOnly(db, user, x, proposal);
    hide *;
    ChangedBelow(Polled(FRESH, db, user, l0), db, after, user, x, y, l1);
  }

  lemma ChangedBelow(first: Client, db: Tables, after: Tables, user: User, x: Id, y: Id, limit: nat)
    requires Inv(db) && Inv(after) && ActiveKnown(after) && user in db.active && after.active == db.active
    requires var c := db.active[user];
             && Counted(db) && c in db.conversations && db.conversations[c].resetRevision <= db.conversations[c].revision
             && InConversation(db, x, c) && InConversation(db, y, c) && Successor(db.messages[x], db.messages[y])
             && x in after.messages && SameQuestion(db.messages[x], after.messages[x]) && after.messages == db.messages[x := after.messages[x]]
             && after.conversations == db.conversations[c := Bumped(db.conversations[c], false)]
             && after.messages[x].revision == after.conversations[c].revision
             && first.id == Some(c) && first.cursor == db.conversations[c].revision && db.messages[y].sequence < first.floor
             && (forall i :: i in first.held ==> InConversation(db, i, c) && first.held[i] == db.messages[i] && first.floor <= db.messages[i].sequence)
             && (forall i :: InConversation(db, i, c) ==> db.messages[i].revision <= db.conversations[c].revision)
    ensures var tab := Polled(first, after, user, limit);
            && LowestHeld(tab, db.messages[x].sequence) && !Covered(tab, db.messages[x].sequence)
            && Skipped(tab, after, user, x, y) && UpToRevision(tab, after, user)
  {
    hide Inv, Counted, Polled, ActiveKnown, LowestHeld, Covered, Skipped, UpToRevision;
    SecondWindow(first, db, after, user, x, limit);
    var tab := Polled(first, after, user, limit);
    assert tab.held[x].sequence == db.messages[x].sequence;
    assert y !in first.held;
    LowestAlone(first, tab, x);
    NowSkipped(tab, db, after, user, x, y);
  }

  lemma NowSkipped(tab: Client, db: Tables, after: Tables, user: User, x: Id, y: Id)
    requires user in db.active && after.active == db.active && tab.id == Some(db.active[user]) && db.active[user] in db.conversations
    requires var c := db.active[user];
             && Counted(db) && db.conversations[c].resetRevision <= db.conversations[c].revision
             && InConversation(db, x, c) && InConversation(db, y, c) && Successor(db.messages[x], db.messages[y])
             && after.conversations == db.conversations[c := Bumped(db.conversations[c], false)]
             && x in after.messages && SameQuestion(db.messages[x], after.messages[x]) && after.messages == db.messages[x := after.messages[x]]
             && tab.cursor == after.conversations[c].revision && x in tab.held && tab.held[x] == after.messages[x] && y !in tab.held
    ensures Skipped(tab, after, user, x, y) && UpToRevision(tab, after, user)
  {
    assert x != y;
    assert db.messages[y].revision <= db.conversations[db.active[user]].revision;
  }

  /** One message below the window, and none right above it. */
  lemma LowestAlone(first: Client, tab: Client, x: Id)
    requires x in tab.held && tab.floor == first.floor && tab.held[x].sequence + 1 < tab.floor
    requires forall i :: i in first.held ==> first.floor <= first.held[i].sequence
    requires forall i :: i in tab.held && i != x ==> i in first.held && tab.held[i] == first.held[i]
    ensures LowestHeld(tab, tab.held[x].sequence) && !Covered(tab, tab.held[x].sequence)
  {
    assert HeldAt(tab, tab.held[x].sequence);
    assert !HeldAt(tab, tab.held[x].sequence + 1);
  }

  /** A tab that starts on a conversation holds its newest messages, exactly. */
  lemma FirstWindow(db: Tables, user: User, limit: nat)
    requires Inv(db) && ActiveKnown(db) && user in db.active
    ensures var c, first := db.active[user], Polled(FRESH, db, user, limit);
            && c in db.conversations && first.id == Some(c) && first.cursor == db.conversations[c].revision
            && (forall i :: i in first.held ==> InConversation(db, i, c) && first.held[i] == db.messages[i] && first.floor <= db.messages[i].sequence)
  {
    var page := PageOf(db, user, PollQuery(FRESH, limit));
    BackPage(db, user, PollQuery(FRESH, limit));
    UpsertFacts(map[], page.messages);
    hide Inv, PageOf, Upsert;
  }

  /** A proposal update changes one message, and gives it the one new revision. */
  lemma ProposalOnly(db: Tables, user: User, x: Id, proposal: Proposal)
    requires Inv(db) && MessagesKnown(db) && SetProposal(db, user, x, proposal).1.Done?
    ensures var after, c := SetProposal(db, user, x, proposal).0, db.messages[x].conversation;
            && after.active == db.active && after.conversations == db.conversations[c := Bumped(db.conversations[c], false)]
            && x in after.messages && SameQuestion(db.messages[x], after.messages[x])
            && after.messages == db.messages[x := after.messages[x]] && after.messages[x].revision == after.conversations[c].revision
            && forall i :: InConversation(db, i, c) ==> db.messages[i].revision <= db.conversations[c].revision
  {
    assert Counted(db);
  }

  /** The next poll of that tab brings the changed message and nothing else. */
  lemma SecondWindow(first: Client, db: Tables, after: Tables, user: User, x: Id, limit: nat)
    requires Inv(db) && Inv(after) && ActiveKnown(after) && user in db.active && after.active == db.active
    requires var c := db.active[user];
             && c in db.conversations && InConversation(db, x, c) && x in after.messages && SameQuestion(db.messages[x], after.messages[x])
             && after.conversations == db.conversations[c := Bumped(db.conversations[c], false)]
             && after.messages == db.messages[x := after.messages[x]] && after.messages[x].revision == after.conversations[c].revision
             && first.id == Some(c) && first.cursor == db.conversations[c].revision
             && (forall i :: InConversation(db, i, c) ==> db.messages[i].revision <= db.conversations[c].revision)
    ensures var tab := Polled(first, after, user, limit);
            && tab.id == first.id && tab.floor == first.floor && tab.cursor == after.conversations[db.active[user]].revision && x in tab.held && tab.held[x] == after.messages[x]
            && forall i :: i in tab.held && i != x ==> i in first.held && tab.held[i] == first.held[i]
  {
    var c, q := db.active[user], PollQuery(first, limit);
    assert Issued(after) && Owned(db) && Counted(db) && after.messages[x].id == x && InConversation(after, x, c);
    assert first.cursor > 0;
    var page := PageOf(after, user, q);
    DeltaPage(after, user, q);
    UpsertFacts(first.held, page.messages);
    hide Inv, PageOf, Upsert, Owned, Counted, Issued;
    assert forall m :: m in page.messages ==> m.id == x;
  }

  // ----- such a tab can be reached ---------------------------------------------------------------

  ghost predicate Idle(db: Tables) {
    forall k :: !PendingTurn(db, k)
  }

  const SERVED := Response("Done.", true, "", None)

  /** A question, and its answer with a proposal. */
  function OneTurn(user: User, turn: TurnId, at: Tick): seq<Event> {
    [Event(Op.Start(user, turn, "", "", None), at), Event(Op.Finish(user, turn, SERVED, 200, Completed), at)]
  }

  ghost predicate StillHas(db: Tables, after: Tables) {
    forall i :: i in db.messages ==> i in after.messages && after.messages[i] == db.messages[i]
  }

  lemma AfterTwo(db: Tables, a: Event, b: Event)
    requires Inv(db)
    ensures Inv(Next(db, a.op, a.at).0) && After(db, [a, b]) == Next(Next(db, a.op, a.at).0, b.op, b.at).0
  {
    hide Inv, Next;
    assert [a, b][..1] == [a] && [a][..0] == [];
    assert After(db, [a]) == Next(db, a.op, a.at).0;
  }

  /** Served in an idle workspace, the turn appends its two messages, and the workspace is idle again. */
  lemma TurnAppends(db: Tables, user: User, turn: TurnId, at: Tick) returns (question: Id)
    requires Inv(db) && Idle(db) && TurnKey(user, turn) !in db.turns
    ensures var end := After(db, OneTurn(user, turn, at));
      && Idle(end) && user in end.active && end.active[user] in end.conversations && StillHas(db, end)
      && end.turns.Keys == db.turns.Keys + {TurnKey(user, turn)}
      && var c := end.active[user];
      && InConversation(end, question, c) && InConversation(end, question + 1, c)
      && end.messages[question + 1].proposal == ProposalPending
      && end.messages[question].sequence + 1 == end.messages[question + 1].sequence == end.conversations[c].sequence
      && (user in db.active ==> c == db.active[user] && c in db.conversations && end.messages[question].sequence == db.conversations[c].sequence + 1)
  {
    var k := TurnKey(user, turn);
    hide Inv, Next, After, Idle;
    AfterTwo(db, OneTurn(user, turn, at)[0], OneTurn(user, turn, at)[1]);
    question := Asking(db, user, turn, at);
    Answering(Next(db, Op.Start(user, turn, "", "", None), at).0, k, question, at);
  }

  lemma IdleExpiresNothing(db: Tables, who: Option<User>, at: Tick)
    requires Idle(db)
    ensures Finishable(db) && Expire(db, who, at) == db
  {
  }

  /** Where the question goes. */
  lemma Asking(db: Tables, user: User, turn: TurnId, at: Tick) returns (question: Id)
    requires Inv(db) && Idle(db) && TurnKey(user, turn) !in db.turns
    ensures var mid := Next(db, Op.Start(user, turn, "", "", None), at).0; var k := TurnKey(user, turn);
      && Inv(mid) && PendingTurn(mid, k) && mid.nextId == question + 1 && StillHas(db, mid)
      && user in mid.active && mid.turns[k].conversation == mid.active[user] && mid.active[user] in mid.conversations
      && InConversation(mid, question, mid.active[user])
      && mid.messages[question].sequence == mid.conversations[mid.active[user]].sequence
      && (user in db.active ==>
            && mid.active[user] == db.active[user] && db.active[user] in db.conversations
            && mid.messages[question].sequence == db.conversations[db.active[user]].sequence + 1)
      && mid.turns.Keys == db.turns.Keys + {k}
  {
    hide Inv, Next, Expire, Finishable, ActiveKnown, Issued, Owned, Counted;
    IdleExpiresNothing(db, None, at);
    CommitsStart(db, Op.Start(user, turn, "", "", None), at);
    InvParts(db);
    question := if user in db.active then db.nextId else db.nextId + 1;
    AskingAt(db, user, turn, at.now);
  }

  lemma AskingAt(db: Tables, user: User, turn: TurnId, now: Stamp)
    requires Issued(db) && ActiveKnown(db) && Idle(db) && TurnKey(user, turn) !in db.turns
    ensures var (mid, answer) := StartTurn(db, Op.Start(user, turn, "", "", None), now); var k := TurnKey(user, turn);
      var question := if user in db.active then db.nextId else db.nextId + 1;
      && answer.Run? && PendingTurn(mid, k) && mid.nextId == question + 1 && StillHas(db, mid)
      && user in mid.active && mid.turns[k].conversation == mid.active[user] && mid.active[user] in mid.conversations
      && InConversation(mid, question, mid.active[user])
      && mid.messages[question].sequence == mid.conversations[mid.active[user]].sequence
      && (user in db.active ==>
            && mid.active[user] == db.active[user] && db.active[user] in db.conversations
            && mid.messages[question].sequence == db.conversations[db.active[user]].sequence + 1)
      && mid.turns.Keys == db.turns.Keys + {k}
  {
  }

  /** Where the answer goes. */
  lemma Answering(mid: Tables, k: TurnKey, question: Id, at: Tick)
    requires Inv(mid) && PendingTurn(mid, k) && mid.nextId == question + 1
    requires k.user in mid.active && mid.turns[k].conversation == mid.active[k.user] && InConversation(mid, question, mid.active[k.user])
    ensures var end := Next(mid, Op.Finish(k.user, k.turn, SERVED, 200, Completed), at).0; var c := mid.active[k.user];
      && Idle(end) && end.active == mid.active && c in mid.conversations && c in end.conversations && StillHas(mid, end)
      && InConversation(end, question, c) && end.messages[question] == mid.messages[question]
      && InConversation(end, question + 1, c) && end.messages[question + 1].proposal == ProposalPending
      && end.messages[question + 1].sequence == mid.conversations[c].sequence + 1 == end.conversations[c].sequence
      && end.turns.Keys == mid.turns.Keys
  {
    hide Inv, Next, Issued, OnePending, Finishable, Idle, FinishTurn, Owned, StillHas;
    AlwaysFinishable(mid);
    InvParts(mid);
    FinishIsNext(mid, k, at);
    AnsweringAt(mid, k, question, at.now);
  }

  lemma FinishIsNext(db: Tables, k: TurnKey, at: Tick)
    requires Inv(db)
    ensures Finishable(db) && Next(db, Op.Finish(k.user, k.turn, SERVED, 200, Completed), at).0 == FinishTurn(db, k, SERVED, 200, Completed, at.now)
  {
    hide Inv, FinishTurn;
    AlwaysFinishable(db);
  }

  lemma AnsweringAt(mid: Tables, k: TurnKey, question: Id, now: Stamp)
    requires Issued(mid) && OnePending(mid) && Finishable(mid) && PendingTurn(mid, k) && mid.nextId == question + 1
    requires k.user in mid.active && mid.turns[k].conversation == mid.active[k.user] && InConversation(mid, question, mid.active[k.user])
    ensures var end := FinishTurn(mid, k, SERVED, 200, Completed, now); var c := mid.active[k.user];
      && Idle(end) && end.active == mid.active && c in mid.conversations && c in end.conversations && StillHas(mid, end)
      && InConversation(end, question, c) && end.messages[question] == mid.messages[question]
      && InConversation(end, question + 1, c) && end.messages[question + 1].proposal == ProposalPending
      && end.messages[question + 1].sequence == mid.conversations[c].sequence + 1 == end.conversations[c].sequence
      && end.turns.Keys == mid.turns.Keys
  {
    var end := FinishTurn(mid, k, SERVED, 200, Completed, now);
    assert forall l :: PendingTurn(end, l) ==> PendingTurn(mid, l) && l != k;
  }

  /** With room for one message, the first window is the last message alone. */
  lemma NarrowWindow(db: Tables, user: User, i: Id, j: Id)
    requires Inv(db) && ActiveKnown(db) && user in db.active && InConversation(db, i, db.active[user]) && InConversation(db, j, db.active[user])
    requires i != j && db.messages[j].sequence == db.conversations[db.active[user]].sequence
    ensures Polled(FRESH, db, user, 1).floor == db.messages[j].sequence
  {
    InvParts(db);
    var c, q := db.active[user], PollQuery(FRESH, 1);
    var page := PageOf(db, user, q);
    BackPage(db, user, q);
    OneMessage(db, user, i, j);
    hide Inv, PageOf, ActiveKnown, Ordered;
    assert page.messages[0] in page.messages;
    assert db.messages[j] in page.messages;
    assert page.messages == [page.messages[0]];
  }

  lemma OneMessage(db: Tables, user: User, i: Id, j: Id)
    requires Inv(db) && ActiveKnown(db) && user in db.active && InConversation(db, i, db.active[user]) && InConversation(db, j, db.active[user])
    requires i != j
    ensures var page := PageOf(db, user, PollQuery(FRESH, 1)); page.hasOlder && |page.messages| == 1
  {
    assert Rows(db) && Issued(db);
    hide Inv, ActiveKnown;
    var c := db.active[user];
    var rows := RowsOf(db, c);
    RowsAreKeyed(db, c, BySequence);
    AscendingIsOrdered(rows, BySequence);
    hide Ascending;
    assert db.messages[i] in rows && db.messages[j] in rows && db.messages[i] != db.messages[j];
    TwoElements(rows, db.messages[i], db.messages[j]);
  }

  lemma TwoElements(rows: set<Message>, m: Message, n: Message)
    requires m in rows && n in rows && m != n
    ensures |rows| > 1
  {
    assert rows == {m, n} + (rows - {m, n});
  }

  function Served(run: seq<Event>): seq<Step> {
    seq(|run|, i requires 0 <= i < |run| => Serve(run[i].op, run[i].at))
  }

  lemma {:induction false} PlayServed(w: World, user: User, run: seq<Event>)
    requires Inv(w.db)
    ensures Play(w, user, Served(run)) == World(After(w.db, run), w.client)
    decreases |run|
  {
    if run != [] {
      var front := run[..|run| - 1];
      assert Served(run)[..|run| - 1] == Served(front);
      hide Inv, Next;
      PlayServed(w, user, front);
    }
  }

  lemma {:induction false} PlayOneMore(w: World, user: User, steps: seq<Step>, step: Step)
    requires Inv(w.db)
    ensures Play(w, user, steps + [step]) == Advance(Play(w, user, steps), user, step)
  {
    assert (steps + [step])[..|steps|] == steps;
  }

  lemma IdleIsSeen(db: Tables, user: User, at: Tick)
    requires Inv(db) && Idle(db)
    ensures Seen(db, user, at) == db
  {
    hide Inv, Expire, Idle, Finishable;
    IdleExpiresNothing(db, Some(user), at);
  }

  lemma OpeningIsIdle()
    ensures Idle(Opening().db) && Opening().db.turns == map[] && Opening().client == FRESH
  {
  }

  lemma ProposalIsAccepted(db: Tables, user: User, x: Id)
    requires Owned(db) && MessagesKnown(db) && user in db.active && InConversation(db, x, db.active[user]) && db.messages[x].proposal == ProposalPending
    ensures SetProposal(db, user, x, ProposalApplied).1.Done?
  {
  }

  /** Two turns, one after the other: a proposal, and right after it the next question. */
  lemma TwoTurnsAppend(user: User, at: Tick) returns (x: Id, y: Id)
    ensures var db := After(Opening().db, OneTurn(user, "1", at) + OneTurn(user, "2", at));
      && Idle(db) && user in db.active && db.active[user] in db.conversations
      && InConversation(db, x, db.active[user]) && InConversation(db, y, db.active[user]) && InConversation(db, y + 1, db.active[user])
      && db.messages[x].proposal == ProposalPending && Successor(db.messages[x], db.messages[y])
      && Successor(db.messages[y], db.messages[y + 1]) && db.messages[y + 1].sequence == db.conversations[db.active[user]].sequence
  {
    hide Inv, Next, After, Idle, Opening, OneTurn;
    OpeningIsIdle();
    var one, two := OneTurn(user, "1", at), OneTurn(user, "2", at);
    var first := TurnAppends(Opening().db, user, "1", at);
    var mid := After(Opening().db, one);
    assert TurnKey(user, "2") != TurnKey(user, "1");
    var second := TurnAppends(mid, user, "2", at);
    x, y := first + 1, second;
    AfterBoth(Opening().db, one, two);
  }

  /** Two turns leave a proposal `x` right before a message `y` that a window of one does not reach. */
  lemma TwoTurns(user: User, at: Tick) returns (run: seq<Event>, x: Id, y: Id)
    ensures var db := After(Opening().db, run);
      && Idle(db) && ActiveKnown(db) && MessagesKnown(db) && user in db.active
      && InConversation(db, x, db.active[user]) && InConversation(db, y, db.active[user])
      && SetProposal(db, user, x, ProposalApplied).1.Done? && Successor(db.messages[x], db.messages[y])
      && db.messages[y].sequence < Polled(FRESH, db, user, 1).floor
  {
    hide Inv, Next, After, Idle, Polled, ActiveKnown, MessagesKnown, Opening, SetProposal, OneTurn,
      Rows, Issued, Owned, Counted, Unique, Paired, Receipts, OnePending, PendingAtTail;
    run := OneTurn(user, "1", at) + OneTurn(user, "2", at);
    x, y := TwoTurnsAppend(user, at);
    var db := After(Opening().db, run);
    KnownActive(db);
    InvParts(db);
    ProposalIsAccepted(db, user, x);
    NarrowWindow(db, user, y, y + 1);
  }

  lemma {:induction false} AfterBoth(db: Tables, run: seq<Event>, more: seq<Event>)
    requires Inv(db)
    ensures After(db, run + more) == After(After(db, run), more)
    decreases |more|
  {
    if more == [] {
      assert run + more == run;
    } else {
      var front := more[..|more| - 1];
      assert (run + more)[..|run + more| - 1] == run + front;
      hide Inv, Next;
      AfterBoth(db, run, front);
    }
  }

  /** The gap is reached by a tab with room for one message: two turns, a poll, a change to the first
      answer, a poll.  Then the tab is sound and exact, but it is not covered, and `y` is skipped. */
  lemma SkipIsReachable(user: User, at: Tick) returns (steps: seq<Step>, x: Id, y: Id)
    ensures var w := Play(Opening(), user, steps);
      && Sound(w, user) && Exact(w.client, w.db, user)
      && (exists low :: LowestHeld(w.client, low) && !Covered(w.client, low))
      && Skipped(w.client, w.db, user, x, y)
  {
    hide Inv, Next, After, Idle, Polled, Exact, Agrees, ActiveKnown, LowestHeld, Covered, Skipped, UpToRevision, Lives, LikeTheBrowser,
      Play, Seen, SetProposal, MessagesKnown, Opening;
    var run;
    run, x, y := TwoTurns(user, at);
    var db := After(Opening().db, run);
    var update := Op.UpdateProposal(user, x, ProposalApplied);
    steps := Served(run) + [Poll(1, at)] + [Serve(update, at)] + [Poll(1, at)];
    StepsPlayed(user, run, update, at);
    LowestHeldSkips(db, user, x, y, ProposalApplied, at, 1, 1, []);
    var w := Play(Opening(), user, steps);
    OpeningIsSound(user);
    NothingLoaded(user, steps);
    PlayKeepsSound(Opening(), user, steps);
    UpToRevisionIsExact(w.client, w.db, user);
  }

  lemma {:induction false} NothingLoaded(user: User, steps: seq<Step>)
    requires forall n :: 0 <= n < |steps| ==> !steps[n].LoadOlder?
    ensures AlwaysCareful(Opening(), user, steps)
  {
  }

  /** The world after the run, a poll, a change to a proposal and a poll. */
  lemma {:induction false} StepsPlayed(user: User, run: seq<Event>, update: Op, at: Tick)
    requires update.UpdateProposal? && Idle(After(Opening().db, run))
    ensures var db := After(Opening().db, run); var after := Next(db, update, at).0;
      && Inv(after) && ActiveKnown(db) && ActiveKnown(after)
      && Play(Opening(), user, Served(run) + [Poll(1, at)] + [Serve(update, at)] + [Poll(1, at)])
         == World(after, Polled(Polled(FRESH, db, user, 1), after, user, 1))
  {
    hide Inv, Next, After, Idle, Polled, ActiveKnown, Play, Seen, Opening;
    var db, served := After(Opening().db, run), Served(run);
    KnownActive(db);
    OpeningIsIdle();
    PlayServed(Opening(), user, run);
    PlayOneMore(Opening(), user, served, Poll(1, at));
    IdleIsSeen(db, user, at);
    PlayOneMore(Opening(), user, served + [Poll(1, at)], Serve(update, at));
    ProposalLeavesIdle(db, update, at);
    KnownActive(Next(db, update, at).0);
    PlayOneMore(Opening(), user, served + [Poll(1, at)] + [Serve(update, at)], Poll(1, at));
    IdleIsSeen(Next(db, update, at).0, user, at);
  }

  lemma ProposalLeavesIdle(db: Tables, update: Op, at: Tick)
    requires Inv(db) && Idle(db) && update.UpdateProposal?
    ensures Inv(Next(db, update, at).0) && Idle(Next(db, update, at).0)
  {
    hide Inv, MessagesKnown, ActiveKnown;
    KnownActive(db);
    ProposalIsServed(db, update.user, update.message, update.proposal, at);
    hide Next;
    SameTurnsIdle(db, SetProposal(db, update.user, update.message, update.proposal).0);
  }

  lemma SameTurnsIdle(db: Tables, after: Tables)
    requires Idle(db) && after.turns == db.turns
    ensures Idle(after)
  {
    assert forall k :: PendingTurn(after, k) <==> PendingTurn(db, k);
  }

  lemma UpToRevisionIsExact(client: Client, db: Tables, user: User)
    requires Inv(db) && Agrees(client, db, user) && UpToRevision(client, db, user)
    ensures Exact(client, db, user)
  {
    assert Owned(db) && Counted(db);
    hide Inv;
  }

  // ----- paging back -----------------------------------------------------------------------------

  /** Below any bound inside the conversation, an older page is the block of messages that ends right
      under the bound, and it says whether anything is left under the block. */
  lemma OlderBlock(db: Tables, user: User, q: Query)
    requires Inv(db) && ActiveKnown(db) && user in db.active && q.before.Some?
    requires 1 <= q.before.value <= db.conversations[db.active[user]].sequence + 1
    ensures var c, page := db.active[user], PageOf(db, user, q);
            && |page.messages| <= q.before.value
            && (forall p :: 0 <= p < |page.messages| ==> page.messages[p].sequence == q.before.value - |page.messages| + p)
            && (page.hasOlder ==> page.messages != [])
            && (!page.hasOlder ==> forall i :: InConversation(db, i, c) && db.messages[i].sequence < q.before.value ==> db.messages[i] in page.messages)
            && Genuine(page, db, c)
  {
    var c, page := db.active[user], PageOf(db, user, q);
    BackPage(db, user, q);
    assert Rows(db);
    assert page.messages != [] ==> FloorOf(page) <= page.messages[0].sequence;
    hide Inv, PageOf, ActiveKnown;
    forall p | 0 <= p < |page.messages|
      ensures page.messages[p].sequence == q.before.value - |page.messages| + p
    {
      BlockAt(db, c, q, page, p);
    }
    if page.messages != [] {
      assert page.messages[0] in page.messages && 1 <= page.messages[0].sequence by { FirstSequence(db, c, page.messages[0]); }
    }
  }

  lemma FirstSequence(db: Tables, c: Id, m: Message)
    requires Counted(db) && InConversation(db, m.id, c) && db.messages[m.id] == m
    ensures 1 <= m.sequence
  {
  }

  lemma {:induction false} BlockAt(db: Tables, c: Id, q: Query, page: Page, p: nat)
    requires Rows(db) && c in db.conversations && q.before.Some? && q.before.value <= db.conversations[c].sequence + 1
    requires Genuine(page, db, c) && Ordered(page.messages, BySequence) && p < |page.messages|
    requires forall m :: m in page.messages ==> InReach(m, q) && FloorOf(page) <= m.sequence
    requires forall i :: InConversation(db, i, c) && InReach(db.messages[i], q) && FloorOf(page) <= db.messages[i].sequence ==> db.messages[i] in page.messages
    ensures page.messages[p].sequence == q.before.value - |page.messages| + p
    decreases |page.messages| - p
  {
    NextOnPage(db, c, q, page, p);
    hide Rows, Genuine, InReach, FloorOf, Ordered;
    if p + 1 < |page.messages| {
      BlockAt(db, c, q, page, p + 1);
    }
  }

  /** On an older page each message is followed by the next sequence, up to the bound. */
  lemma NextOnPage(db: Tables, c: Id, q: Query, page: Page, p: nat)
    requires Rows(db) && c in db.conversations && q.before.Some? && q.before.value <= db.conversations[c].sequence + 1
    requires Genuine(page, db, c) && Ordered(page.messages, BySequence) && p < |page.messages|
    requires forall m :: m in page.messages ==> InReach(m, q) && FloorOf(page) <= m.sequence
    requires forall i :: InConversation(db, i, c) && InReach(db.messages[i], q) && FloorOf(page) <= db.messages[i].sequence ==> db.messages[i] in page.messages
    ensures page.messages[p].sequence < q.before.value
    ensures if p + 1 < |page.messages| then page.messages[p + 1].sequence == page.messages[p].sequence + 1
            else page.messages[p].sequence + 1 == q.before.value
  {
    var m := page.messages[p];
    assert m in page.messages;
    hide Rows, FloorOf;
    if m.sequence + 1 < q.before.value {
      var j := SequenceExists(db, c, m.id, m.sequence + 1);
      assert db.messages[j] in page.messages;
      var r :| 0 <= r < |page.messages| && page.messages[r] == db.messages[j];
      assert p < r;
    }
    if p + 1 < |page.messages| {
      assert page.messages[p + 1] in page.messages;
    }
  }

  /** One round of paging: others are served, then the tab asks for an older page. */
  datatype Round = Round(run: seq<Event>, at: Tick, limit: nat)

  /** The tables the round's page is read from. */
  ghost function Answered(db: Tables, user: User, round: Round): (now: Tables)
    requires Inv(db)
    ensures Inv(now) && ActiveKnown(now)
  {
    Seen(After(db, round.run), user, round.at)
  }

  datatype Paging = Paging(collected: seq<Message>, low: nat, complete: bool, db: Tables)

  /** One more page, asked for below the lowest message collected so far. */
  ghost function Paged(p: Paging, user: User, round: Round): (next: Paging)
    requires Inv(p.db)
    ensures Inv(next.db)
  {
    var now := Answered(p.db, user, round);
    var page := PageOf(now, user, Query(0, Some(p.low), round.limit, if user in now.active then Some(now.active[user]) else None));
    Paging(page.messages + p.collected, if page.messages == [] then p.low else page.messages[0].sequence, !page.hasOlder, now)
  }

  ghost function Rounds(db: Tables, user: User, before: nat, rounds: seq<Round>): (p: Paging)
    requires Inv(db)
    ensures Inv(p.db)
    decreases |rounds|
  {
    if rounds == [] then Paging([], before, false, db)
    else Paged(Rounds(db, user, before, rounds[..|rounds| - 1]), user, rounds[|rounds| - 1])
  }

  lemma {:induction false} RunEvolves(db: Tables, run: seq<Event>)
    requires Inv(db)
    ensures Evolves(db, After(db, run))
    decreases |run|
  {
    hide Inv, Evolves, Next;
    if run == [] {
      SameEvolves(db);
    } else {
      var before, last := After(db, run[..|run| - 1]), run[|run| - 1];
      RunEvolves(db, run[..|run| - 1]);
      NextEvolves(before, last.op, last.at);
      EvolvesTwice(db, before, Next(before, last.op, last.at).0);
    }
  }

  lemma RoundEvolves(db: Tables, user: User, round: Round)
    requires Inv(db)
    ensures Evolves(db, Answered(db, user, round))
  {
    hide Inv, Evolves, Next, After;
    RunEvolves(db, round.run);
    NextEvolves(After(db, round.run), Op.Read(user), round.at);
    EvolvesTwice(db, After(db, round.run), Answered(db, user, round));
  }

  lemma {:induction false} RoundsEvolve(db: Tables, user: User, before: nat, rounds: seq<Round>)
    requires Inv(db)
    ensures Evolves(db, Rounds(db, user, before, rounds).db)
    decreases |rounds|
  {
    hide Inv, Evolves, Answered, PageOf;
    if rounds == [] {
      SameEvolves(db);
    } else {
      var p, last := Rounds(db, user, before, rounds[..|rounds| - 1]), rounds[|rounds| - 1];
      RoundsEvolve(db, user, before, rounds[..|rounds| - 1]);
      RoundEvolves(p.db, user, last);
      EvolvesTwice(db, p.db, Answered(p.db, user, last));
    }
  }

  /** The collected messages are the server's, numbered without a gap from `low` to right under `before`. */
  ghost predicate Gathered(collected: seq<Message>, low: nat, before: nat, db: Tables, c: Id) {
    && low <= before && |collected| == before - low
    && (forall n :: 0 <= n < |collected| ==> collected[n].sequence == low + n)
    && (forall m :: m in collected ==> InConversation(db, m.id, c) && SameQuestion(m, db.messages[m.id]))
  }

  /** The conversation lives on, without a reset, and it is still the user's. */
  lemma StillThere(db: Tables, mid: Tables, end: Tables, user: User)
    requires Inv(db) && Inv(mid) && Evolves(db, mid) && Evolves(mid, end) && user in db.active
    requires var c := db.active[user];
             c in end.conversations && end.conversations[c].resetRevision == db.conversations[c].resetRevision
    ensures var c := db.active[user];
            && c in db.conversations && c in mid.conversations && user in mid.active && mid.active[user] == c
            && mid.conversations[c].resetRevision == db.conversations[c].resetRevision
            && db.conversations[c].sequence <= mid.conversations[c].sequence
  {
    var c := db.active[user];
    assert Issued(db) && Owned(db) && Owned(mid);
    hide Inv, Issued, Grows;
    assert c < db.nextId by { IdIssued(db, c); }
    assert Grows(db, mid, c) && Grows(mid, end, c);
    GrowthIsMonotone(db, mid, c);
    GrowthIsMonotone(mid, end, c);
  }

  lemma IdIssued(db: Tables, c: Id)
    requires Issued(db) && c in db.conversations
    ensures c < db.nextId
  {
  }

  lemma GrowthIsMonotone(a: Tables, b: Tables, c: Id)
    requires c in a.conversations && c in b.conversations && Grows(a, b, c)
    requires a.conversations[c].resetRevision <= a.conversations[c].revision
    ensures a.conversations[c].user == b.conversations[c].user && a.conversations[c].sequence <= b.conversations[c].sequence
    ensures a.conversations[c].resetRevision <= b.conversations[c].resetRevision
  {
  }

  lemma {:induction false} GatheredSurvives(collected: seq<Message>, low: nat, before: nat, a: Tables, b: Tables, c: Id)
    requires Gathered(collected, low, before, a, c) && c in a.conversations && c in b.conversations && Grows(a, b, c)
    requires a.conversations[c].resetRevision == b.conversations[c].resetRevision
    ensures Gathered(collected, low, before, b, c)
  {
  }

  /** Paging back to the start, while others append messages and update proposals but nobody resets:
      every message under the first bound is collected, once and in order, after as many pages at most. */
  lemma {:induction false} PagingCollectsAll(db: Tables, user: User, before: nat, rounds: seq<Round>)
    requires Inv(db) && user in db.active && db.active[user] in db.conversations
    requires 1 <= before <= db.conversations[db.active[user]].sequence + 1
    requires var c, end := db.active[user], Rounds(db, user, before, rounds).db;
             c in end.conversations && end.conversations[c].resetRevision == db.conversations[c].resetRevision
    ensures var p := Rounds(db, user, before, rounds);
            && 1 <= p.low && Gathered(p.collected, p.low, before, p.db, db.active[user])
            && (p.complete ==> forall i :: InConversation(p.db, i, db.active[user]) ==> p.low <= p.db.messages[i].sequence)
            && (p.complete || |p.collected| >= |rounds|)
    ensures |rounds| >= before ==> Rounds(db, user, before, rounds).complete
    decreases |rounds|
  {
    if rounds != [] {
      var c, last, front := db.active[user], rounds[|rounds| - 1], rounds[..|rounds| - 1];
      var p, end := Rounds(db, user, before, front), Rounds(db, user, before, rounds);
      hide Inv, Evolves, Answered, PageOf, Gathered, ActiveKnown;
      RoundsEvolve(db, user, before, front);
      RoundEvolves(p.db, user, last);
      StillThere(db, p.db, end.db, user);
      PagingCollectsAll(db, user, before, front);
      RoundGathers(p, end, user, before, c, last);
    }
  }

  lemma RoundGathers(p: Paging, end: Paging, user: User, before: nat, c: Id, round: Round)
    requires Inv(p.db) && Inv(end.db) && ActiveKnown(end.db) && Evolves(p.db, end.db)
    requires user in p.db.active && p.db.active[user] == c && c in p.db.conversations && c in end.db.conversations
    requires p.db.conversations[c].resetRevision == end.db.conversations[c].resetRevision
    requires 1 <= p.low <= before <= p.db.conversations[c].sequence + 1 && Gathered(p.collected, p.low, before, p.db, c)
    requires var q := Query(0, Some(p.low), round.limit, if user in end.db.active then Some(end.db.active[user]) else None);
             var page := PageOf(end.db, user, q);
             end == Paging(page.messages + p.collected, if page.messages == [] then p.low else page.messages[0].sequence, !page.hasOlder, end.db)
    ensures 1 <= end.low && Gathered(end.collected, end.low, before, end.db, c)
    ensures end.complete ==> forall i :: InConversation(end.db, i, c) ==> end.low <= end.db.messages[i].sequence
    ensures end.complete || |end.collected| > |p.collected|
    ensures (p.complete ==> forall i :: InConversation(p.db, i, c) ==> p.low <= p.db.messages[i].sequence) && p.complete ==> end.complete
  {
    hide Inv, Rows, Issued, Owned, Counted, Unique, Paired, Receipts, OnePending, PendingAtTail, PageOf, Grows, ActiveKnown, Evolves, Gathered, Genuine;
    InvParts(p.db);
    InvParts(end.db);
    SameConversation(p.db, end.db, user, c);
    GatheredSurvives(p.collected, p.low, before, p.db, end.db, c);
    var q := Query(0, Some(p.low), round.limit, Some(c));
    var page := PageOf(end.db, user, q);
    OlderBlock(end.db, user, q);
    BlockJoins(page, p.collected, p.low, before, end.db, c);
    if p.complete && forall i :: InConversation(p.db, i, c) ==> p.low <= p.db.messages[i].sequence {
      CompleteStays(p.db, end.db, c, p.low, page);
    }
  }

  /** Below the lowest message nothing appears. */
  lemma CompleteStays(a: Tables, b: Tables, c: Id, low: nat, page: Page)
    requires c in a.conversations && c in b.conversations && Grows(a, b, c) && low <= a.conversations[c].sequence + 1
    requires forall i :: InConversation(a, i, c) ==> low <= a.messages[i].sequence
    requires Genuine(page, b, c) && |page.messages| <= low && (page.hasOlder ==> page.messages != [])
    requires forall n :: 0 <= n < |page.messages| ==> page.messages[n].sequence == low - |page.messages| + n
    ensures !page.hasOlder
  {
    forall i | InConversation(b, i, c)
      ensures low <= b.messages[i].sequence
    {
    }
    hide Grows;
    assert page.messages != [] ==> page.messages[0] in page.messages;
  }

  lemma SameConversation(a: Tables, b: Tables, user: User, c: Id)
    requires Owned(a) && Owned(b) && Evolves(a, b) && user in a.active && a.active[user] == c && c in a.conversations && c in b.conversations
    ensures Grows(a, b, c) && user in b.active && b.active[user] == c && a.conversations[c].sequence <= b.conversations[c].sequence
  {
    assert Grows(a, b, c);
    GrowthIsMonotone(a, b, c);
    hide Grows;
  }

  /** The block of a page goes right below what is collected. */
  lemma {:induction false} BlockJoins(page: Page, collected: seq<Message>, low: nat, before: nat, db: Tables, c: Id)
    requires Counted(db) && Gathered(collected, low, before, db, c) && Genuine(page, db, c) && 1 <= low && |page.messages| <= low
    requires forall n :: 0 <= n < |page.messages| ==> page.messages[n].sequence == low - |page.messages| + n
    ensures var newLow := if page.messages == [] then low else page.messages[0].sequence;
      1 <= newLow && Gathered(page.messages + collected, newLow, before, db, c)
  {
    forall m | m in page.messages
      ensures 1 <= m.sequence && InConversation(db, m.id, c) && SameQuestion(m, db.messages[m.id])
    {
      FirstSequence(db, c, m);
    }
    hide Counted;
    assert page.messages != [] ==> page.messages[0] in page.messages;
  }

  /** Nothing is collected twice, and every message of the block is collected. */
  lemma CollectedOnce(p: Paging, before: nat, c: Id, i: Id)
    requires Inv(p.db) && Gathered(p.collected, p.low, before, p.db, c)
    requires InConversation(p.db, i, c) && p.low <= p.db.messages[i].sequence < before
    ensures forall n :: 0 <= n < |p.collected| ==> (p.collected[n].id == i <==> n == p.db.messages[i].sequence - p.low)
  {
    assert Unique(p.db);
    forall n | 0 <= n < |p.collected|
      ensures p.collected[n].id == i <==> n == p.db.messages[i].sequence - p.low
    {
      assert p.collected[n] in p.collected;
      assert InConversation(p.db, p.collected[n].id, c);
    }
  }
}
