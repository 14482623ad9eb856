/** The polling browser tab, and why it agrees with the server. */
module ChatClient {
  import opened Clock
  import opened ChatTables
  import opened ChatInvariant
  import opened ChatFeed
  import opened Wrappers

  /** What a tab holds: the conversation and cursor it sends back, the messages by identifier, and
      the lowest sequence from which its window has no gaps (0 when nothing older exists). */
  datatype Client = Client(id: Option<Id>, cursor: nat, held: map<Id, Message>, floor: nat)

  const FRESH := Client(None, 0, map[], 0)

  function Upsert(held: map<Id, Message>, page: seq<Message>): map<Id, Message> {
    if page == [] then held else Upsert(held, page[..|page| - 1])[page[|page| - 1].id := page[|page| - 1]]
  }

  function PollQuery(client: Client, limit: nat): Query {
    Query(client.cursor, None, limit, client.id)
  }

  function OlderQuery(client: Client, before: nat, limit: nat): Query {
    Query(0, Some(before), limit, client.id)
  }

  function FloorOf(page: Page): nat {
    if page.hasOlder && page.messages != [] then page.messages[0].sequence else 0
  }

  /** Take in a poll: replace on reset, otherwise upsert; adopt the page's conversation and cursor. */
  function Apply(client: Client, page: Page): Client {
    match page.head
    case None => Client(None, 0, Upsert(map[], page.messages), 0)
    case Some(head) =>
      if page.reset || client.id != Some(head.id) then
        Client(Some(head.id), head.revision, Upsert(map[], page.messages), FloorOf(page))
      else
        client.(cursor := head.revision, held := Upsert(client.held, page.messages))
  }

  /** Take in an older page: upsert it under the window, keep the cursor. */
  function ApplyOlder(client: Client, page: Page): Client {
    if page.head.None? || client.id != Some(page.head.value.id) then client
    else client.(held := Upsert(client.held, page.messages), floor := FloorOf(page))
  }

  // ----- agreement -------------------------------------------------------------------------------

  /** The tab is looking at a live conversation of the user, and no reset happened behind its cursor. */
  ghost predicate Current(client: Client, db: Tables, user: User) {
    && client.id.Some? && client.id.value in db.conversations
    && db.conversations[client.id.value].user == user
    && db.conversations[client.id.value].resetRevision <= client.cursor
  }

  /** A held message is the server's, or the server's before a change past the cursor. */
  ghost predicate HeldAgrees(client: Client, db: Tables, c: Id) {
    forall i :: i in client.held ==> InConversation(db, i, c) && UpToChanges(client.held[i], db.messages[i], client.cursor)
  }

  ghost predicate UpToChanges(held: Message, row: Message, cursor: nat) {
    row == held || (SameQuestion(held, row) && row.revision > cursor)
  }

  /** Everything in the window up to the cursor is held. */
  ghost predicate WindowHeld(client: Client, db: Tables, c: Id) {
    forall i :: InConversation(db, i, c) && db.messages[i].sequence >= client.floor && db.messages[i].revision <= client.cursor ==> i in client.held
  }

  /** What is true of a tab at any moment, whatever the server did since its last poll. */
  ghost predicate Agrees(client: Client, db: Tables, user: User) {
    && (if client.id.Some? then client.id.value < db.nextId else client.cursor == 0 && client.held == map[])
    && (Current(client, db, user) ==>
          && client.cursor <= db.conversations[client.id.value].revision
          && client.floor <= db.conversations[client.id.value].sequence
          && HeldAgrees(client, db, client.id.value)
          && WindowHeld(client, db, client.id.value))
  }

  /** The tab shows exactly the server's messages of its window, nothing that is gone, and is up to date. */
  ghost predicate Exact(client: Client, db: Tables, user: User) {
    if user !in db.active then client.id == None && client.held == map[]
    else
      var c := db.active[user];
      && client.id == Some(c) && c in db.conversations && client.cursor == db.conversations[c].revision
      && (forall i :: i in client.held ==> InConversation(db, i, c) && db.messages[i] == client.held[i])
      && (forall i :: InConversation(db, i, c) && db.messages[i].sequence >= client.floor ==> i in client.held)
  }

  // ----- what a server step can do to a conversation ---------------------------------------------

  ghost predicate SameQuestion(m: Message, n: Message) {
    n == m.(proposal := n.proposal, revision := n.revision)
  }

  /** Messages only appear above the counters, only change with a higher revision, and only vanish
      under a new reset revision. */
  ghost predicate Grows(a: Tables, b: Tables, c: Id)
    requires c in a.conversations && c in b.conversations
  {
    var x, y := a.conversations[c], b.conversations[c];
    && x.user == y.user && x.revision <= y.revision && x.sequence <= y.sequence
    && (x.resetRevision == y.resetRevision || x.revision < y.resetRevision)
    && (forall i: Id :: InConversation(b, i, c) ==>
          if InConversation(a, i, c) then b.messages[i] == a.messages[i] || (SameQuestion(a.messages[i], b.messages[i]) && b.messages[i].revision > x.revision)
          else i >= a.nextId && b.messages[i].revision > x.revision && b.messages[i].sequence > x.sequence)
    && (x.resetRevision == y.resetRevision ==> forall i :: InConversation(a, i, c) ==> InConversation(b, i, c))
  }

  ghost predicate Evolves(a: Tables, b: Tables) {
    && a.nextId <= b.nextId
    && (forall c :: c in b.conversations && c !in a.conversations ==> c >= a.nextId)
    && (forall c :: c in a.conversations && c in b.conversations ==> Grows(a, b, c))
  }

  lemma AgreesThrough(client: Client, a: Tables, b: Tables, user: User)
    requires Inv(a) && Agrees(client, a, user) && Evolves(a, b)
    ensures Agrees(client, b, user)
  {
    if Current(client, b, user) {
      var c := client.id.value;
      assert c in a.conversations && Grows(a, b, c);
      assert a.conversations[c].resetRevision <= a.conversations[c].revision;
      assert Current(client, a, user);
      forall i | i in client.held
        ensures InConversation(b, i, c) && UpToChanges(client.held[i], b.messages[i], client.cursor)
      {
        assert InConversation(a, i, c);
      }
    }
  }

  lemma FinishEvolves(db: Tables, k: TurnKey, response: Response, http: nat, status: Terminal, now: Stamp)
    requires Inv(db) && Finishable(db)
    ensures Evolves(db, FinishTurn(db, k, response, http, status, now))
  {
    hide Inv, Evolves, Issued, Owned, Counted, Unique, Paired, Receipts, OnePending, PendingAtTail, MessagesKnown, Finishable;
    InvParts(db);
    KnownActive(db);
    if PendingTurn(db, k) {
      FinishableAt(db, k);
      OneMessageEvolves(db, FinishTurn(db, k, response, http, status, now), db.turns[k].conversation);
    } else {
      SameEvolves(db);
    }
  }

  lemma ExpireEvolves(db: Tables, who: Option<User>, at: Tick)
    requires Inv(db) && Finishable(db)
    ensures Evolves(db, Expire(db, who, at))
  {
    hide Evolves, FinishTurn, Stale, Inv, Finishable, Expire;
    OneStale(db, who, at);
    if k :| Stale(db, k, who, at.cutoff) {
      FinishEvolves(db, k, INTERRUPTED, 500, Failed, at.now);
    } else {
      SameEvolves(db);
    }
  }

  lemma SameEvolves(db: Tables)
    ensures Evolves(db, db)
  {
  }

  lemma StartEvolves(db: Tables, op: Op, now: Stamp)
    requires Inv(db) && op.Start? && ActiveKnown(db)
    ensures Evolves(db, StartTurn(db, op, now).0)
  {
    hide Inv, Evolves, Owned, Counted, Unique, Paired, Receipts, OnePending, PendingAtTail, MessagesKnown;
    InvParts(db);
    KnownActive(db);
    var (after, answer) := StartTurn(db, op, now);
    if answer.Run? {
      OneMessageEvolves(db, after, answer.conversation);
    } else {
      UnstartedChangesNothing(db, op, now);
      SameEvolves(db);
    }
  }

  /** One new message at the top of a conversation, the conversation itself possibly new. */
  lemma OneMessageEvolves(db: Tables, after: Tables, c: Id)
    requires Issued(db) && MessagesKnown(db) && db.nextId < after.nextId && c in after.conversations
    requires after.conversations == db.conversations[c := after.conversations[c]] && (c in db.conversations || c == db.nextId)
    requires after.nextId - 1 in after.messages && after.messages == db.messages[after.nextId - 1 := after.messages[after.nextId - 1]]
    requires after.messages[after.nextId - 1].conversation == c
    requires after.messages[after.nextId - 1].sequence == after.conversations[c].sequence
    requires after.messages[after.nextId - 1].revision == after.conversations[c].revision
    requires c in db.conversations ==> after.conversations[c] == Bumped(db.conversations[c], true)
    ensures Evolves(db, after)
  {
  }

  lemma ResetEvolves(db: Tables, user: User, conversation: Option<Id>)
    requires Inv(db) && ActiveKnown(db)
    ensures Evolves(db, ResetConversation(db, user, conversation).0)
  {
    hide Inv, ActiveKnown, Evolves, Erase, ResetConversation, Issued, Owned, Counted, Unique, Paired, Receipts, OnePending, PendingAtTail;
    ResetErasesOrNothing(db, user, conversation);
    InvParts(db);
    if ResetConversation(db, user, conversation).0 == db {
      SameEvolves(db);
    } else {
      KnownConversation(db, user);
      EraseEvolves(db, db.active[user]);
    }
  }

  lemma KnownConversation(db: Tables, user: User)
    requires Owned(db) && user in db.active
    ensures var c := db.active[user]; c in db.conversations && db.conversations[c].resetRevision <= db.conversations[c].revision
  {
  }

  lemma EraseEvolves(db: Tables, c: Id)
    requires c in db.conversations && db.conversations[c].resetRevision <= db.conversations[c].revision
    ensures Evolves(db, Erase(db, c))
  {
  }

  lemma ProposalEvolves(db: Tables, user: User, message: Id, proposal: Proposal)
    requires Inv(db) && MessagesKnown(db)
    ensures Evolves(db, SetProposal(db, user, message, proposal).0)
  {
    hide Inv, Evolves, Issued, Owned, Unique, Paired, Receipts, OnePending, PendingAtTail, MessagesKnown;
    InvParts(db);
    if SetProposal(db, user, message, proposal).1.Refused? {
      SameEvolves(db);
    } else {
      assert db.messages[message].conversation in db.conversations by { KnownMessage(db, message); }
      OneChangeEvolves(db, SetProposal(db, user, message, proposal).0, message);
    }
  }

  lemma KnownMessage(db: Tables, i: Id)
    requires MessagesKnown(db) && i in db.messages
    ensures db.messages[i].conversation in db.conversations
  {
  }

  /** One message changes, under the next revision of its conversation. */
  lemma OneChangeEvolves(db: Tables, after: Tables, i: Id)
    requires i in db.messages && i in after.messages && SameQuestion(db.messages[i], after.messages[i])
    requires var c := db.messages[i].conversation;
      && c in db.conversations && after.nextId == db.nextId
      && after.conversations == db.conversations[c := Bumped(db.conversations[c], false)]
      && after.messages == db.messages[i := after.messages[i]] && after.messages[i].revision == after.conversations[c].revision
    ensures Evolves(db, after)
  {
  }

  lemma ClearEvolves(db: Tables)
    ensures Evolves(db, ClearWorkspace(db).0)
  {
  }

  lemma GrowsTwice(a: Tables, b: Tables, d: Tables, c: Id)
    requires c in a.conversations && c in b.conversations && c in d.conversations
    requires Issued(a) && Issued(b) && a.nextId <= b.nextId && Grows(a, b, c) && Grows(b, d, c)
    requires a.conversations[c].resetRevision <= a.conversations[c].revision && b.conversations[c].resetRevision <= b.conversations[c].revision
    ensures Grows(a, d, c)
  {
    forall i: Id | InConversation(d, i, c)
      ensures if InConversation(a, i, c) then d.messages[i] == a.messages[i] || (SameQuestion(a.messages[i], d.messages[i]) && d.messages[i].revision > a.conversations[c].revision)
              else i >= a.nextId && d.messages[i].revision > a.conversations[c].revision && d.messages[i].sequence > a.conversations[c].sequence
    {
      assert InConversation(a, i, c) && !InConversation(b, i, c) ==> i < a.nextId;
    }
  }

  lemma EvolvesTwice(a: Tables, b: Tables, d: Tables)
    requires Inv(a) && Inv(b) && Evolves(a, b) && Evolves(b, d)
    ensures Evolves(a, d)
  {
    forall c | c in a.conversations && c in d.conversations
      ensures Grows(a, d, c)
    {
      assert c in b.conversations by { assert c < a.nextId; }
      assert Issued(a) && Issued(b) && Owned(a) && Owned(b);
      hide Inv, Grows, Issued;
      GrowsTwice(a, b, d, c);
    }
    hide Inv, Grows;
  }

  /** Every request, whatever it does to turns, only grows the conversations it leaves in place. */
  lemma NextEvolves(db: Tables, op: Op, at: Tick)
    requires Inv(db)
    ensures Evolves(db, Next(db, op, at).0)
  {
    hide Inv, Finishable, ActiveKnown, MessagesKnown, Evolves, Expire, StartTurn, ResetConversation, ClearWorkspace, SetProposal, FinishTurn;
    AlwaysFinishable(db);
    KnownActive(db);
    SameEvolves(db);
    match op
    case Start(_, _, _, _, _) =>
      var expired := ExpiredEvolves(db, None, at);
      StartEvolves(expired, op, at.now);
      EvolvesTwice(db, expired, StartTurn(expired, op, at.now).0);
    case Finish(u, turn, response, http, status) => FinishEvolves(db, TurnKey(u, turn), response, http, status, at.now);
    case Heartbeat(_, _) => FlagsEvolve(db, Next(db, op, at).0);
    case Cancel(_, _) => FlagsEvolve(db, Next(db, op, at).0);
    case Reset(u, conversation) =>
      var expired := ExpiredEvolves(db, Some(u), at);
      ResetEvolves(expired, u, conversation);
      EvolvesTwice(db, expired, ResetConversation(expired, u, conversation).0);
    case UpdateProposal(u, message, proposal) => ProposalEvolves(db, u, message, proposal);
    case Clear =>
      var expired := ExpiredEvolves(db, None, at);
      ClearEvolves(expired);
      EvolvesTwice(db, expired, ClearWorkspace(expired).0);
    case Read(u) => ExpireEvolves(db, Some(u), at);
  }

  lemma ExpiredEvolves(db: Tables, who: Option<User>, at: Tick) returns (expired: Tables)
    requires Inv(db)
    ensures Finishable(db) && expired == Expire(db, who, at) && Inv(expired) && ActiveKnown(expired) && Evolves(db, expired)
  {
    hide Inv, Evolves, Expire, ActiveKnown;
    ExpireKeepsInv(db, who, at);
    ExpireEvolves(db, who, at);
    expired := Expire(db, who, at);
  }

  /** No request of anyone breaks the agreement. */
  lemma ServerKeepsAgreement(client: Client, db: Tables, op: Op, at: Tick, user: User)
    requires Inv(db) && Agrees(client, db, user)
    ensures Agrees(client, Next(db, op, at).0, user)
  {
    hide Inv, Agrees, Evolves, Next;
    NextEvolves(db, op, at);
    AgreesThrough(client, db, Next(db, op, at).0, user);
  }

  lemma FlagsEvolve(db: Tables, after: Tables)
    requires after.messages == db.messages && after.conversations == db.conversations && after.nextId == db.nextId
    ensures Evolves(db, after)
  {
  }

  // ----- what a page holds -----------------------------------------------------------------------

  /** The page shows rows of the snapshot, each under its own identifier. */
  ghost predicate Genuine(page: Page, db: Tables, c: Id) {
    forall m :: m in page.messages ==> InConversation(db, m.id, c) && db.messages[m.id] == m
  }

  lemma RowIsGenuine(db: Tables, c: Id, m: Message)
    requires Rows(db)
    ensures m in RowsOf(db, c) <==> InConversation(db, m.id, c) && db.messages[m.id] == m
  {
    if m in RowsOf(db, c) {
      var i :| i in db.messages && db.messages[i].conversation == c && db.messages[i] == m;
    }
  }

  /** What the query lists before LIMIT, in page order. */
  lemma ListedFacts(db: Tables, c: Id, q: Query, col: Column)
    requires Rows(db) && c in db.conversations
    ensures var rows := Selected(db, c, q);
            var listed := Ascending(rows, col);
            && |listed| == |rows| && Ordered(listed, col)
            && (forall m :: m in listed <==> m in rows)
            && (forall m :: m in rows ==> InConversation(db, m.id, c) && db.messages[m.id] == m)
  {
    RowsAreKeyed(db, c, col);
    AscendingIsOrdered(Selected(db, c, q), col);
    forall m | m in Selected(db, c, q)
      ensures InConversation(db, m.id, c) && db.messages[m.id] == m
    {
      RowIsGenuine(db, c, m);
    }
  }

  /** A poll that continues: the changes right after the cursor, none left out up to the new cursor. */
  lemma DeltaPage(db: Tables, user: User, q: Query)
    requires Inv(db) && ActiveKnown(db) && user in db.active && q.before.None?
    requires !MustReset(db.conversations[db.active[user]], db.active[user], q)
    ensures var c, page := db.active[user], PageOf(db, user, q);
            && page.head.Some? && page.head.value.id == c && !page.reset && Genuine(page, db, c)
            && q.after <= page.head.value.revision <= db.conversations[c].revision
            && (forall i :: InConversation(db, i, c) && q.after < db.messages[i].revision <= page.head.value.revision ==> db.messages[i] in page.messages)
            && (forall m :: m in page.messages ==> q.after < m.revision)
            && (if page.hasMore then q.after < page.head.value.revision else page.head.value.revision == db.conversations[c].revision)
  {
    hide Inv, PageOf, RowsOf, MustReset, ActiveKnown, Ordered;
    var listed := DeltaPageShape(db, user, q);
    var c, page := db.active[user], PageOf(db, user, q);
    RowsCover(db, c);
    PrefixFacts(listed, |page.messages|);
  }

  lemma {:induction false} PrefixFacts(listed: seq<Message>, n: nat)
    requires Ordered(listed, ByRevision) && n <= |listed|
    ensures forall m :: m in listed[..n] ==> m in listed && m.revision <= listed[n - 1].revision
    ensures forall m :: m in listed && (n == |listed| || (n > 0 && m.revision <= listed[n - 1].revision)) ==> m in listed[..n]
    ensures n > 0 ==> listed[n - 1] in listed && listed[n - 1] in listed[..n]
  {
    forall m | m in listed && (n == |listed| || (n > 0 && m.revision <= listed[n - 1].revision))
      ensures m in listed[..n]
    {
      var p :| 0 <= p < |listed| && listed[p] == m;
      assert p < n && listed[..n][p] == m;
    }
    if n > 0 {
      assert listed[..n][n - 1] == listed[n - 1];
    }
  }

  /** A continuing page is the start of the changed rows, in revision order. */
  lemma DeltaPageShape(db: Tables, user: User, q: Query) returns (listed: seq<Message>)
    requires Inv(db) && ActiveKnown(db) && user in db.active && q.before.None?
    requires !MustReset(db.conversations[db.active[user]], db.active[user], q)
    ensures var c, page := db.active[user], PageOf(db, user, q);
            && q.after <= db.conversations[c].revision
            && page.head.Some? && page.head.value.id == c && !page.reset && Ordered(listed, ByRevision)
            && |page.messages| <= |listed| && page.messages == listed[..|page.messages|]
            && (if page.hasMore then page.messages != [] && page.head.value.revision == listed[|page.messages| - 1].revision
                else page.messages == listed && page.head.value.revision == db.conversations[c].revision)
            && (forall m :: m in listed <==> m in RowsOf(db, c) && q.after < m.revision)
            && (forall m :: m in listed ==> InConversation(db, m.id, c) && db.messages[m.id] == m && m.revision <= db.conversations[c].revision)
  {
    hide Inv, Rows, Issued, Owned, Unique, Paired, Receipts, OnePending, PendingAtTail, Ascending, Selected, RowsOf, ActiveKnown, Ordered, HeadOf;
    InvParts(db);
    ActiveIssued(db, user);
    var c := db.active[user];
    listed := Ascending(Selected(db, c, q), ByRevision);
    ListedFacts(db, c, q, ByRevision);
    SelectedRows(db, c, q);
    HeadsUp(db, c);
  }

  lemma SelectedRows(db: Tables, c: Id, q: Query)
    requires c in db.conversations
    ensures forall m :: m in Selected(db, c, q) <==>
      m in RowsOf(db, c) && InReach(m, q) && (q.before.Some? || MustReset(db.conversations[c], c, q) || q.after < m.revision)
  {
    hide RowsOf, MustReset;
  }

  lemma HeadsUp(db: Tables, c: Id)
    ensures forall revision :: HeadOf(db, c, revision).id == c && HeadOf(db, c, revision).revision == revision
  {
  }

  /** Where a page that looks back stops looking: the query's bound, or the end. */
  ghost predicate InReach(m: Message, q: Query) {
    q.before.Some? ==> m.sequence < q.before.value
  }

  /** A first page, or an older one: the newest rows in reach, none left out above the page's floor. */
  lemma BackPage(db: Tables, user: User, q: Query)
    requires Inv(db) && ActiveKnown(db) && user in db.active
    requires q.before.Some? || MustReset(db.conversations[db.active[user]], db.active[user], q)
    ensures var c, page := db.active[user], PageOf(db, user, q);
            && page.head.Some? && page.head.value.id == c && page.reset == q.before.None? && !page.hasMore && Genuine(page, db, c)
            && page.head.value.revision == db.conversations[c].revision
            && Ordered(page.messages, BySequence)
            && (forall m :: m in page.messages ==> InReach(m, q) && FloorOf(page) <= m.sequence)
            && (forall i :: InConversation(db, i, c) && InReach(db.messages[i], q) && FloorOf(page) <= db.messages[i].sequence ==> db.messages[i] in page.messages)
            && (page.hasOlder ==> page.messages != [] && exists i :: InConversation(db, i, c) && db.messages[i].sequence < FloorOf(page))
  {
    hide Inv, PageOf, RowsOf, MustReset, InReach, ActiveKnown, Ordered;
    var listed, skip := BackPageShape(db, user, q);
    var c, page := db.active[user], PageOf(db, user, q);
    RowsCover(db, c);
    SuffixFacts(listed, skip);
    if page.hasOlder {
      assert InConversation(db, listed[0].id, c);
    }
  }

  lemma RowsCover(db: Tables, c: Id)
    ensures forall i :: InConversation(db, i, c) ==> db.messages[i] in RowsOf(db, c)
  {
  }

  /** A page that looks back is the end of the rows in reach, in sequence order. */
  lemma BackPageShape(db: Tables, user: User, q: Query) returns (listed: seq<Message>, skip: nat)
    requires Inv(db) && ActiveKnown(db) && user in db.active
    requires q.before.Some? || MustReset(db.conversations[db.active[user]], db.active[user], q)
    ensures var c, page := db.active[user], PageOf(db, user, q);
            && page.head.Some? && page.head.value.id == c && page.head.value.revision == db.conversations[c].revision
            && page.reset == q.before.None? && !page.hasMore
            && skip <= |listed| && page.messages == listed[skip..] && Ordered(listed, BySequence)
            && (page.hasOlder <==> skip > 0) && (page.messages == [] ==> skip == 0)
            && (forall m :: m in listed <==> m in RowsOf(db, c) && InReach(m, q))
            && (forall m :: m in listed ==> InConversation(db, m.id, c) && db.messages[m.id] == m)
  {
    hide Inv, Rows, Issued, Owned, Counted, Unique, Paired, Receipts, OnePending, PendingAtTail, Ascending, Selected, RowsOf, InReach, ActiveKnown, Ordered, MustReset, HeadOf;
    InvParts(db);
    ActiveIssued(db, user);
    var c := db.active[user];
    listed := Ascending(Selected(db, c, q), BySequence);
    ListedFacts(db, c, q, BySequence);
    SelectedRows(db, c, q);
    HeadsUp(db, c);
    skip := |listed| - |PageOf(db, user, q).messages|;
  }

  lemma {:induction false} SuffixFacts(listed: seq<Message>, skip: nat)
    requires Ordered(listed, BySequence) && skip <= |listed|
    ensures var s := listed[skip..];
            && Ordered(s, BySequence)
            && (forall m :: m in s ==> m in listed && s[0].sequence <= m.sequence)
            && (forall m :: m in listed && (skip == 0 || (s != [] && s[0].sequence <= m.sequence)) ==> m in s)
            && (skip > 0 ==> listed[0] in listed && (s != [] ==> listed[0].sequence < s[0].sequence))
  {
    var s := listed[skip..];
    forall m | m in listed && (skip == 0 || (s != [] && s[0].sequence <= m.sequence))
      ensures m in s
    {
      var p :| 0 <= p < |listed| && listed[p] == m;
      assert p >= skip;
      assert s[p - skip] == m;
    }
  }

  lemma {:induction false} UpsertFacts(held: map<Id, Message>, page: seq<Message>)
    ensures forall m :: m in page ==> m.id in Upsert(held, page) && Upsert(held, page)[m.id] in page && Upsert(held, page)[m.id].id == m.id
    ensures forall i :: i in Upsert(held, page) ==>
      (Upsert(held, page)[i] in page && Upsert(held, page)[i].id == i) || (i in held && Upsert(held, page)[i] == held[i])
    ensures forall i :: i in held ==> i in Upsert(held, page)
    decreases |page|
  {
    if page != [] {
      var rest, last := page[..|page| - 1], page[|page| - 1];
      assert Upsert(held, page) == Upsert(held, rest)[last.id := last];
      hide Upsert;
      UpsertFacts(held, rest);
      InLonger(page);
    }
  }

  lemma {:induction false} InLonger(page: seq<Message>)
    requires page != []
    ensures forall m :: m in page <==> m in page[..|page| - 1] || m == page[|page| - 1]
  {
    assert page == page[..|page| - 1] + [page[|page| - 1]];
  }

  // ----- polling ---------------------------------------------------------------------------------

  ghost function Polled(client: Client, db: Tables, user: User, limit: nat): Client
    requires ActiveKnown(db)
  {
    Apply(client, PageOf(db, user, PollQuery(client, limit)))
  }

  ghost predicate Continues(client: Client, db: Tables, user: User, limit: nat)
    requires ActiveKnown(db)
  {
    PageOf(db, user, PollQuery(client, limit)).hasMore
  }

  /** A poll keeps the agreement; a continuing poll raises the cursor; the last poll makes it exact. */
  lemma PollAgrees(client: Client, db: Tables, user: User, limit: nat)
    requires Inv(db) && ActiveKnown(db) && Agrees(client, db, user)
    ensures var now := Polled(client, db, user, limit);
            && Agrees(now, db, user)
            && (if Continues(client, db, user, limit) then
                  user in db.active && now.id == Some(db.active[user]) && client.cursor < now.cursor <= db.conversations[db.active[user]].revision
                else Exact(now, db, user))
  {
    var q := PollQuery(client, limit);
    if user in db.active {
      if MustReset(db.conversations[db.active[user]], db.active[user], q) {
        ResetPollAgrees(client, db, user, limit);
      } else {
        DeltaPollAgrees(client, db, user, limit);
      }
    }
  }

  lemma ResetPollAgrees(client: Client, db: Tables, user: User, limit: nat)
    requires Inv(db) && ActiveKnown(db) && Agrees(client, db, user) && user in db.active
    requires MustReset(db.conversations[db.active[user]], db.active[user], PollQuery(client, limit))
    ensures var now := Polled(client, db, user, limit);
            Agrees(now, db, user) && Exact(now, db, user) && !Continues(client, db, user, limit)
  {
    hide Inv, PageOf, MustReset, Upsert, ActiveKnown, Issued, Owned, Counted, FloorOf, InReach, Genuine, HeldAgrees, WindowHeld, Agrees, Exact, Ordered;
    var c, q := db.active[user], PollQuery(client, limit);
    var page, now := PageOf(db, user, q), Polled(client, db, user, limit);
    BackPage(db, user, q);
    InvParts(db);
    ActiveIssued(db, user);
    FloorIsCounted(db, c, page);
    assert now == Client(Some(c), page.head.value.revision, Upsert(map[], page.messages), FloorOf(page));
    ResetMergeAgrees(now, db, c, page, q);
    WindowMakesExact(now, db, user, c);
  }

  lemma FloorIsCounted(db: Tables, c: Id, page: Page)
    requires Counted(db) && Genuine(page, db, c) && c in db.conversations
    ensures FloorOf(page) <= db.conversations[c].sequence
  {
    if page.messages != [] {
      assert page.messages[0] in page.messages;
    }
  }

  /** A tab that just replaced what it held, and took the conversation's revision. */
  lemma WindowMakesExact(now: Client, db: Tables, user: User, c: Id)
    requires user in db.active && db.active[user] == c && c in db.conversations && db.conversations[c].user == user && c < db.nextId
    requires now.id == Some(c) && now.cursor == db.conversations[c].revision && now.floor <= db.conversations[c].sequence
    requires HeldAgrees(now, db, c) && WindowHeld(now, db, c)
    requires forall i :: i in now.held ==> InConversation(db, i, c) && db.messages[i] == now.held[i]
    requires forall i :: InConversation(db, i, c) && db.messages[i].sequence >= now.floor ==> i in now.held
    ensures Agrees(now, db, user) && Exact(now, db, user)
  {
  }

  lemma ResetMergeAgrees(now: Client, db: Tables, c: Id, page: Page, q: Query)
    requires Issued(db) && Genuine(page, db, c) && q.before.None?
    requires now.held == Upsert(map[], page.messages) && now.floor == FloorOf(page)
    requires forall i :: InConversation(db, i, c) && InReach(db.messages[i], q) && FloorOf(page) <= db.messages[i].sequence ==> db.messages[i] in page.messages
    ensures HeldAgrees(now, db, c) && WindowHeld(now, db, c)
    ensures forall i :: i in now.held ==> InConversation(db, i, c) && db.messages[i] == now.held[i]
    ensures forall i :: InConversation(db, i, c) && db.messages[i].sequence >= now.floor ==> i in now.held
  {
    hide Upsert, FloorOf;
    UpsertFacts(map[], page.messages);
    forall i | InConversation(db, i, c) && db.messages[i].sequence >= now.floor
      ensures i in now.held
    {
      assert InReach(db.messages[i], q) && db.messages[i].id == i;
    }
  }

  lemma ActiveIssued(db: Tables, user: User)
    requires Issued(db) && Owned(db) && user in db.active
    ensures db.active[user] in db.conversations && db.active[user] < db.nextId && db.conversations[db.active[user]].user == user
  {
  }

  lemma DeltaPollAgrees(client: Client, db: Tables, user: User, limit: nat)
    requires Inv(db) && ActiveKnown(db) && Agrees(client, db, user) && user in db.active
    requires !MustReset(db.conversations[db.active[user]], db.active[user], PollQuery(client, limit))
    ensures var now := Polled(client, db, user, limit);
            && Agrees(now, db, user)
            && (if Continues(client, db, user, limit) then
                  now.id == Some(db.active[user]) && client.cursor < now.cursor <= db.conversations[db.active[user]].revision
                else Exact(now, db, user))
  {
    var c, page, now := db.active[user], PageOf(db, user, PollQuery(client, limit)), Polled(client, db, user, limit);
    DeltaPage(db, user, PollQuery(client, limit));
    assert client.id == Some(c) && Current(client, db, user);
    assert now == client.(cursor := page.head.value.revision, held := Upsert(client.held, page.messages));
    assert Issued(db) && Owned(db) && Counted(db);
    hide Inv, PageOf, MustReset, Upsert, Polled;
    assert MessagesKnown(db);
    DeltaMergeAgrees(client, now, db, c, page.messages);
  }

  /** Upserting every change between two cursors moves the agreement from the one to the other. */
  lemma {:induction false} DeltaMergeAgrees(client: Client, now: Client, db: Tables, c: Id, page: seq<Message>)
    requires Issued(db) && HeldAgrees(client, db, c) && WindowHeld(client, db, c)
    requires forall m :: m in page ==> InConversation(db, m.id, c) && db.messages[m.id] == m
    requires forall i :: InConversation(db, i, c) && client.cursor < db.messages[i].revision <= now.cursor ==> db.messages[i] in page
    requires client.cursor <= now.cursor && now.floor == client.floor && now.held == Upsert(client.held, page)
    ensures HeldAgrees(now, db, c) && WindowHeld(now, db, c)
  {
    UpsertFacts(client.held, page);
    hide Upsert;
    forall i | i in now.held
      ensures InConversation(db, i, c) && UpToChanges(now.held[i], db.messages[i], now.cursor)
    {
      if now.held[i] in page && now.held[i].id == i {
      } else {
        assert i in client.held && now.held[i] == client.held[i] && InConversation(db, i, c);
        assert db.messages[i] !in page;
      }
    }
    forall i | InConversation(db, i, c) && db.messages[i].sequence >= now.floor && db.messages[i].revision <= now.cursor
      ensures i in now.held
    {
      assert db.messages[i].id == i;
    }
  }
}
