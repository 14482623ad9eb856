/** The cursor-based feed: what `read` answers, and what its pages contain. */
module ChatFeed {
  import opened ChatTables
  import opened ChatInvariant
  import opened Wrappers

  datatype Column = BySequence | ByRevision

  function Key(m: Message, col: Column): nat {
    match col
    case BySequence => m.sequence
    case ByRevision => m.revision
  }

  datatype Head = Head(id: Id, revision: nat, pendingTurn: Option<TurnId>, cancelling: bool)

  datatype Page = Page(head: Option<Head>, messages: seq<Message>, reset: bool, hasOlder: bool, hasMore: bool)

  const NO_CONVERSATION := Page(None, [], true, false, false)

  /** The query parameters of one read. */
  datatype Query = Query(after: nat, before: Option<nat>, limit: nat, conversation: Option<Id>)

  // ----- ORDER BY --------------------------------------------------------------------------------

  ghost predicate Least(m: Message, rows: set<Message>, col: Column) {
    m in rows && forall n :: n in rows ==> Key(m, col) <= Key(n, col)
  }

  /** No two rows share the column's value. */
  ghost predicate Keyed(rows: set<Message>, col: Column) {
    forall m, n :: m in rows && n in rows && Key(m, col) == Key(n, col) ==> m == n
  }

  lemma {:induction false} LeastExists(rows: set<Message>, col: Column)
    requires rows != {}
    ensures exists m :: Least(m, rows, col)
    decreases |rows|
  {
    var x :| x in rows;
    if rows == {x} {
      assert Least(x, rows, col);
    } else {
      LeastExists(rows - {x}, col);
      var m :| Least(m, rows - {x}, col);
      assert Least(if Key(x, col) <= Key(m, col) then x else m, rows, col);
    }
  }

  /** The rows in ascending order of the column. */
  ghost function Ascending(rows: set<Message>, col: Column): seq<Message>
    decreases |rows|
  {
    if rows == {} then []
    else
      LeastExists(rows, col);
      var m :| Least(m, rows, col);
      [m] + Ascending(rows - {m}, col)
  }

  ghost predicate Ordered(s: seq<Message>, col: Column) {
    forall p, q :: 0 <= p < q < |s| ==> Key(s[p], col) < Key(s[q], col)
  }

  lemma AscendingStep(rows: set<Message>, col: Column) returns (m: Message)
    requires rows != {}
    ensures Least(m, rows, col) && Ascending(rows, col) == [m] + Ascending(rows - {m}, col)
  {
    LeastExists(rows, col);
    m :| Least(m, rows, col) && Ascending(rows, col) == [m] + Ascending(rows - {m}, col);
  }

  lemma {:induction false} OrderedStep(rows: set<Message>, col: Column, m: Message, t: seq<Message>)
    requires Keyed(rows, col) && Least(m, rows, col) && Ordered(t, col) && forall n :: n in t ==> n in rows - {m}
    ensures Ordered([m] + t, col)
  {
    var s := [m] + t;
    forall p, q | 0 <= p < q < |s|
      ensures Key(s[p], col) < Key(s[q], col)
    {
      assert s[q] in t;
    }
  }

  lemma {:induction false} AscendingIsOrdered(rows: set<Message>, col: Column)
    requires Keyed(rows, col)
    ensures |Ascending(rows, col)| == |rows|
    ensures forall m :: m in Ascending(rows, col) <==> m in rows
    ensures Ordered(Ascending(rows, col), col)
    decreases |rows|
  {
    if rows != {} {
      var m := AscendingStep(rows, col);
      var t := Ascending(rows - {m}, col);
      assert Keyed(rows - {m}, col);
      hide Ascending, Keyed, Least, Ordered;
      AscendingIsOrdered(rows - {m}, col);
      OrderedStep(rows, col, m, t);
    }
  }

  // ----- read ------------------------------------------------------------------------------------

  ghost function RowsOf(db: Tables, c: Id): set<Message> {
    set i | i in db.messages && db.messages[i].conversation == c :: db.messages[i]
  }

  function Clamp(limit: nat): (l: nat)
    ensures 1 <= l <= 100
  {
    if limit < 1 then 1 else if limit > 100 then 100 else limit
  }

  /** The client's state is useless here: start over. */
  predicate MustReset(row: Conversation, c: Id, q: Query) {
    q.after == 0 || (q.conversation.Some? && q.conversation.value != c) || q.after < row.resetRevision || q.after > row.revision
  }

  /** The rows the query selects, before LIMIT. */
  ghost function Selected(db: Tables, c: Id, q: Query): set<Message>
    requires c in db.conversations
  {
    if q.before.Some? then set m | m in RowsOf(db, c) && m.sequence < q.before.value
    else if MustReset(db.conversations[c], c, q) then RowsOf(db, c)
    else set m | m in RowsOf(db, c) && m.revision > q.after
  }

  ghost predicate PendingIn(db: Tables, k: TurnKey, c: Id) {
    PendingTurn(db, k) && db.turns[k].conversation == c
  }

  ghost function HeadOf(db: Tables, c: Id, revision: nat): Head {
    if exists k :: PendingIn(db, k, c) then
      var k :| PendingIn(db, k, c);
      Head(c, revision, Some(k.turn), db.turns[k].cancelRequested)
    else Head(c, revision, None, false)
  }

  /** The page of one read, taken from one snapshot of the tables. */
  ghost function PageOf(db: Tables, user: User, q: Query): Page
    requires ActiveKnown(db)
  {
    if user !in db.active then NO_CONVERSATION
    else
      var c := db.active[user];
      var row := db.conversations[c];
      var rows := Selected(db, c, q);
      var limit := Clamp(q.limit);
      var reset := MustReset(row, c, q);
      var more := |rows| > limit;
      if q.before.Some? || reset then
        var listed := Ascending(rows, BySequence);
        var messages := if more && |listed| >= limit then listed[|listed| - limit..] else listed;
        Page(Some(HeadOf(db, c, row.revision)), messages, reset && q.before.None?, more, false)
      else
        var listed := Ascending(rows, ByRevision);
        var messages := if more && |listed| >= limit then listed[..limit] else listed;
        var cursor := if more && messages != [] then messages[|messages| - 1].revision else row.revision;
        Page(Some(HeadOf(db, c, cursor)), messages, false, false, more)
  }

  lemma RowsAreKeyed(db: Tables, c: Id, col: Column)
    requires Rows(db)
    ensures Keyed(RowsOf(db, c), col)
  {
    forall m, n | m in RowsOf(db, c) && n in RowsOf(db, c) && Key(m, col) == Key(n, col)
      ensures m == n
    {
      var i :| i in db.messages && db.messages[i].conversation == c && db.messages[i] == m;
      var j :| j in db.messages && db.messages[j].conversation == c && db.messages[j] == n;
      assert InConversation(db, i, c) && InConversation(db, j, c);
    }
  }

  // ----- the transcript --------------------------------------------------------------------------

  /** The whole conversation, as a reader sees it. */
  ghost function Transcript(db: Tables, c: Id): seq<Message> {
    Ascending(RowsOf(db, c), BySequence)
  }

  lemma InTranscript(db: Tables, c: Id, m: Message)
    requires Rows(db)
    ensures m in Transcript(db, c) <==> InConversation(db, m.id, c) && db.messages[m.id] == m
  {
    RowsAreKeyed(db, c, BySequence);
    AscendingIsOrdered(RowsOf(db, c), BySequence);
    if m in RowsOf(db, c) {
      var i :| i in db.messages && db.messages[i].conversation == c && db.messages[i] == m;
    }
  }

  /** Right after a message comes the next sequence. */
  lemma NextInTranscript(db: Tables, c: Id, p: nat)
    requires Rows(db) && c in db.conversations && p < |Transcript(db, c)|
    ensures var s := Transcript(db, c);
      && InConversation(db, s[p].id, c) && db.messages[s[p].id] == s[p] && s[p].sequence <= db.conversations[c].sequence
      && (p + 1 < |s| ==> s[p].sequence < s[p + 1].sequence)
      && (s[p].sequence < db.conversations[c].sequence ==> p + 1 < |s| && s[p + 1].sequence == s[p].sequence + 1)
  {
    var s := Transcript(db, c);
    RowsAreKeyed(db, c, BySequence);
    AscendingIsOrdered(RowsOf(db, c), BySequence);
    InTranscript(db, c, s[p]);
    RowsParts(db);
    hide Rows, Issued, Owned, Unique, Ascending, RowsOf, Keyed, Transcript;
    if s[p].sequence < db.conversations[c].sequence {
      assert Followed(db, s[p].id);
      var j :| j in db.messages && Successor(db.messages[s[p].id], db.messages[j]);
      InTranscript(db, c, db.messages[j]);
      var r :| 0 <= r < |s| && s[r] == db.messages[j];
      assert p < r;
      assert s[p + 1].sequence <= s[r].sequence;
    }
  }

  /** Sequence numbers are contiguous and end at the conversation's counter. */
  lemma {:induction false} TranscriptContiguous(db: Tables, c: Id, p: nat)
    requires Rows(db) && c in db.conversations && p < |Transcript(db, c)|
    ensures Transcript(db, c)[p].sequence == db.conversations[c].sequence + 1 + p - |Transcript(db, c)|
    decreases |Transcript(db, c)| - p
  {
    hide Rows, Transcript;
    NextInTranscript(db, c, p);
    if p + 1 < |Transcript(db, c)| {
      TranscriptContiguous(db, c, p + 1);
    }
  }

  /** A conversation reads as question, answer, question, answer, ... with the two of a pair in the
      same turn; a last question without answer is there exactly while its turn is pending. */
  lemma TranscriptAlternates(db: Tables, c: Id)
    requires Inv(db) && c in db.conversations
    ensures var s := Transcript(db, c);
            && (forall p :: 0 <= p < |s| ==> (s[p].role == FromUser <==> p % 2 == 0))
            && (forall p :: 0 < p < |s| && p % 2 == 1 ==> s[p].turn == s[p - 1].turn)
            && (|s| % 2 == 1 <==> exists k :: PendingIn(db, k, c))
  {
    hide Rows, Issued, Owned, Counted, Unique, Paired, Receipts, OnePending, PendingAtTail, Transcript, PendingIn;
    var s := Transcript(db, c);
    forall p | 0 <= p < |s|
      ensures s[p].role == FromUser <==> p % 2 == 0
      ensures p % 2 == 1 ==> s[p].turn == s[p - 1].turn
    {
      RoleAt(db, c, p);
    }
    if s != [] && s[|s| - 1].role == FromUser {
      LastQuestionIsPending(db, c);
    }
    if k :| PendingIn(db, k, c) {
      PendingIsLastQuestion(db, c, k);
    }
  }

  lemma LastQuestionIsPending(db: Tables, c: Id)
    requires Inv(db) && c in db.conversations && Transcript(db, c) != [] && Transcript(db, c)[|Transcript(db, c)| - 1].role == FromUser
    ensures exists k :: PendingIn(db, k, c)
  {
    hide Inv, Rows, Issued, Owned, Unique, Paired, OnePending, Transcript;
    InvParts(db);
    var s := Transcript(db, c);
    var last := s[|s| - 1];
    NextInTranscript(db, c, |s| - 1);
    TranscriptContiguous(db, c, |s| - 1);
    var k := TurnKey(db.conversations[c].user, last.turn);
    assert Tail(db, last.id, k);
    assert db.turns[k].conversation == c by { TurnsOwnConversation(db, c, k); }
    assert PendingIn(db, k, c);
  }

  lemma TurnsOwnConversation(db: Tables, c: Id, k: TurnKey)
    requires Owned(db) && Receipts(db) && c in db.conversations && k in db.turns && k.user == db.conversations[c].user
    ensures db.turns[k].conversation == c
  {
  }

  lemma PendingIsLastQuestion(db: Tables, c: Id, k: TurnKey)
    requires Inv(db) && c in db.conversations && PendingIn(db, k, c)
    ensures var s := Transcript(db, c); s != [] && s[|s| - 1].role == FromUser
  {
    hide Inv, Rows, Issued, Unique, Paired, OnePending, Transcript;
    InvParts(db);
    var s := Transcript(db, c);
    var i :| Tail(db, i, k);
    assert InConversation(db, i, c);
    hide Owned, Receipts, PendingAtTail;
    assert db.messages[i].id == i by { IdsMatch(db, i); }
    InTranscript(db, c, db.messages[i]);
    var p :| 0 <= p < |s| && s[p] == db.messages[i];
    NextInTranscript(db, c, p);
    if p + 1 < |s| {
      NextInTranscript(db, c, p + 1);
    }
  }

  lemma IdsMatch(db: Tables, i: Id)
    requires Issued(db) && i in db.messages
    ensures db.messages[i].id == i
  {
  }

  lemma {:induction false} RoleAt(db: Tables, c: Id, p: nat)
    requires Rows(db) && c in db.conversations && p < |Transcript(db, c)|
    ensures var s := Transcript(db, c);
            && (s[p].role == FromUser <==> p % 2 == 0)
            && (p % 2 == 1 ==> s[p].turn == s[p - 1].turn)
  {
    var s := Transcript(db, c);
    InTranscript(db, c, s[p]);
    TranscriptContiguous(db, c, p);
    if p > 0 {
      RoleAt(db, c, p - 1);
      InTranscript(db, c, s[p - 1]);
      TranscriptContiguous(db, c, p - 1);
      assert Successor(db.messages[s[p - 1].id], db.messages[s[p].id]);
    }
    if s[p].role == FromAssistant {
      assert Asked(db, s[p].id);
      var j :| j in db.messages && Successor(db.messages[j], db.messages[s[p].id]) && Answers(db.messages[j], db.messages[s[p].id]);
      assert InConversation(db, j, c);
      InTranscript(db, c, db.messages[j]);
      var r :| 0 <= r < |s| && s[r] == db.messages[j];
      TranscriptContiguous(db, c, r);
      assert r == p - 1;
    }
  }

  // ----- what heads and fills a page -------------------------------------------------------------

  /** The head of every page names the user's pending turn, if there is one, and says whether it is to stop. */
  lemma HeadShowsPending(db: Tables, user: User, q: Query)
    requires Inv(db) && ActiveKnown(db) && user in db.active
    ensures var head := PageOf(db, user, q).head;
      && head.Some? && head.value.id == db.active[user]
      && (forall turn :: head.value.pendingTurn == Some(turn) <==> PendingTurn(db, TurnKey(user, turn)))
      && (forall turn :: PendingTurn(db, TurnKey(user, turn)) ==> head.value.cancelling == db.turns[TurnKey(user, turn)].cancelRequested)
      && (head.value.pendingTurn.None? ==> !head.value.cancelling)
  {
    hide Rows, Issued, Counted, Unique, Paired, PendingAtTail, Selected, Ascending, MustReset, Clamp;
    var c := db.active[user];
    forall k
      ensures PendingIn(db, k, c) <==> PendingTurn(db, k) && k.user == user
    {
      RowsParts(db);
    }
  }

  /** A page holds at most as many messages as were asked for, between 1 and 100, and exactly so many when
      it says that there are more. */
  lemma PageFills(db: Tables, user: User, q: Query)
    requires Inv(db) && ActiveKnown(db)
    ensures var page := PageOf(db, user, q);
      && |page.messages| <= 100 && (1 <= q.limit ==> |page.messages| <= q.limit) && (q.limit == 0 ==> |page.messages| <= 1)
      && (page.hasOlder || page.hasMore ==> |page.messages| == 100 || |page.messages| == q.limit || (q.limit == 0 && |page.messages| == 1))
  {
    hide Inv, Rows, Selected, Ascending, MustReset, HeadOf, ActiveKnown;
    if user in db.active {
      var c := db.active[user];
      KnownAt(db, user);
      SelectionListed(db, c, q, BySequence);
      SelectionListed(db, c, q, ByRevision);
    }
  }

  lemma SelectionListed(db: Tables, c: Id, q: Query, col: Column)
    requires Inv(db) && c in db.conversations
    ensures |Ascending(Selected(db, c, q), col)| == |Selected(db, c, q)|
  {
    RowsAreKeyed(db, c, col);
    AscendingIsOrdered(Selected(db, c, q), col);
  }
}
