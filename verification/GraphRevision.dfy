/** Optimistic concurrency on a workspace's graph.  Every graph transaction locks the workspace's
    revision and raises it when it changed something; the gateway makes several such calls for one
    browser request and chains their ETags. */
module GraphRevision {
  import opened Wrappers

  /** The value of an `If-Match` or `ETag` header: a quoted revision, or any other text. */
  datatype Tag = Revision(number: nat) | Foreign(text: string)

  datatype Method = Get | Head | Options | Post | Put | Patch | Delete

  predicate Mutating(m: Method) {
    m !in {Get, Head, Options}
  }

  /** What a graph route does inside its transaction.  A route that raises is rolled back and answers
      with an error that carries no ETag. */
  datatype Handler = Raises | Returns(changes: bool, ok: bool)

  datatype Reply = Reply(ok: bool, etag: Option<Tag>)

  // ----- one graph call --------------------------------------------------------------------------

  /** The If-Match check, which only mutating methods get. */
  predicate Stale(revision: nat, m: Method, expected: Option<Tag>) {
    Mutating(m) && expected.Some? && expected.value != Revision(revision)
  }

  /** The revision after a graph call. */
  function RevisionAfter(revision: nat, m: Method, expected: Option<Tag>, h: Handler): nat {
    if !Stale(revision, m, expected) && h.Returns? && h.changes then revision + 1 else revision
  }

  /** The answer to a graph call: a conflict names the revision that is stored. */
  function ReplyTo(revision: nat, m: Method, expected: Option<Tag>, h: Handler): Reply {
    if Stale(revision, m, expected) then Reply(false, Some(Revision(revision)))
    else match h
      case Raises => Reply(false, None)
      case Returns(_, ok) => Reply(ok, Some(Revision(RevisionAfter(revision, m, expected, h))))
  }

  /** The stored revision of one workspace, as the graph adapter uses it. */
  class Adapter {
    var row: Option<nat>

    constructor ()
      ensures Current() == 0
    {
      row := None;
    }

    /** The revision a transaction finds; the row is created on first use. */
    function Current(): nat
      reads this
    {
      if row.Some? then row.value else 0
    }

    /** `lock_revision`: the row exists afterwards; a stale condition is reported. */
    method LockRevision(m: Method, expected: Option<Tag>) returns (revision: nat, conflict: bool)
      modifies this
      ensures revision == old(Current()) == Current() && row.Some?
      ensures conflict <==> Stale(revision, m, expected)
    {
      if row.None? {
        row := Some(0);
      }
      revision := row.value;
      conflict := Mutating(m) && expected.Some? && expected.value != Revision(revision);
    }

    /** `finish_revision`. */
    method FinishRevision(revision: nat, changed: bool) returns (reported: nat)
      requires row == Some(revision)
      modifies this
      ensures reported == Current() == if changed then revision + 1 else revision
    {
      reported := revision;
      if changed {
        reported := reported + 1;
        row := Some(reported);
      }
    }

    /** One graph call: the session around the route, and the header hook after it. */
    method Dispatch(m: Method, expected: Option<Tag>, h: Handler) returns (reply: Reply)
      modifies this
      ensures reply == ReplyTo(old(Current()), m, expected, h)
      ensures Current() == RevisionAfter(old(Current()), m, expected, h)
    {
      var saved := row;
      var revision, conflict := LockRevision(m, expected);
      if conflict {
        row := saved;
        return Reply(false, Some(Revision(revision)));
      }
      match h
      case Raises =>
        row := saved;
        reply := Reply(false, None);
      case Returns(changes, ok) =>
        var reported := FinishRevision(revision, changes);
        reply := Reply(ok, Some(Revision(reported)));
    }
  }

  // ----- one gateway request ---------------------------------------------------------------------

  /** What a gateway request remembers: the browser's condition, the ETag of its last successful graph
      write, and the ETag its own response will carry. */
  datatype Request = Request(ifMatch: Option<Tag>, writeEtag: Option<Tag>, responseEtag: Option<Tag>)

  /** A call the request makes: to the graph, or to another service that answers with tags of its own. */
  datatype Call = Graph(m: Method, h: Handler) | Elsewhere(m: Method, reply: Reply)

  /** The condition the next graph call is sent with. */
  function Condition(r: Request): Option<Tag> {
    if r.writeEtag.Some? then r.writeEtag else r.ifMatch
  }

  /** The request after a graph reply. */
  function Advanced(r: Request, m: Method, reply: Reply): Request {
    if reply.etag.None? then r
    else if reply.ok && Mutating(m) then r.(responseEtag := reply.etag, writeEtag := reply.etag)
    else r.(responseEtag := reply.etag)
  }

  class GatewayRequest {
    const adapter: Adapter
    const ifMatch: Option<Tag>
    var writeEtag: Option<Tag>
    var responseEtag: Option<Tag>

    constructor (adapter: Adapter, ifMatch: Option<Tag>)
      ensures this.adapter == adapter && State() == Request(ifMatch, None, None)
    {
      this.adapter, this.ifMatch, writeEtag, responseEtag := adapter, ifMatch, None, None;
    }

    function State(): Request
      reads this
    {
      Request(ifMatch, writeEtag, responseEtag)
    }

    /** `_proxy`. */
    method Proxy(call: Call) returns (reply: Reply)
      modifies this, adapter
      ensures call.Elsewhere? ==> reply == call.reply && State() == old(State()) && adapter.Current() == old(adapter.Current())
      ensures call.Graph? ==>
        && reply == ReplyTo(old(adapter.Current()), call.m, Condition(old(State())), call.h)
        && adapter.Current() == RevisionAfter(old(adapter.Current()), call.m, Condition(old(State())), call.h)
        && State() == Advanced(old(State()), call.m, reply)
    {
      match call
      case Elsewhere(_, answer) =>
        reply := answer;
      case Graph(m, h) =>
        var condition := ifMatch;
        if condition.Some? || writeEtag.Some? {
          condition := if writeEtag.Some? then writeEtag else condition;
        }
        reply := adapter.Dispatch(m, condition, h);
        if reply.etag.Some? {
          responseEtag := reply.etag;
          if reply.ok && Mutating(m) {
            writeEtag := reply.etag;
          }
        }
    }
  }

  // ----- runs: many requests over one workspace --------------------------------------------------

  /** `history[n]` is the request whose transaction made revision `n + 1`; `written` lists, for each
      request, the revisions made by its mutating calls that were answered with success. */
  datatype World = World(history: seq<nat>, requests: map<nat, Request>, written: map<nat, seq<nat>>)

  datatype Event = Event(who: nat, call: Call)

  ghost predicate Formed(w: World) {
    w.written.Keys == w.requests.Keys
  }

  /** No request has made a call yet. */
  ghost predicate Untouched(w: World) {
    Formed(w) && forall who :: who in w.requests ==>
      w.written[who] == [] && w.requests[who].writeEtag.None? && w.requests[who].responseEtag.None?
  }

  ghost predicate Refused(w: World, e: Event)
    requires e.who in w.requests
  {
    e.call.Graph? && Stale(|w.history|, e.call.m, Condition(w.requests[e.who]))
  }

  /** One call of one request, as `GatewayRequest.Proxy` and `Adapter.Dispatch` perform it. */
  ghost function Step(w: World, e: Event): (after: World)
    requires Formed(w)
    ensures Formed(after) && after.requests.Keys == w.requests.Keys
  {
    if e.who !in w.requests || e.call.Elsewhere? then w else
    var r := w.requests[e.who];
    var reply := ReplyTo(|w.history|, e.call.m, Condition(r), e.call.h);
    var revision := RevisionAfter(|w.history|, e.call.m, Condition(r), e.call.h);
    var mine := w.written[e.who];
    World(
      if revision > |w.history| then w.history + [e.who] else w.history,
      w.requests[e.who := Advanced(r, e.call.m, reply)],
      w.written[e.who := if revision > |w.history| && reply.ok && Mutating(e.call.m) then mine + [revision] else mine])
  }

  ghost function Run(w: World, events: seq<Event>): (after: World)
    requires Formed(w)
    ensures Formed(after) && after.requests.Keys == w.requests.Keys
    decreases |events|
  {
    if events == [] then w
    else Step(Run(w, events[..|events| - 1]), events[|events| - 1])
  }

  /** The successful writes so far form one block of the history, and the request's condition is the
      end of that block, or still the browser's own. */
  ghost predicate Chained(history: seq<nat>, who: nat, r: Request, mine: seq<nat>) {
    && (forall i :: 0 <= i < |mine| ==> 1 <= mine[i] <= |history| && history[mine[i] - 1] == who)
    && (forall i :: 0 <= i < |mine| ==> mine[i] == mine[0] + i)
    && (if mine == [] then r.writeEtag.Some? && r.ifMatch.Some? ==> r.writeEtag == r.ifMatch
        else
          && r.writeEtag == Some(Revision(mine[|mine| - 1]))
          && (r.ifMatch.Some? ==> r.ifMatch == Some(Revision(mine[0] - 1))))
  }

  lemma {:induction false} OthersKeepChain(history: seq<nat>, longer: seq<nat>, who: nat, r: Request, mine: seq<nat>)
    requires Chained(history, who, r, mine) && history <= longer
    ensures Chained(longer, who, r, mine)
  {
  }

  lemma {:induction false} ChainGrows(history: seq<nat>, who: nat, r: Request, mine: seq<nat>, after: Request)
    requires Chained(history, who, r, mine) && (Condition(r).Some? ==> Condition(r) == Some(Revision(|history|)))
    requires after.ifMatch == r.ifMatch && after.writeEtag == Some(Revision(|history| + 1))
    ensures Chained(history + [who], who, after, mine + [|history| + 1])
  {
  }

  lemma OwnKeepsChain(w: World, who: nat, m: Method, h: Handler)
    requires Formed(w) && who in w.requests && Chained(w.history, who, w.requests[who], w.written[who])
    ensures var after := Step(w, Event(who, Graph(m, h)));
      Chained(after.history, who, after.requests[who], after.written[who])
  {
    var after := Step(w, Event(who, Graph(m, h)));
    var r, mine := w.requests[who], w.written[who];
    if !Stale(|w.history|, m, Condition(r)) && h.Returns? && h.changes && h.ok && Mutating(m) {
      assert after == World(w.history + [who], after.requests, w.written[who := mine + [|w.history| + 1]]);
      hide Chained;
      ChainGrows(w.history, who, r, mine, after.requests[who]);
    } else {
      assert w.history <= after.history && after.written[who] == mine;
      SameConditionChain(w.history, after.history, who, r, after.requests[who], mine);
    }
  }

  /** A call that writes nothing of its own moves the condition at most to where it is. */
  lemma {:induction false} SameConditionChain(history: seq<nat>, longer: seq<nat>, who: nat, r: Request, after: Request, mine: seq<nat>)
    requires Chained(history, who, r, mine) && history <= longer && after.ifMatch == r.ifMatch
    requires after.writeEtag == r.writeEtag || (after.writeEtag.Some? && (Condition(r).Some? ==> after.writeEtag == Condition(r)))
    ensures Chained(longer, who, after, mine)
  {
  }

  lemma StepKeepsChain(w: World, e: Event, who: nat)
    requires Formed(w) && who in w.requests && Chained(w.history, who, w.requests[who], w.written[who])
    ensures Chained(Step(w, e).history, who, Step(w, e).requests[who], Step(w, e).written[who])
    ensures Step(w, e).requests[who].ifMatch == w.requests[who].ifMatch
  {
    hide Chained;
    if e.who == who && e.call.Graph? {
      OwnKeepsChain(w, who, e.call.m, e.call.h);
    } else {
      OthersKeepChain(w.history, Step(w, e).history, who, w.requests[who], w.written[who]);
    }
  }

  lemma {:induction false} RunKeepsChain(start: World, events: seq<Event>, who: nat)
    requires Untouched(start) && who in start.requests
    ensures var w := Run(start, events);
      Chained(w.history, who, w.requests[who], w.written[who]) && w.requests[who].ifMatch == start.requests[who].ifMatch
    decreases |events|
  {
    if events != [] {
      var earlier := events[..|events| - 1];
      RunKeepsChain(start, earlier, who);
      StepKeepsChain(Run(start, earlier), events[|events| - 1], who);
    }
  }

  /** In any interleaving the successful writes of one request carry consecutive revisions, start right
      after its If-Match when it sent one, and no other request's write lies between them. */
  lemma {:induction false} WritesAreConsecutive(start: World, events: seq<Event>, who: nat)
    requires Untouched(start) && who in start.requests
    ensures var w := Run(start, events); var mine := w.written[who]; mine != [] ==>
      && (forall i :: 0 <= i < |mine| ==> mine[i] == mine[0] + i)
      && 1 <= mine[0] && mine[|mine| - 1] <= |w.history|
      && (start.requests[who].ifMatch.Some? ==> start.requests[who].ifMatch == Some(Revision(mine[0] - 1)))
      && (forall k: nat :: mine[0] - 1 <= k < mine[|mine| - 1] ==> w.history[k] == who)
  {
    hide Run;
    RunKeepsChain(start, events, who);
    var w := Run(start, events);
    var mine := w.written[who];
    if mine != [] {
      forall k: nat | mine[0] - 1 <= k < mine[|mine| - 1]
        ensures w.history[k] == who
      {
        assert mine[k + 1 - mine[0]] == k + 1;
      }
    }
  }

  /** The revision a request has acknowledged: its last successful write, or what the browser sent. */
  ghost function Acknowledged(start: World, events: seq<Event>, who: nat): Option<Tag>
    requires Untouched(start) && who in start.requests
  {
    var mine := Run(start, events).written[who];
    if mine != [] then Some(Revision(mine[|mine| - 1])) else start.requests[who].ifMatch
  }

  /** A request that has written, or came with a condition, is refused its next mutating call exactly
      when the graph is not at the revision it acknowledged: reads and rejected writes in between, its
      own or anybody's, do not move that revision. */
  lemma {:induction false} RefusedExactlyWhenMoved(start: World, events: seq<Event>, who: nat, m: Method, h: Handler)
    requires Untouched(start) && who in start.requests && Mutating(m)
    requires Acknowledged(start, events, who).Some?
    ensures Refused(Run(start, events), Event(who, Graph(m, h)))
       <==> Acknowledged(start, events, who) != Some(Revision(|Run(start, events).history|))
  {
    RunKeepsChain(start, events, who);
  }

  /** A call that gets through and changes the graph. */
  ghost predicate Changes(w: World, e: Event) {
    e.who in w.requests && e.call.Graph? && !Refused(w, e) && e.call.h.Returns? && e.call.h.changes
  }

  /** Who changed the graph in a run, in order. */
  ghost function Writers(start: World, events: seq<Event>): seq<nat>
    requires Formed(start)
    decreases |events|
  {
    if events == [] then []
    else
      var earlier, last := events[..|events| - 1], events[|events| - 1];
      Writers(start, earlier) + if Changes(Run(start, earlier), last) then [last.who] else []
  }

  /** In every run each change makes exactly one revision, and nothing else does. */
  lemma {:induction false} EveryChangeCounts(start: World, events: seq<Event>)
    requires Formed(start)
    ensures Run(start, events).history == start.history + Writers(start, events)
    decreases |events|
  {
    if events != [] {
      var earlier, last := events[..|events| - 1], events[|events| - 1];
      EveryChangeCounts(start, earlier);
      hide Run, Refused;
      RunOneMore(start, earlier, last);
      assert events == earlier + [last];
      ChangeCounts(Run(start, earlier), last);
    }
  }

  /** A change is answered with the revision it made; a successful write is acknowledged with it, so that
      the request's next call is sent with it. */
  lemma ChangeCounts(w: World, e: Event)
    requires Formed(w)
    ensures var after := Step(w, e);
      if Changes(w, e) then
        && after.history == w.history + [e.who]
        && after.requests[e.who].responseEtag == Some(Revision(|w.history| + 1))
        && (Mutating(e.call.m) && e.call.h.ok ==>
              && after.written[e.who] == w.written[e.who] + [|w.history| + 1]
              && Condition(after.requests[e.who]) == Some(Revision(|w.history| + 1)))
      else after.history == w.history
  {
  }

  /** What the other calls of a request leave: a call to another service, or a route that raises, nothing;
      a route that changes nothing, the stored revision as the response's ETag, and as the condition of
      the next call when it is a write that succeeded. */
  lemma OtherCallsAreRemembered(w: World, e: Event)
    requires Formed(w) && e.who in w.requests && !Changes(w, e) && !Refused(w, e)
    ensures var after := Step(w, e); var current := Some(Revision(|w.history|));
      if e.call.Elsewhere? || e.call.h.Raises? then after.requests == w.requests
      else
        && after.requests[e.who].responseEtag == current
        && Condition(after.requests[e.who]) == if Mutating(e.call.m) && e.call.h.ok then current else Condition(w.requests[e.who])
  {
    assert w.requests[e.who := w.requests[e.who]] == w.requests;
  }

  /** No lost update: of the requests that were sent with one and the same If-Match, at most one ever has
      a change accepted. */
  lemma {:induction false} NoLostUpdate(start: World, events: seq<Event>, i: nat, j: nat)
    requires Untouched(start) && i < j < |events| && events[i].who != events[j].who
    requires events[i].who in start.requests && events[j].who in start.requests
    requires start.requests[events[i].who].ifMatch.Some? && start.requests[events[j].who].ifMatch == start.requests[events[i].who].ifMatch
    requires Changes(Run(start, events[..i]), events[i]) && Mutating(events[i].call.m) && Mutating(events[j].call.m)
    ensures !Changes(Run(start, events[..j]), events[j])
  {
    hide Run, Step, Changes, Chained;
    var a, b := events[i].who, events[j].who;
    var before, now := Run(start, events[..i]), Run(start, events[..j]);
    RunKeepsChain(start, events[..i], a);
    RunKeepsChain(start, events[..j], b);
    RunOneMore(start, events[..i], events[i]);
    assert events[..i] + [events[i]] == events[..i + 1];
    ChangeCounts(before, events[i]);
    HistoryGrows(start, events[..i + 1], events[i + 1..j]);
    assert events[..i + 1] + events[i + 1..j] == events[..j];
    SecondIsRefused(before, now, events[i], events[j]);
  }

  lemma SecondIsRefused(before: World, now: World, first: Event, second: Event)
    requires first.who in before.requests && second.who in now.requests && Formed(before) && Formed(now) && first.who != second.who
    requires before.requests[first.who].ifMatch.Some? && now.requests[second.who].ifMatch == before.requests[first.who].ifMatch
    requires Chained(before.history, first.who, before.requests[first.who], before.written[first.who])
    requires Chained(now.history, second.who, now.requests[second.who], now.written[second.who])
    requires before.history + [first.who] <= now.history
    requires Changes(before, first) && Mutating(first.call.m) && Mutating(second.call.m)
    ensures !Changes(now, second)
  {
    assert now.history[|before.history|] == first.who;
  }

  /** Revisions only rise. */
  lemma {:induction false} HistoryGrows(start: World, events: seq<Event>, more: seq<Event>)
    requires Formed(start)
    ensures Run(start, events).history <= Run(start, events + more).history
    decreases |more|
  {
    if more == [] {
      assert events + more == events;
    } else {
      var front, last := more[..|more| - 1], more[|more| - 1];
      assert events + more == events + front + [last];
      RunOneMore(start, events + front, last);
      HistoryGrows(start, events, front);
    }
  }

  /** A request that only reads goes on with the browser's condition. */
  lemma {:induction false} ReadsAcknowledgeNothing(start: World, events: seq<Event>, who: nat)
    requires Untouched(start) && who in start.requests
    requires forall e :: e in events && e.who == who && e.call.Graph? ==> !Mutating(e.call.m)
    ensures Run(start, events).written[who] == [] && Acknowledged(start, events, who) == start.requests[who].ifMatch
    decreases |events|
  {
    if events != [] {
      var last := events[|events| - 1];
      assert last in events;
      ReadsAcknowledgeNothing(start, events[..|events| - 1], who);
    }
  }

  /** A refused call changes nothing but the ETag of the response. */
  lemma RefusedChangesNothing(w: World, e: Event)
    requires Formed(w) && e.who in w.requests && Refused(w, e)
    ensures var after := Step(w, e);
      && after.history == w.history && after.written == w.written
      && after.requests == w.requests[e.who := w.requests[e.who].(responseEtag := Some(Revision(|w.history|)))]
  {
    assert w.written[e.who := w.written[e.who]] == w.written;
  }

  /** The calls of a well-behaved route: it changes the graph only when the method says so and it
      answers with success. */
  predicate WellBehaved(c: Call) {
    c.Graph? && c.h.Returns? && c.h.changes ==> Mutating(c.m) && c.h.ok
  }

  /** A request that runs alone, from the revision it was sent with, is never refused. */
  lemma {:induction false} AloneIsNeverRefused(start: World, events: seq<Event>, who: nat, n: nat)
    requires Untouched(start) && who in start.requests && n < |events|
    requires start.requests[who].ifMatch.Some? ==> start.requests[who].ifMatch == Some(Revision(|start.history|))
    requires forall e :: e in events ==> e.who == who && WellBehaved(e.call)
    ensures !Refused(Run(start, events[..n]), events[n])
  {
    AloneKeepsUp(start, events[..n], who);
    assert events[n] in events;
  }

  lemma AloneKeepsUpOnce(w: World, e: Event)
    requires Formed(w) && e.who in w.requests && WellBehaved(e.call)
    requires Condition(w.requests[e.who]).Some? ==> Condition(w.requests[e.who]) == Some(Revision(|w.history|))
    ensures var after := Step(w, e); var c := Condition(after.requests[e.who]);
      c.Some? ==> c == Some(Revision(|after.history|))
  {
  }

  lemma {:induction false} AloneKeepsUp(start: World, events: seq<Event>, who: nat)
    requires Untouched(start) && who in start.requests
    requires start.requests[who].ifMatch.Some? ==> start.requests[who].ifMatch == Some(Revision(|start.history|))
    requires forall e :: e in events ==> e.who == who && WellBehaved(e.call)
    ensures var w := Run(start, events); var c := Condition(w.requests[who]);
      c.Some? ==> c == Some(Revision(|w.history|))
    decreases |events|
  {
    if events == [] {
    } else {
      hide Run, Step, WellBehaved;
      var earlier, last := events[..|events| - 1], events[|events| - 1];
      assert earlier + [last] == events && last in events;
      AloneKeepsUp(start, earlier, who);
      RunOneMore(start, earlier, last);
      AloneKeepsUpOnce(Run(start, earlier), last);
    }
  }

  /** The response's ETag is another matter.  A read leaves the acknowledged revision alone but raises the
      response's ETag to whatever is stored: the two agree exactly when nothing moved in between, and
      otherwise the browser is handed a revision holding an edit this request never took into account. */
  lemma {:induction false} ReadMovesOnlyTheResponse(start: World, events: seq<Event>, who: nat, ok: bool)
    requires Untouched(start) && who in start.requests && Acknowledged(start, events, who).Some?
    ensures var read := Event(who, Graph(Get, Returns(false, ok))); var w := Run(start, events);
      && Acknowledged(start, events + [read], who) == Acknowledged(start, events, who)
      && (Run(start, events + [read]).requests[who].responseEtag == Acknowledged(start, events, who)
          <==> Acknowledged(start, events, who) == Some(Revision(|w.history|)))
  {
    RunOneMore(start, events, Event(who, Graph(Get, Returns(false, ok))));
  }

  lemma {:induction false} RunOneMore(w: World, events: seq<Event>, e: Event)
    requires Formed(w)
    ensures Run(w, events + [e]) == Step(Run(w, events), e)
  {
    assert (events + [e])[..|events|] == events;
  }
}
