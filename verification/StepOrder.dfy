/** The order in which the pipeline's steps are compiled: Kahn's algorithm over the graph's edges. */
module StepOrder {
  import opened Wrappers

  type StepId = string

  datatype Edge = Edge(source: StepId, target: StepId, sourcePort: string, targetPort: string)

  datatype Result = Ok(order: seq<StepId>) | ContainsCycle

  // ----- the graph the algorithm sees ------------------------------------------------------------

  function Members(s: seq<StepId>): set<StepId> {
    set x | x in s
  }

  /** An edge between two of the steps; edges to anything else are ignored. */
  ghost predicate Links(edges: seq<Edge>, ids: set<StepId>, u: StepId, v: StepId) {
    u in ids && v in ids && exists k :: 0 <= k < |edges| && edges[k].source == u && edges[k].target == v
  }

  ghost predicate IsPath(edges: seq<Edge>, ids: set<StepId>, p: seq<StepId>) {
    forall k :: 0 <= k < |p| - 1 ==> Links(edges, ids, p[k], p[k + 1])
  }

  ghost predicate IsCycle(edges: seq<Edge>, ids: set<StepId>, p: seq<StepId>) {
    |p| >= 2 && p[0] == p[|p| - 1] && IsPath(edges, ids, p)
  }

  ghost predicate HasCycle(edges: seq<Edge>, ids: set<StepId>) {
    exists p :: IsCycle(edges, ids, p)
  }

  /** Every edge goes from an earlier step to a later one. */
  ghost predicate Forward(edges: seq<Edge>, ids: set<StepId>, order: seq<StepId>) {
    forall i, j :: 0 <= i < |order| && 0 <= j < |order| && Links(edges, ids, order[i], order[j]) ==> i < j
  }

  // ----- counting --------------------------------------------------------------------------------

  /** Edges into `v` from steps of `live`, parallel edges counted one by one. */
  ghost function InCount(edges: seq<Edge>, live: set<StepId>, v: StepId): nat {
    if edges == [] then 0
    else InCount(edges[..|edges| - 1], live, v)
         + if edges[|edges| - 1].source in live && edges[|edges| - 1].target == v then 1 else 0
  }

  /** Targets of the edges from `u` to steps, in edge order, with repetitions. */
  ghost function TargetsOf(edges: seq<Edge>, ids: set<StepId>, u: StepId): seq<StepId> {
    if edges == [] then []
    else
      var last := edges[|edges| - 1];
      TargetsOf(edges[..|edges| - 1], ids, u) + if last.source == u && last.target in ids then [last.target] else []
  }

  lemma {:induction false} CountPositive(edges: seq<Edge>, live: set<StepId>, v: StepId)
    ensures InCount(edges, live, v) > 0 <==> exists k :: 0 <= k < |edges| && edges[k].source in live && edges[k].target == v
  {
    if edges != [] {
      var front := edges[..|edges| - 1];
      CountPositive(front, live, v);
      if InCount(front, live, v) > 0 {
        var k :| 0 <= k < |front| && front[k].source in live && front[k].target == v;
        assert edges[k] == front[k];
      }
      if k :| 0 <= k < |edges| && edges[k].source in live && edges[k].target == v {
        assert k < |front| ==> front[k] == edges[k];
      }
    }
  }

  /** Taking a step away takes away exactly its edges. */
  lemma {:induction false} CountWithout(edges: seq<Edge>, ids: set<StepId>, live: set<StepId>, u: StepId, v: StepId)
    requires u in live && v in ids
    ensures InCount(edges, live, v) == InCount(edges, live - {u}, v) + multiset(TargetsOf(edges, ids, u))[v]
  {
    if edges != [] {
      CountWithout(edges[..|edges| - 1], ids, live, u, v);
    }
  }

  lemma {:induction false} InTargets(edges: seq<Edge>, ids: set<StepId>, u: StepId, v: StepId)
    requires u in ids
    ensures v in TargetsOf(edges, ids, u) <==> Links(edges, ids, u, v)
  {
    if edges != [] {
      var front := edges[..|edges| - 1];
      InTargets(front, ids, u, v);
      if Links(front, ids, u, v) {
        var k :| 0 <= k < |front| && front[k].source == u && front[k].target == v;
        assert edges[k] == front[k];
      }
      if Links(edges, ids, u, v) {
        var k :| 0 <= k < |edges| && edges[k].source == u && edges[k].target == v;
        assert k < |front| ==> front[k] == edges[k];
      }
    }
  }

  // ----- cycles ----------------------------------------------------------------------------------

  lemma {:induction false} DistinctIffFull(s: seq<StepId>)
    ensures |Members(s)| <= |s|
    ensures Distinct(s) <==> |Members(s)| == |s|
  {
    if s == [] {
      assert Members(s) == {};
    } else {
      var front, last := s[..|s| - 1], s[|s| - 1];
      DistinctIffFull(front);
      assert Members(s) == Members(front) + {last};
      if last in front {
        var k :| 0 <= k < |front| && front[k] == last;
        assert s[k] == s[|s| - 1];
        assert Members(s) == Members(front);
      } else {
        assert Distinct(s) <==> Distinct(front);
      }
    }
  }

  lemma SubsetSize(a: set<StepId>, b: set<StepId>)
    requires a <= b
    ensures |a| <= |b| && (|a| == |b| ==> a == b)
  {
    assert b == a + (b - a);
  }

  /** A backward walk of any length exists when every live step has a live predecessor. */
  lemma {:induction false} Walk(edges: seq<Edge>, ids: set<StepId>, live: set<StepId>, n: nat) returns (p: seq<StepId>)
    requires live != {} && live <= ids
    requires forall v :: v in live ==> InCount(edges, live, v) > 0
    ensures |p| == n + 1 && IsPath(edges, ids, p) && Members(p) <= live
  {
    if n == 0 {
      var v :| v in live;
      p := [v];
    } else {
      var q := Walk(edges, ids, live, n - 1);
      assert q[0] in Members(q);
      CountPositive(edges, live, q[0]);
      var k :| 0 <= k < |edges| && edges[k].source in live && edges[k].target == q[0];
      p := [edges[k].source] + q;
      assert Links(edges, ids, p[0], p[1]);
      assert forall m :: 0 < m < |p| - 1 ==> p[m] == q[m - 1] && p[m + 1] == q[m];
      assert Members(p) == Members(q) + {p[0]};
    }
  }

  /** If every remaining step waits for a remaining step, the remaining steps contain a cycle. */
  lemma {:induction false} StuckMeansCycle(edges: seq<Edge>, ids: set<StepId>, live: set<StepId>)
    requires live != {} && live <= ids
    requires forall v :: v in live ==> InCount(edges, live, v) > 0
    ensures HasCycle(edges, ids)
  {
    var p := Walk(edges, ids, live, |live|);
    SubsetSize(Members(p), live);
    DistinctIffFull(p);
    var i, j :| 0 <= i < j < |p| && p[i] == p[j];
    var c := p[i..j + 1];
    forall k | 0 <= k < |c| - 1
      ensures Links(edges, ids, c[k], c[k + 1])
    {
      assert Links(edges, ids, p[i + k], p[i + k + 1]);
    }
    assert IsCycle(edges, ids, c);
  }

  /** Along a path every step comes strictly later in a forward order. */
  lemma {:induction false} PathAdvances(edges: seq<Edge>, ids: set<StepId>, order: seq<StepId>, p: seq<StepId>, i: nat)
    requires Members(order) == ids && Forward(edges, ids, order)
    requires IsPath(edges, ids, p) && |p| >= 1 && i < |order| && order[i] == p[0]
    ensures exists j :: i + |p| - 1 <= j < |order| && order[j] == p[|p| - 1]
    decreases |p|
  {
    if |p| > 1 {
      assert Links(edges, ids, p[0], p[1]);
      assert p[1] in Members(order);
      var j :| 0 <= j < |order| && order[j] == p[1];
      forall k | 0 <= k < |p[1..]| - 1
        ensures Links(edges, ids, p[1..][k], p[1..][k + 1])
      {
        assert Links(edges, ids, p[k + 1], p[k + 2]);
      }
      PathAdvances(edges, ids, order, p[1..], j);
    }
  }

  lemma {:induction false} ForwardMeansNoCycle(edges: seq<Edge>, ids: set<StepId>, order: seq<StepId>)
    requires Members(order) == ids && Distinct(order) && Forward(edges, ids, order)
    ensures !HasCycle(edges, ids)
  {
    if p :| IsCycle(edges, ids, p) {
      assert Links(edges, ids, p[0], p[1]);
      assert p[0] in Members(order);
      var i :| 0 <= i < |order| && order[i] == p[0];
      PathAdvances(edges, ids, order, p, i);
    }
  }

  // ----- sorting ---------------------------------------------------------------------------------

  /** `_step_sort_key`: numeric identifiers first, by number; the others after them, by text. */
  datatype SortKey = Number(n: int) | Text(t: string)

  predicate TextLeq(a: string, b: string) {
    a == [] || (b != [] && (a[0] < b[0] || (a[0] == b[0] && TextLeq(a[1..], b[1..]))))
  }

  predicate Leq(a: SortKey, b: SortKey) {
    match (a, b)
    case (Number(m), Number(n)) => m <= n
    case (Number(_), Text(_)) => true
    case (Text(_), Number(_)) => false
    case (Text(x), Text(y)) => TextLeq(x, y)
  }

  lemma {:induction false} TextOrder(a: string, b: string, c: string)
    ensures TextLeq(a, b) || TextLeq(b, a)
    ensures TextLeq(a, b) && TextLeq(b, c) ==> TextLeq(a, c)
  {
    if a != [] && b != [] {
      TextOrder(a[1..], b[1..], if c == [] then c else c[1..]);
    }
  }

  lemma KeyOrder(a: SortKey, b: SortKey, c: SortKey)
    ensures Leq(a, b) || Leq(b, a)
    ensures Leq(a, b) && Leq(b, c) ==> Leq(a, c)
  {
    var x, y := if a.Text? then a.t else "", if b.Text? then b.t else "";
    TextOrder(x, y, if c.Text? then c.t else "");
  }

  predicate SortedBy(s: seq<StepId>, key: StepId -> SortKey) {
    forall i, j :: 0 <= i < j < |s| ==> Leq(key(s[i]), key(s[j]))
  }

  method Insert(r: seq<StepId>, x: StepId, key: StepId -> SortKey) returns (t: seq<StepId>)
    requires SortedBy(r, key)
    ensures multiset(t) == multiset(r) + multiset{x} && SortedBy(t, key)
  {
    var k := |r|;
    hide SortedBy;
    while k > 0 && !Leq(key(r[k - 1]), key(x))
      invariant 0 <= k <= |r|
      invariant forall m :: k <= m < |r| ==> Leq(key(x), key(r[m]))
    {
      KeyOrder(key(r[k - 1]), key(x), key(x));
      k := k - 1;
    }
    forall m | 0 <= m < k
      ensures Leq(key(r[m]), key(x))
    {
      assert Leq(key(r[m]), key(r[k - 1])) by { SortedPair(r, m, k - 1, key); }
      KeyOrder(key(r[m]), key(r[k - 1]), key(x));
    }
    t := r[..k] + [x] + r[k..];
    assert multiset(t) == multiset(r) + multiset{x} by { assert r == r[..k] + r[k..]; }
    InsertedSorted(r, k, x, key);
  }

  lemma {:induction false} SortedPair(r: seq<StepId>, i: nat, j: nat, key: StepId -> SortKey)
    requires SortedBy(r, key) && i <= j < |r|
    ensures Leq(key(r[i]), key(r[j]))
  {
    KeyOrder(key(r[i]), key(r[j]), key(r[j]));
  }

  lemma {:induction false} InsertedSorted(r: seq<StepId>, k: nat, x: StepId, key: StepId -> SortKey)
    requires k <= |r| && SortedBy(r, key)
    requires forall m :: 0 <= m < k ==> Leq(key(r[m]), key(x))
    requires forall m :: k <= m < |r| ==> Leq(key(x), key(r[m]))
    ensures SortedBy(r[..k] + [x] + r[k..], key)
  {
    hide Leq;
    var t := r[..k] + [x] + r[k..];
    forall i, j | 0 <= i < j < |t|
      ensures Leq(key(t[i]), key(t[j]))
    {
      assert t[i] == if i < k then r[i] else if i == k then x else r[i - 1];
      assert t[j] == if j < k then r[j] else if j == k then x else r[j - 1];
    }
  }

  /** `sorted(s, key=key)` */
  method Sorted(s: seq<StepId>, key: StepId -> SortKey) returns (r: seq<StepId>)
    ensures multiset(r) == multiset(s) && SortedBy(r, key)
  {
    r := [];
    for n := 0 to |s|
      invariant multiset(r) == multiset(s[..n]) && SortedBy(r, key)
    {
      r := Insert(r, s[n], key);
      assert s[..n + 1] == s[..n] + [s[n]];
    }
    assert s[..|s|] == s;
  }

  // ----- the algorithm ---------------------------------------------------------------------------

  lemma {:induction false} SameElements(r: seq<StepId>, s: seq<StepId>)
    requires multiset(r) == multiset(s)
    ensures forall x :: x in r <==> x in s
    ensures |r| == |s|
    ensures Members(r) == Members(s)
    ensures Distinct(r) <==> Distinct(s)
  {
    assert forall x :: x in r <==> x in multiset(r);
    assert forall x :: x in s <==> x in multiset(s);
    assert |multiset(r)| == |r| && |multiset(s)| == |s|;
    assert Members(r) == Members(s);
    DistinctIffFull(r);
    DistinctIffFull(s);
  }

  lemma NoEdges(ids: set<StepId>)
    ensures forall v :: InCount([], ids, v) == 0 && TargetsOf([], ids, v) == []
  {
  }

  lemma {:induction false} CountNext(edges: seq<Edge>, ids: set<StepId>, n: nat)
    requires n < |edges|
    ensures forall v :: InCount(edges[..n + 1], ids, v) == InCount(edges[..n], ids, v) + if edges[n].source in ids && edges[n].target == v then 1 else 0
    ensures forall u ::
      TargetsOf(edges[..n + 1], ids, u) == (TargetsOf(edges[..n], ids, u) + if edges[n].source == u && edges[n].target in ids then [edges[n].target] else [])
  {
    assert edges[..n + 1][..n] == edges[..n];
  }

  /** The edge lists and counters, built by one pass over the edges. */
  method CountEdges(stepIds: seq<StepId>, edges: seq<Edge>)
      returns (incoming: map<StepId, nat>, outgoing: map<StepId, seq<StepId>>)
    ensures var ids := Members(stepIds);
            && incoming.Keys == ids && outgoing.Keys == ids
            && (forall v :: v in ids ==> incoming[v] == InCount(edges, ids, v))
            && (forall u :: u in ids ==> outgoing[u] == TargetsOf(edges, ids, u))
  {
    hide InCount, TargetsOf;
    var ids := Members(stepIds);
    NoEdges(ids);
    incoming := map v | v in ids :: 0;
    outgoing := map v | v in ids :: [];
    for n := 0 to |edges|
      invariant incoming.Keys == ids && outgoing.Keys == ids
      invariant forall v :: v in ids ==> incoming[v] == InCount(edges[..n], ids, v)
      invariant forall u :: u in ids ==> outgoing[u] == TargetsOf(edges[..n], ids, u)
    {
      var edge := edges[n];
      CountNext(edges, ids, n);
      if edge.source in ids && edge.target in ids {
        outgoing := outgoing[edge.source := outgoing[edge.source] + [edge.target]];
        incoming := incoming[edge.target := incoming[edge.target] + 1];
      }
    }
    assert edges[..|edges|] == edges;
  }

  /** The steps nothing leads to, each once. */
  method Roots(stepIds: seq<StepId>, incoming: map<StepId, nat>) returns (roots: seq<StepId>)
    requires incoming.Keys == Members(stepIds)
    ensures Distinct(roots) && forall v :: v in roots <==> v in incoming && incoming[v] == 0
  {
    roots := [];
    for n := 0 to |stepIds|
      invariant Distinct(roots)
      invariant forall v :: v in roots <==> v in stepIds[..n] && incoming[v] == 0
    {
      var id := stepIds[n];
      assert id in Members(stepIds);
      assert stepIds[..n + 1] == stepIds[..n] + [id];
      if incoming[id] == 0 && id !in roots {
        roots := roots + [id];
      }
    }
    assert stepIds[..|stepIds|] == stepIds;
    assert forall v :: v in stepIds <==> v in Members(stepIds);
  }

  /** What holds whenever the queue is looked at: `live` are the steps not yet ordered. */
  ghost predicate Queued(edges: seq<Edge>, ids: set<StepId>, live: set<StepId>, incoming: map<StepId, nat>, ready: seq<StepId>) {
    && live <= ids && incoming.Keys == ids
    && (forall v :: v in ids ==> incoming[v] == InCount(edges, live, v))
    && Distinct(ready) && (forall v :: v in ready <==> v in live && incoming[v] == 0)
  }

  /** Every predecessor of an ordered step is ordered before it. */
  ghost predicate Settled(edges: seq<Edge>, ids: set<StepId>, order: seq<StepId>) {
    forall j, u :: 0 <= j < |order| && Links(edges, ids, u, order[j]) ==> u in order[..j]
  }

  lemma {:induction false} SettledIsForward(edges: seq<Edge>, ids: set<StepId>, order: seq<StepId>)
    requires Settled(edges, ids, order) && Distinct(order)
    ensures Forward(edges, ids, order)
  {
    forall i, j | 0 <= i < |order| && 0 <= j < |order| && Links(edges, ids, order[i], order[j])
      ensures i < j
    {
      assert order[i] in order[..j];
      var k :| 0 <= k < j && order[k] == order[i];
      assert k == i;
    }
  }

  /** Targets of `u` are still live and not ready: they wait for `u` itself. */
  lemma {:induction false} TargetsWait(edges: seq<Edge>, ids: set<StepId>, live: set<StepId>, u: StepId, targets: seq<StepId>, incoming: map<StepId, nat>)
    requires u in live && live <= ids && incoming.Keys == ids
    requires forall v :: v in ids ==> incoming[v] == InCount(edges, live, v)
    requires multiset(targets) == multiset(TargetsOf(edges, ids, u)) && incoming[u] == 0
    requires forall v :: v in ids - live ==> incoming[v] == 0
    ensures forall v :: v in ids ==> InCount(edges, live, v) == InCount(edges, live - {u}, v) + multiset(targets)[v]
    ensures forall v :: v in targets ==> v in live - {u}
  {
    forall v | v in ids
      ensures InCount(edges, live, v) == InCount(edges, live - {u}, v) + multiset(targets)[v]
    {
      CountWithout(edges, ids, live, u, v);
    }
    forall v | v in targets
      ensures v in live - {u}
    {
      assert v in multiset(targets);
      InTargets(edges, ids, u, v);
      assert v in TargetsOf(edges, ids, u);
    }
  }

  lemma {:induction false} OneMore(s: seq<StepId>, n: nat)
    requires n < |s|
    ensures multiset(s[..n])[s[n]] < multiset(s)[s[n]]
  {
    assert s == s[..n] + [s[n]] + s[n + 1..];
  }

  /** Release the targets of `u`, which has just been ordered. */
  method Release(edges: seq<Edge>, ghost ids: set<StepId>, ghost live: set<StepId>, u: StepId, targets: seq<StepId>,
                 incoming0: map<StepId, nat>, ready0: seq<StepId>, ghost key: StepId -> SortKey)
      returns (incoming: map<StepId, nat>, ready: seq<StepId>)
    requires u in live && live <= ids && incoming0.Keys == ids && u !in ready0
    requires forall v :: v in ids ==> incoming0[v] == InCount(edges, live, v)
    requires incoming0[u] == 0 && Distinct(ready0) && forall v :: v in ready0 <==> v in live - {u} && incoming0[v] == 0
    requires multiset(targets) == multiset(TargetsOf(edges, ids, u)) && SortedBy(targets, key)
    requires forall v :: v in ids - live ==> incoming0[v] == 0
    ensures Queued(edges, ids, live - {u}, incoming, ready)
    ensures ready0 <= ready && SortedBy(ready[|ready0|..], key) && forall v :: v in ready[|ready0|..] ==> v in targets
  {
    hide InCount, TargetsOf, SortedBy;
    NothingSorted(key);
    assert ready0[|ready0|..] == [];
    incoming, ready := incoming0, ready0;
    TargetsWait(edges, ids, live, u, targets, incoming0);
    for n := 0 to |targets|
      invariant incoming.Keys == ids
      invariant forall v :: v in ids ==> incoming[v] == InCount(edges, live, v) - multiset(targets[..n])[v]
      invariant Distinct(ready) && forall v :: v in ready <==> v in live - {u} && incoming[v] == 0
      invariant ready0 <= ready && SortedBy(ready[|ready0|..], key) && forall v :: v in ready[|ready0|..] ==> v in targets[..n]
    {
      var target := targets[n];
      assert target in targets && targets[..n + 1] == targets[..n] + [target];
      assert multiset(targets[..n])[target] < multiset(targets)[target] by { OneMore(targets, n); }
      incoming := incoming[target := incoming[target] - 1];
      if incoming[target] == 0 {
        AppendedSorted(ready[|ready0|..], targets, n, key);
        assert (ready + [target])[|ready0|..] == ready[|ready0|..] + [target];
        ready := ready + [target];
      }
    }
    assert targets[..|targets|] == targets;
  }

  lemma NothingSorted(key: StepId -> SortKey)
    ensures SortedBy([], key)
  {
  }

  lemma {:induction false} AppendedSorted(added: seq<StepId>, targets: seq<StepId>, n: nat, key: StepId -> SortKey)
    requires n < |targets| && SortedBy(targets, key) && SortedBy(added, key) && forall v :: v in added ==> v in targets[..n]
    ensures SortedBy(added + [targets[n]], key)
  {
    hide Leq;
    forall v | v in added
      ensures Leq(key(v), key(targets[n]))
    {
      var m :| 0 <= m < n && targets[..n][m] == v;
    }
  }

  // ----- which order -----------------------------------------------------------------------------

  /** The step becomes ready after the first `t` steps: all its parents are among them, and the last of
      them is one, or it has none. */
  ghost predicate ReadyAfter(edges: seq<Edge>, ids: set<StepId>, order: seq<StepId>, v: StepId, t: nat) {
    t <= |order| && (forall u :: Links(edges, ids, u, v) ==> u in order[..t]) && (t > 0 ==> Links(edges, ids, order[t - 1], v))
  }

  /** What becomes ready first comes first, and what becomes ready together comes in key order. */
  ghost predicate Precedes(edges: seq<Edge>, ids: set<StepId>, order: seq<StepId>, v: StepId, w: StepId, key: StepId -> SortKey) {
    forall s, t :: ReadyAfter(edges, ids, order, v, s) && ReadyAfter(edges, ids, order, w, t) ==> s < t || (s == t && Leq(key(v), key(w)))
  }

  /** First come, first served: the steps in `listed`, of which those in `order` are done. */
  ghost predicate Fifo(edges: seq<Edge>, ids: set<StepId>, order: seq<StepId>, listed: seq<StepId>, key: StepId -> SortKey) {
    forall i, j :: 0 <= i < j < |listed| ==> Precedes(edges, ids, order, listed[i], listed[j], key)
  }

  lemma {:induction false} RootsAreFifo(edges: seq<Edge>, ids: set<StepId>, roots: seq<StepId>, key: StepId -> SortKey)
    requires SortedBy(roots, key)
    ensures Fifo(edges, ids, [], roots, key)
  {
    hide Leq;
  }

  /** A step that was ready before `step` was done became ready as early afterwards as before. */
  lemma {:induction false} ReadyBefore(edges: seq<Edge>, ids: set<StepId>, order: seq<StepId>, step: StepId, v: StepId, t: nat)
    requires step !in order && forall u :: Links(edges, ids, u, v) ==> u in order
    requires ReadyAfter(edges, ids, order + [step], v, t)
    ensures ReadyAfter(edges, ids, order, v, t)
  {
    assert t <= |order| ==> (order + [step])[..t] == order[..t];
  }

  /** A step that `step` released became ready right then. */
  lemma {:induction false} ReadyNow(edges: seq<Edge>, ids: set<StepId>, order: seq<StepId>, step: StepId, v: StepId, t: nat)
    requires step !in order && Links(edges, ids, step, v) && ReadyAfter(edges, ids, order + [step], v, t)
    ensures t == |order| + 1
  {
    var all := order + [step];
    assert step in all[..t];
    var m :| 0 <= m < t && all[m] == step;
    assert m < |order| ==> order[m] in order;
  }

  lemma {:induction false} FifoStep(edges: seq<Edge>, ids: set<StepId>, order: seq<StepId>, listed: seq<StepId>, step: StepId, added: seq<StepId>, key: StepId -> SortKey)
    requires Fifo(edges, ids, order, listed, key) && step !in order && SortedBy(added, key)
    requires forall v, u :: v in listed && Links(edges, ids, u, v) ==> u in order
    requires forall v :: v in added ==> Links(edges, ids, step, v)
    ensures Fifo(edges, ids, order + [step], listed + added, key)
  {
    hide Leq, Links, ReadyAfter;
    var next, all := order + [step], listed + added;
    forall i, j | 0 <= i < j < |all|
      ensures Precedes(edges, ids, next, all[i], all[j], key)
    {
      forall s, t | ReadyAfter(edges, ids, next, all[i], s) && ReadyAfter(edges, ids, next, all[j], t)
        ensures s < t || (s == t && Leq(key(all[i]), key(all[j])))
      {
        FifoPair(edges, ids, order, listed, step, added, key, i, j, s, t);
      }
    }
  }

  lemma {:induction false} FifoPair(edges: seq<Edge>, ids: set<StepId>, order: seq<StepId>, listed: seq<StepId>, step: StepId, added: seq<StepId>, key: StepId -> SortKey,
                 i: nat, j: nat, s: nat, t: nat)
    requires Fifo(edges, ids, order, listed, key) && step !in order && SortedBy(added, key)
    requires forall v, u :: v in listed && Links(edges, ids, u, v) ==> u in order
    requires forall v :: v in added ==> Links(edges, ids, step, v)
    requires i < j < |listed + added|
    requires ReadyAfter(edges, ids, order + [step], (listed + added)[i], s) && ReadyAfter(edges, ids, order + [step], (listed + added)[j], t)
    ensures s < t || (s == t && Leq(key((listed + added)[i]), key((listed + added)[j])))
  {
    hide Leq;
    if i < |listed| {
      assert listed[i] in listed;
      ReadyBefore(edges, ids, order, step, listed[i], s);
      if j < |listed| {
        assert listed[j] in listed;
        ReadyBefore(edges, ids, order, step, listed[j], t);
        assert Precedes(edges, ids, order, listed[i], listed[j], key);
      } else {
        ReadyNow(edges, ids, order, step, added[j - |listed|], t);
      }
    } else {
      ReadyNow(edges, ids, order, step, added[i - |listed|], s);
      ReadyNow(edges, ids, order, step, added[j - |listed|], t);
    }
  }

  lemma {:induction false} ReadyOnce(edges: seq<Edge>, ids: set<StepId>, order: seq<StepId>, v: StepId, n: nat) returns (t: nat)
    requires n <= |order| && forall u :: Links(edges, ids, u, v) ==> u in order[..n]
    ensures t <= n && ReadyAfter(edges, ids, order, v, t)
    decreases n
  {
    if n == 0 || Links(edges, ids, order[n - 1], v) {
      return n;
    }
    forall u | Links(edges, ids, u, v)
      ensures u in order[..n - 1]
    {
      var m :| 0 <= m < n && order[..n][m] == u;
      assert order[..n - 1][m] == u;
    }
    t := ReadyOnce(edges, ids, order, v, n - 1);
  }

  /** Step `n` is ready once the ones before it are done. */
  lemma {:induction false} ReadyInTime(edges: seq<Edge>, ids: set<StepId>, order: seq<StepId>, n: nat) returns (t: nat)
    requires n < |order| && Members(order) == ids && Forward(edges, ids, order)
    ensures t <= n && ReadyAfter(edges, ids, order, order[n], t)
  {
    forall u | Links(edges, ids, u, order[n])
      ensures u in order[..n]
    {
      assert u in Members(order);
      var m :| 0 <= m < |order| && order[m] == u;
      assert m < n;
    }
    t := ReadyOnce(edges, ids, order, order[n], n);
  }

  /** The order is determined by the graph: however ids and edges are listed, when no two steps have the
      same key there is one such order only. */
  lemma {:induction false} OrderIsDetermined(edges: seq<Edge>, more: seq<Edge>, ids: set<StepId>, a: seq<StepId>, b: seq<StepId>, key: StepId -> SortKey, n: nat)
    requires forall u, v :: Links(edges, ids, u, v) <==> Links(more, ids, u, v)
    requires forall u, v :: u in ids && v in ids && Leq(key(u), key(v)) && Leq(key(v), key(u)) ==> u == v
    requires Members(a) == ids && Distinct(a) && Forward(edges, ids, a) && Fifo(edges, ids, a, a, key)
    requires Members(b) == ids && Distinct(b) && Forward(more, ids, b) && Fifo(more, ids, b, b, key)
    requires n <= |a|
    ensures |a| == |b| && a[..n] == b[..n] && (n == |a| ==> a == b)
    decreases n
  {
    DistinctIffFull(a);
    DistinctIffFull(b);
    if n > 0 {
      hide Fifo, Forward, Leq, Links;
      OrderIsDetermined(edges, more, ids, a, b, key, n - 1);
      NextIsDetermined(edges, more, ids, a, b, key, n - 1);
      assert a[..n] == a[..n - 1] + [a[n - 1]] && b[..n] == b[..n - 1] + [b[n - 1]];
    }
    if n == |a| {
      assert a == a[..n] && b == b[..n];
    }
  }

  lemma {:induction false} NextIsDetermined(edges: seq<Edge>, more: seq<Edge>, ids: set<StepId>, a: seq<StepId>, b: seq<StepId>, key: StepId -> SortKey, n: nat)
    requires forall u, v :: Links(edges, ids, u, v) <==> Links(more, ids, u, v)
    requires forall u, v :: u in ids && v in ids && Leq(key(u), key(v)) && Leq(key(v), key(u)) ==> u == v
    requires Members(a) == ids && Distinct(a) && Forward(edges, ids, a) && Fifo(edges, ids, a, a, key)
    requires Members(b) == ids && Distinct(b) && Forward(more, ids, b) && Fifo(more, ids, b, b, key)
    requires n < |a| == |b| && a[..n] == b[..n]
    ensures a[n] == b[n]
  {
    hide Leq, Links, Forward;
    var s := ReadyInTime(edges, ids, a, n);
    var t := ReadyInTime(more, ids, b, n);
    SameReady(edges, more, ids, a, b, a[n], s);
    SameReady(more, edges, ids, b, a, b[n], t);
    var i := Later(a, b, n);
    var j := Later(b, a, n);
    assert a[n] in Members(a) && b[n] in Members(b);
    assert i > n ==> Precedes(edges, ids, a, a[n], a[i], key);
    assert j > n ==> Precedes(more, ids, b, b[n], b[j], key);
  }

  lemma {:induction false} SameReady(edges: seq<Edge>, more: seq<Edge>, ids: set<StepId>, a: seq<StepId>, b: seq<StepId>, v: StepId, t: nat)
    requires forall u, w :: Links(edges, ids, u, w) <==> Links(more, ids, u, w)
    requires ReadyAfter(edges, ids, a, v, t) && t <= |b| && a[..t] == b[..t]
    ensures ReadyAfter(more, ids, b, v, t)
  {
    hide Links;
    assert t > 0 ==> a[..t][t - 1] == b[..t][t - 1];
  }

  /** Where the next one of `b` is in `a`. */
  lemma {:induction false} Later(a: seq<StepId>, b: seq<StepId>, n: nat) returns (i: nat)
    requires Members(a) == Members(b) && Distinct(b) && n < |a| && n < |b| && a[..n] == b[..n]
    ensures n <= i < |a| && a[i] == b[n]
  {
    assert b[n] in Members(b);
    i :| i < |a| && a[i] == b[n];
    forall m | 0 <= m < n
      ensures a[m] == b[m]
    {
      assert a[..n][m] == b[..n][m];
    }
  }

  /** What holds whenever the queue is looked at: what is done is settled, and everybody is served in turn. */
  ghost predicate InTurn(edges: seq<Edge>, ids: set<StepId>, live: set<StepId>, incoming: map<StepId, nat>, ready: seq<StepId>,
                         ordered: seq<StepId>, key: StepId -> SortKey) {
    && Queued(edges, ids, live, incoming, ready)
    && Members(ordered) == ids - live && Distinct(ordered) && Settled(edges, ids, ordered)
    && Fifo(edges, ids, ordered, ordered + ready, key)
  }

  method TopologicalOrder(stepIds: seq<StepId>, edges: seq<Edge>, key: StepId -> SortKey) returns (r: Result)
    ensures r.ContainsCycle? <==> HasCycle(edges, Members(stepIds)) || !Distinct(stepIds)
    ensures r.Ok? ==> multiset(r.order) == multiset(stepIds) && Distinct(r.order) && Forward(edges, Members(stepIds), r.order)
    ensures r.Ok? ==> Fifo(edges, Members(stepIds), r.order, r.order, key)
  {
    hide InTurn, Queued, Fifo, SortedBy, Distinct, HasCycle, Forward, InCount, TargetsOf;
    ghost var ids := Members(stepIds);
    var incoming, outgoing := CountEdges(stepIds, edges);
    var roots := Roots(stepIds, incoming);
    var ready := Sorted(roots, key);
    var ordered: seq<StepId> := [];
    ghost var live := ids;
    RootsInTurn(edges, ids, incoming, roots, ready, key);
    while ready != []
      invariant incoming.Keys == ids && InTurn(edges, ids, live, incoming, ready, ordered, key)
      decreases |live|
    {
      var step := ready[0];
      ghost var counts, before, rest := incoming, ordered, ready[1..];
      NextInTurn(edges, ids, live, incoming, ready, ordered, key);
      assert ready == [step] + rest;
      ready := ready[1..];
      var targets := Sorted(outgoing[step], key);
      ordered := ordered + [step];
      incoming, ready := Release(edges, ids, live, step, targets, incoming, ready, key);
      StillInTurn(edges, ids, live, counts, step, rest, before, targets, incoming, ready, key);
      live := live - {step};
    }
    NobodyLeft(stepIds, edges, live, incoming, ordered, key);
    if |ordered| != |stepIds| {
      return ContainsCycle;
    }
    return Ok(ordered);
  }

  lemma {:induction false} RootsInTurn(edges: seq<Edge>, ids: set<StepId>, incoming: map<StepId, nat>, roots: seq<StepId>, ready: seq<StepId>, key: StepId -> SortKey)
    requires incoming.Keys == ids && (forall v :: v in ids ==> incoming[v] == InCount(edges, ids, v))
    requires Distinct(roots) && (forall v :: v in roots <==> v in incoming && incoming[v] == 0)
    requires multiset(ready) == multiset(roots) && SortedBy(ready, key)
    ensures InTurn(edges, ids, ids, incoming, ready, [], key)
  {
    SameElements(ready, roots);
    RootsAreFifo(edges, ids, ready, key);
    assert [] + ready == ready;
  }

  /** The first in the queue can be ordered, and the others stay ready. */
  lemma {:induction false} NextInTurn(edges: seq<Edge>, ids: set<StepId>, live: set<StepId>, incoming: map<StepId, nat>, ready: seq<StepId>, ordered: seq<StepId>, key: StepId -> SortKey)
    requires InTurn(edges, ids, live, incoming, ready, ordered, key) && ready != []
    ensures var step, rest := ready[0], ready[1..];
      && step in live && live <= ids && incoming.Keys == ids && step !in rest
      && (forall v :: v in ids ==> incoming[v] == InCount(edges, live, v))
      && incoming[step] == 0 && Distinct(rest) && (forall v :: v in rest <==> v in live - {step} && incoming[v] == 0)
      && (forall v :: v in ids - live ==> incoming[v] == 0)
  {
    hide Fifo, InCount;
    var step, rest := ready[0], ready[1..];
    assert step in ready && ready == [step] + rest;
    SettledHaveNone(edges, ids, live, ordered);
  }

  lemma {:induction false} StillInTurn(edges: seq<Edge>, ids: set<StepId>, live: set<StepId>, counts: map<StepId, nat>, step: StepId, rest: seq<StepId>, ordered: seq<StepId>,
                    targets: seq<StepId>, incoming: map<StepId, nat>, ready: seq<StepId>, key: StepId -> SortKey)
    requires InTurn(edges, ids, live, counts, [step] + rest, ordered, key) && step in live && live <= ids
    requires multiset(targets) == multiset(TargetsOf(edges, ids, step)) && Queued(edges, ids, live - {step}, incoming, ready)
    requires rest <= ready && SortedBy(ready[|rest|..], key) && forall v :: v in ready[|rest|..] ==> v in targets
    ensures InTurn(edges, ids, live - {step}, incoming, ready, ordered + [step], key) && incoming.Keys == ids
  {
    var queue, added := [step] + rest, ready[|rest|..];
    assert queue[0] == step && step in queue;
    hide Fifo, SortedBy, Distinct, TargetsOf, InCount;
    ParentsDone(edges, ids, live, ordered, counts, queue);
    OrderNext(edges, ids, live, ordered, step) by { assert counts[step] == 0; }
    TargetsAreLinked(edges, ids, step, targets, added);
    FifoStep(edges, ids, ordered, ordered + queue, step, added, key);
    assert (ordered + [step]) + ready == (ordered + queue) + added;
  }

  lemma {:induction false} NobodyLeft(stepIds: seq<StepId>, edges: seq<Edge>, live: set<StepId>, incoming: map<StepId, nat>, ordered: seq<StepId>, key: StepId -> SortKey)
    requires InTurn(edges, Members(stepIds), live, incoming, [], ordered, key)
    ensures |ordered| != |stepIds| <==> HasCycle(edges, Members(stepIds)) || !Distinct(stepIds)
    ensures |ordered| == |stepIds| ==>
      && multiset(ordered) == multiset(stepIds) && Distinct(ordered) && Forward(edges, Members(stepIds), ordered)
      && Fifo(edges, Members(stepIds), ordered, ordered, key)
  {
    hide Fifo, HasCycle, Forward;
    Finished(stepIds, edges, live, ordered);
    assert ordered + [] == ordered;
  }

  /** Every parent of a step that is done or ready is done. */
  lemma {:induction false} ParentsDone(edges: seq<Edge>, ids: set<StepId>, live: set<StepId>, ordered: seq<StepId>, incoming: map<StepId, nat>, ready: seq<StepId>)
    requires Queued(edges, ids, live, incoming, ready) && Members(ordered) == ids - live && Settled(edges, ids, ordered)
    ensures forall v, u :: v in ordered + ready && Links(edges, ids, u, v) ==> u in ordered
    ensures forall v :: v in ready ==> v !in ordered
  {
    forall v, u | v in ordered + ready && Links(edges, ids, u, v)
      ensures u in ordered
    {
      if v in ready {
        PredecessorsOrdered(edges, ids, live, v);
        assert u in Members(ordered);
      } else {
        var j :| 0 <= j < |ordered| && ordered[j] == v;
        assert u in ordered[..j];
      }
    }
    assert forall v :: v in ordered ==> v in Members(ordered);
  }

  lemma {:induction false} TargetsAreLinked(edges: seq<Edge>, ids: set<StepId>, u: StepId, targets: seq<StepId>, added: seq<StepId>)
    requires u in ids && multiset(targets) == multiset(TargetsOf(edges, ids, u)) && forall v :: v in added ==> v in targets
    ensures forall v :: v in added ==> Links(edges, ids, u, v)
  {
    forall v | v in added
      ensures Links(edges, ids, u, v)
    {
      assert v in multiset(targets);
      InTargets(edges, ids, u, v);
    }
  }

  /** A step without live predecessors may be ordered next. */
  lemma {:induction false} OrderNext(edges: seq<Edge>, ids: set<StepId>, live: set<StepId>, ordered: seq<StepId>, step: StepId)
    requires live <= ids && step in live && InCount(edges, live, step) == 0
    requires Members(ordered) == ids - live && Distinct(ordered) && Settled(edges, ids, ordered)
    ensures var next := ordered + [step];
            Members(next) == ids - (live - {step}) && Distinct(next) && Settled(edges, ids, next)
  {
    var next := ordered + [step];
    assert step !in Members(ordered);
    assert Members(next) == Members(ordered) + {step};
    forall j, u | 0 <= j < |next| && Links(edges, ids, u, next[j])
      ensures u in next[..j]
    {
      if j < |ordered| {
        assert next[..j] == ordered[..j];
      } else {
        assert next[..j] == ordered;
        PredecessorsOrdered(edges, ids, live, step);
        assert u in Members(ordered);
      }
    }
  }

  /** Ordered steps have no predecessor left among the live ones. */
  lemma {:induction false} SettledHaveNone(edges: seq<Edge>, ids: set<StepId>, live: set<StepId>, ordered: seq<StepId>)
    requires live <= ids && Members(ordered) == ids - live && Settled(edges, ids, ordered)
    ensures forall v :: v in ids - live ==> InCount(edges, live, v) == 0
  {
    forall v | v in ids - live
      ensures InCount(edges, live, v) == 0
    {
      CountPositive(edges, live, v);
      if k :| 0 <= k < |edges| && edges[k].source in live && edges[k].target == v {
        assert v in Members(ordered);
        var j :| 0 <= j < |ordered| && ordered[j] == v;
        assert Links(edges, ids, edges[k].source, ordered[j]);
        assert false;
      }
    }
  }

  /** The queue ran empty: everything is ordered, or what is left contains a cycle. */
  lemma {:induction false} Finished(stepIds: seq<StepId>, edges: seq<Edge>, live: set<StepId>, ordered: seq<StepId>)
    requires var ids := Members(stepIds);
             && live <= ids && Members(ordered) == ids - live && Distinct(ordered) && Settled(edges, ids, ordered)
             && forall v :: v in live ==> InCount(edges, live, v) > 0
    ensures |ordered| != |stepIds| <==> HasCycle(edges, Members(stepIds)) || !Distinct(stepIds)
    ensures |ordered| == |stepIds| ==> multiset(ordered) == multiset(stepIds) && Forward(edges, Members(stepIds), ordered)
  {
    var ids := Members(stepIds);
    DistinctIffFull(ordered);
    DistinctIffFull(stepIds);
    SubsetSize(ids - live, ids);
    if live != {} {
      StuckMeansCycle(edges, ids, live);
    } else {
      assert ids - live == ids;
      SettledIsForward(edges, ids, ordered);
      ForwardMeansNoCycle(edges, ids, ordered);
      if Distinct(stepIds) { SameSize(ordered, stepIds); }
    }
  }

  lemma {:induction false} PredecessorsOrdered(edges: seq<Edge>, ids: set<StepId>, live: set<StepId>, v: StepId)
    requires v in ids && InCount(edges, live, v) == 0
    ensures forall u :: Links(edges, ids, u, v) ==> u in ids - live
  {
    CountPositive(edges, live, v);
  }

  lemma {:induction false} SameSize(r: seq<StepId>, s: seq<StepId>)
    requires Distinct(r) && Distinct(s) && Members(r) == Members(s)
    ensures multiset(r) == multiset(s)
  {
    forall x
      ensures multiset(r)[x] == multiset(s)[x]
    {
      AtMostOnce(r, x);
      AtMostOnce(s, x);
      assert x in r <==> x in Members(r);
      assert x in s <==> x in Members(s);
    }
  }

  lemma {:induction false} AtMostOnce(s: seq<StepId>, x: StepId)
    requires Distinct(s)
    ensures multiset(s)[x] == if x in s then 1 else 0
  {
    if s != [] {
      var front, last := s[..|s| - 1], s[|s| - 1];
      AtMostOnce(front, x);
      assert s == front + [last];
      if x in s {
        var k :| 0 <= k < |s| && s[k] == x;
        assert k < |front| ==> front[k] == x;
      }
    }
  }

  // ----- dependencies ----------------------------------------------------------------------------

  /** `_dependency_lookup`: every step's parents, each once, sorted. */
  method DependencyLookup(stepIds: seq<StepId>, edges: seq<Edge>, key: StepId -> SortKey) returns (parents: map<StepId, seq<StepId>>)
    ensures var ids := Members(stepIds);
            && parents.Keys == ids
            && forall v :: v in ids ==>
                 Distinct(parents[v]) && SortedBy(parents[v], key) && forall u :: u in parents[v] <==> Links(edges, ids, u, v)
  {
    hide Links, Distinct, SortedBy;
    var ids := Members(stepIds);
    var found := CollectParents(ids, edges);
    parents := map[];
    var rest := ids;
    while rest != {}
      invariant rest <= ids && parents.Keys == ids - rest
      invariant forall v :: v in ids - rest ==>
        Distinct(parents[v]) && SortedBy(parents[v], key) && forall u :: u in parents[v] <==> u in found[v]
      decreases |rest|
    {
      var v :| v in rest;
      var listed := Listing(found[v]);
      var sorted := Sorted(listed, key);
      SameElements(sorted, listed);
      parents := parents[v := sorted];
      rest := rest - {v};
    }
  }

  method CollectParents(ids: set<StepId>, edges: seq<Edge>) returns (found: map<StepId, set<StepId>>)
    ensures found.Keys == ids && forall v :: v in ids ==> forall u :: u in found[v] <==> Links(edges, ids, u, v)
  {
    found := map v | v in ids :: {};
    for n := 0 to |edges|
      invariant found.Keys == ids
      invariant forall v :: v in ids ==> forall u :: u in found[v] <==> Links(edges[..n], ids, u, v)
    {
      var edge := edges[n];
      LinksNext(edges, ids, n);
      if edge.source in ids && edge.target in ids {
        found := found[edge.target := found[edge.target] + {edge.source}];
      }
    }
    assert edges[..|edges|] == edges;
  }

  lemma {:induction false} LinksNext(edges: seq<Edge>, ids: set<StepId>, n: nat)
    requires n < |edges|
    ensures forall u, v :: Links(edges[..n + 1], ids, u, v) <==>
      Links(edges[..n], ids, u, v) || (u in ids && v in ids && edges[n].source == u && edges[n].target == v)
  {
    forall u, v
      ensures Links(edges[..n + 1], ids, u, v) <==>
        Links(edges[..n], ids, u, v) || (u in ids && v in ids && edges[n].source == u && edges[n].target == v)
    {
      if Links(edges[..n], ids, u, v) {
        var k :| 0 <= k < n && edges[..n][k].source == u && edges[..n][k].target == v;
        assert edges[..n + 1][k] == edges[..n][k];
      }
      if u in ids && v in ids && edges[n].source == u && edges[n].target == v {
        assert edges[..n + 1][n] == edges[n];
      }
      if Links(edges[..n + 1], ids, u, v) {
        var k :| 0 <= k < n + 1 && edges[..n + 1][k].source == u && edges[..n + 1][k].target == v;
        assert k < n ==> edges[..n][k] == edges[..n + 1][k];
      }
    }
  }

  method Listing(s: set<StepId>) returns (r: seq<StepId>)
    ensures Distinct(r) && forall x :: x in r <==> x in s
  {
    r := [];
    var rest := s;
    while rest != {}
      invariant rest <= s && Distinct(r)
      invariant forall x :: x in r <==> x in s - rest
      decreases |rest|
    {
      var x :| x in rest;
      assert x !in r;
      assert forall i :: 0 <= i < |r| ==> r[i] in r;
      r, rest := r + [x], rest - {x};
    }
  }

  /** A step's parents are compiled before it. */
  lemma {:induction false} ParentsFirst(stepIds: seq<StepId>, edges: seq<Edge>, order: seq<StepId>, parents: seq<StepId>, i: nat)
    requires multiset(order) == multiset(stepIds) && Forward(edges, Members(stepIds), order) && i < |order|
    requires forall u :: u in parents <==> Links(edges, Members(stepIds), u, order[i])
    ensures forall u :: u in parents ==> u in order[..i]
  {
    SameElements(order, stepIds);
    forall u | u in parents
      ensures u in order[..i]
    {
      assert u in Members(order);
      var j :| 0 <= j < |order| && order[j] == u;
      assert j < i && order[..i][j] == u;
    }
  }

  // ----- edges -----------------------------------------------------------------------------------

  predicate Usable(e: Edge) {
    e.source != "" && e.target != "" && e.source != e.target
  }

  /** `extract_pipeline_edges` after cleaning: canvas edges, then flows; broken ones, loops and repeats dropped. */
  method ExtractEdges(canvas: seq<Edge>, flows: seq<Edge>) returns (edges: seq<Edge>)
    ensures Distinct(edges)
    ensures forall e :: e in edges <==> e in canvas + flows && Usable(e)
    ensures forall ids, u, v :: Links(edges, ids, u, v) <==> u != "" && v != "" && u != v && Links(canvas + flows, ids, u, v)
  {
    edges := [];
    var raw := canvas + flows;
    for n := 0 to |raw|
      invariant Distinct(edges)
      invariant forall e :: e in edges <==> e in raw[..n] && Usable(e)
    {
      assert raw[..n + 1] == raw[..n] + [raw[n]];
      if Usable(raw[n]) && raw[n] !in edges {
        edges := edges + [raw[n]];
      }
    }
    assert raw[..|raw|] == raw;
    forall ids, u, v
      ensures Links(edges, ids, u, v) <==> u != "" && v != "" && u != v && Links(raw, ids, u, v)
    {
      LinksByMembership(edges, ids, u, v);
      LinksByMembership(raw, ids, u, v);
    }
  }

  lemma {:induction false} LinksByMembership(edges: seq<Edge>, ids: set<StepId>, u: StepId, v: StepId)
    ensures Links(edges, ids, u, v) <==> u in ids && v in ids && exists e :: e in edges && e.source == u && e.target == v
  {
    if u in ids && v in ids {
      if e :| e in edges && e.source == u && e.target == v {
        var k :| 0 <= k < |edges| && edges[k] == e;
      }
      if Links(edges, ids, u, v) {
        var k :| 0 <= k < |edges| && edges[k].source == u && edges[k].target == v;
        assert edges[k] in edges;
      }
    }
  }
}
