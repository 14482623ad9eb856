/** Attaching generated code to a pipeline: what a run may replace, which results are good enough, and
    the single transaction that attaches them.  Flow ids are stripped, and "" when there is none. */
module CodegenGate {
  import opened Wrappers
  import GraphRevision

  // ----- preflight: what may be generated --------------------------------------------------------

  /** What a Task node says about code attached to it earlier. */
  datatype Earlier = Earlier(byService: bool, status: string, valid: bool, files: bool, userModified: bool)

  datatype Node = NotAnObject | Node(flowId: string, task: bool, earlier: Option<Earlier>, codeFiles: bool)

  datatype Status = Modified | Manual | Current | Stale | Invalid | Missing

  datatype Owner = User | Generated | Nobody

  datatype Item = Item(flowId: string, status: Status, owner: Owner, reusable: bool)

  /** `_node_codegen_preflight_item`. */
  function PreflightItem(node: Node): Item
    requires node.Node?
  {
    var byService := node.earlier.Some? && node.earlier.value.byService;
    var modified := node.earlier.Some? && node.earlier.value.userModified;
    var reusable := byService && node.earlier.value.status == "current" && node.earlier.value.valid
                    && node.earlier.value.files && !modified;
    if modified then Item(node.flowId, Modified, User, reusable)
    else if node.codeFiles && !byService then Item(node.flowId, Manual, User, reusable)
    else if reusable then Item(node.flowId, Current, Generated, reusable)
    else if node.earlier.Some? then
      Item(node.flowId, if node.earlier.value.status == "stale" then Stale else Invalid, Generated, reusable)
    else Item(node.flowId, Missing, Nobody, reusable)
  }

  predicate IsTask(node: Node) {
    node.Node? && node.flowId != "" && node.task
  }

  datatype Request = Request(scope: string, selected: set<string>, overwriteManualCode: bool)

  datatype Preflight = Preflight(items: set<Item>, targets: set<string>, guarded: set<string>, reusable: set<string>, full: bool)

  function TaskIds(graph: seq<Node>): set<string> {
    set n | 0 <= n < |graph| && IsTask(graph[n]) :: graph[n].flowId
  }

  /** `_pipeline_codegen_preflight`. */
  function PipelinePreflight(graph: seq<Node>, request: Request): Preflight {
    var items := set n | 0 <= n < |graph| && IsTask(graph[n]) :: PreflightItem(graph[n]);
    var all := set i | i in items :: i.flowId;
    var targets :=
      if request.scope == "all" then all
      else if request.scope == "selected" then request.selected * all
      else set i | i in items && !i.reusable && i.status != Manual :: i.flowId;
    var outside := set i | i in items && i.flowId !in targets && !i.reusable :: i.flowId;
    Preflight(
      items, targets,
      set i | i in items && i.flowId in targets && i.owner == User :: i.flowId,
      set i | i in items && i.flowId !in targets && i.reusable :: i.flowId,
      outside != {} || request.scope == "all" || (all != {} && targets == all))
  }

  datatype Conflict = NothingToGenerate | ManualCode

  /** `_pipeline_codegen_conflict`. */
  function PipelineConflict(preflight: Preflight, request: Request): Option<Conflict> {
    if preflight.targets == {} then Some(NothingToGenerate)
    else if preflight.guarded != {} && !request.overwriteManualCode then Some(ManualCode)
    else None
  }

  /** Generated code that somebody has edited since. */
  predicate Edited(node: Node) {
    node.Node? && node.earlier.Some? && node.earlier.value.userModified
  }

  /** Code files that the service did not generate. */
  predicate Uploaded(node: Node) {
    node.Node? && node.codeFiles && !(node.earlier.Some? && node.earlier.value.byService)
  }

  /** Generated code that is current, valid and untouched. */
  predicate Reusable(node: Node) {
    && node.Node? && node.earlier.Some? && !node.earlier.value.userModified
    && node.earlier.value.byService && node.earlier.value.status == "current" && node.earlier.value.valid && node.earlier.value.files
  }

  /** A Task that holds code somebody wrote or edited. */
  ghost predicate UserOwned(graph: seq<Node>, id: string) {
    exists n :: 0 <= n < |graph| && IsTask(graph[n]) && graph[n].flowId == id && (Edited(graph[n]) || Uploaded(graph[n]))
  }

  /** The preflight of one Task, by what its node says. */
  lemma ItemIsExplained(node: Node)
    requires node.Node?
    ensures var item := PreflightItem(node);
      && item.flowId == node.flowId && (item.reusable <==> Reusable(node))
      && (item.owner == User <==> Edited(node) || Uploaded(node))
      && (item.owner == Nobody <==> !node.codeFiles && node.earlier.None?)
      && (item.status == Modified <==> Edited(node))
      && (item.status == Manual <==> Uploaded(node) && !Edited(node))
      && (item.status == Current <==> Reusable(node))
      && (item.status == Missing <==> !node.codeFiles && node.earlier.None?)
  {
  }

  /** Which Tasks a run with this scope is to generate: all, the selected ones, or those without reusable
      code, where uploaded code that was not generated is left alone. */
  ghost predicate Wanted(node: Node, request: Request) {
    && IsTask(node)
    && if request.scope == "all" then true
       else if request.scope == "selected" then node.flowId in request.selected
       else !Reusable(node) && !(Uploaded(node) && !Edited(node))
  }

  /** The targets, the guarded ones among them, and what can be reused, by what the nodes say. */
  lemma {:induction false} PreflightIsExplained(graph: seq<Node>, request: Request, id: string)
    ensures var p := PipelinePreflight(graph, request);
      && (id in p.targets <==> exists n :: 0 <= n < |graph| && graph[n].Node? && graph[n].flowId == id && Wanted(graph[n], request))
      && (id in p.guarded <==> id in p.targets && UserOwned(graph, id))
      && (id in p.reusable <==> id !in p.targets && exists n :: 0 <= n < |graph| && IsTask(graph[n]) && graph[n].flowId == id && Reusable(graph[n]))
  {
    var p := PipelinePreflight(graph, request);
    hide Reusable, Edited, Uploaded, PreflightItem;
    forall n | 0 <= n < |graph| && IsTask(graph[n])
      ensures PreflightItem(graph[n]) in p.items
      ensures PreflightItem(graph[n]).flowId == graph[n].flowId && (PreflightItem(graph[n]).reusable <==> Reusable(graph[n]))
      ensures PreflightItem(graph[n]).owner == User <==> Edited(graph[n]) || Uploaded(graph[n])
      ensures PreflightItem(graph[n]).status == Manual <==> Uploaded(graph[n]) && !Edited(graph[n])
    {
      ItemIsExplained(graph[n]);
    }
    forall i | i in p.items
      ensures exists n :: 0 <= n < |graph| && IsTask(graph[n]) && PreflightItem(graph[n]) == i
    {
    }
  }

  /** A run is refused exactly when it has no target, or reaches user-owned code without approval; its
      targets are Tasks. */
  lemma {:induction false} ConflictGuardsUserCode(graph: seq<Node>, request: Request)
    ensures var p := PipelinePreflight(graph, request);
      && p.targets <= TaskIds(graph)
      && (PipelineConflict(p, request).None?
          <==> p.targets != {} && (request.overwriteManualCode || forall id :: id in p.targets ==> !UserOwned(graph, id)))
  {
    var p := PipelinePreflight(graph, request);
    forall n | 0 <= n < |graph| && IsTask(graph[n])
      ensures PreflightItem(graph[n]) in p.items && PreflightItem(graph[n]).flowId == graph[n].flowId
    {
    }
    forall id | id in p.targets
      ensures id in TaskIds(graph)
    {
      var i :| i in p.items && i.flowId == id;
    }
    assert forall id :: id in p.targets && UserOwned(graph, id) ==> id in p.guarded;
  }

  /** A partial run leaves out only Tasks whose generated code can be reused as it is, and the run is
      partial exactly when it leaves out something and nothing else. */
  lemma {:induction false} PartialRunReusesTheRest(graph: seq<Node>, request: Request)
    ensures var p := PipelinePreflight(graph, request); p.targets != {} ==>
      (!p.full <==>
        (p.targets != TaskIds(graph)
         && forall n :: 0 <= n < |graph| && IsTask(graph[n]) && graph[n].flowId !in p.targets ==> Reusable(graph[n])))
  {
    var p := PipelinePreflight(graph, request);
    var all := set i | i in p.items :: i.flowId;
    forall n | 0 <= n < |graph| && IsTask(graph[n])
      ensures PreflightItem(graph[n]) in p.items && PreflightItem(graph[n]).flowId == graph[n].flowId
    {
    }
    forall id
      ensures id in all <==> id in TaskIds(graph)
    {
      if id in TaskIds(graph) {
        var n :| 0 <= n < |graph| && IsTask(graph[n]) && graph[n].flowId == id;
        assert PreflightItem(graph[n]) in p.items;
      }
    }
    assert all == TaskIds(graph);
    var outside := set i | i in p.items && i.flowId !in p.targets && !i.reusable :: i.flowId;
    if outside != {} {
      var id :| id in outside;
      var i :| i in p.items && i.flowId == id && i.flowId !in p.targets && !i.reusable;
    }
    forall n | 0 <= n < |graph| && IsTask(graph[n]) && graph[n].flowId !in p.targets && !PreflightItem(graph[n]).reusable
      ensures PreflightItem(graph[n]).flowId in outside
    {
    }
  }

  // ----- results ---------------------------------------------------------------------------------

  /** A generated file: a Python script or not, with or without text. */
  datatype CodeFile = CodeFile(python: bool, text: bool)

  datatype Artifact = Artifact(valid: bool, files: seq<CodeFile>, digest: string)

  /** One entry of the service's answer. */
  datatype Result = NotAResult | Result(flowId: string, artifact: Option<Artifact>)

  predicate HasScript(a: Artifact) {
    exists f :: f in a.files && f.python && f.text
  }

  datatype Problem = NoObject | NoFlowId | NoArtifact | BadArtifact(validation: bool, script: bool) | NoResult | SeveralResults | UnknownNode

  datatype Report = Report(flowId: string, problem: Problem)

  /** The flow ids that were answered for, in order. */
  function Seen(items: seq<Result>): seq<string> {
    if items == [] then []
    else
      var last := items[|items| - 1];
      Seen(items[..|items| - 1]) + if last.Result? && last.flowId != "" then [last.flowId] else []
  }

  /** What one entry is reported for on its own. */
  function OwnProblem(item: Result): Option<Report> {
    if item.NotAResult? then Some(Report("", NoObject))
    else if item.flowId == "" then Some(Report("", NoFlowId))
    else if item.artifact.None? then Some(Report(item.flowId, NoArtifact))
    else if item.artifact.value.valid && HasScript(item.artifact.value) then None
    else Some(Report(item.flowId, BadArtifact(!item.artifact.value.valid, !HasScript(item.artifact.value))))
  }

  ghost predicate EntryProblem(items: seq<Result>, r: Report) {
    exists n :: 0 <= n < |items| && OwnProblem(items[n]) == Some(r)
  }

  /** `seen.count(id)`. */
  function Times(seen: seq<string>, id: string): (count: nat)
    ensures count > 0 <==> id in seen
  {
    if seen == [] then 0
    else
      assert seen == seen[..|seen| - 1] + [seen[|seen| - 1]];
      Times(seen[..|seen| - 1], id) + if seen[|seen| - 1] == id then 1 else 0
  }

  function CountProblem(seen: seq<string>, id: string): Option<Problem> {
    if Times(seen, id) == 0 then Some(NoResult)
    else if Times(seen, id) > 1 then Some(SeveralResults)
    else None
  }

  ghost predicate ExpectedProblem(seen: seq<string>, expected: seq<string>, r: Report) {
    r.flowId in expected && r.flowId != "" && CountProblem(seen, r.flowId) == Some(r.problem)
  }

  ghost predicate UnknownProblem(seen: seq<string>, expected: seq<string>, r: Report) {
    && (exists id :: id in expected && id != "")
    && r.problem == UnknownNode && r.flowId in seen && r.flowId !in Named(expected)
  }

  /** `_invalid_codegen_nodes`: it reports exactly the problems there are. */
  method InvalidCodegenNodes(items: seq<Result>, expected: seq<string>) returns (invalid: seq<Report>)
    ensures forall r :: r in invalid <==>
      EntryProblem(items, r) || ExpectedProblem(Seen(items), expected, r) || UnknownProblem(Seen(items), expected, r)
  {
    hide EntryProblem, CountProblem;
    var seen;
    invalid, seen := CheckEntries(items);
    var named := Named(expected);
    invalid := CheckExpected(invalid, seen, named);
    if named != [] {
      assert named[0] in named;
      invalid := AppendUnknown(invalid, set id | id in seen && id !in named);
    }
  }

  /** The first loop: every entry on its own. */
  method CheckEntries(items: seq<Result>) returns (invalid: seq<Report>, seen: seq<string>)
    ensures seen == Seen(items)
    ensures forall r :: r in invalid <==> EntryProblem(items, r)
  {
    hide EntryProblem, Seen, HasScript;
    invalid, seen := [], [];
    EmptyAnswer();
    for n := 0 to |items|
      invariant seen == Seen(items[..n])
      invariant forall r :: r in invalid <==> EntryProblem(items[..n], r)
    {
      var item := items[n];
      OneMoreEntry(items[..n], item);
      assert items[..n + 1] == items[..n] + [item];
      if item.NotAResult? {
        invalid := invalid + [Report("", NoObject)];
      } else if item.flowId == "" {
        invalid := invalid + [Report("", NoFlowId)];
      } else {
        seen := seen + [item.flowId];
        if item.artifact.None? {
          invalid := invalid + [Report(item.flowId, NoArtifact)];
        } else {
          var artifact := item.artifact.value;
          var validation, script := !artifact.valid, !HasScript(artifact);
          if validation || script {
            invalid := invalid + [Report(item.flowId, BadArtifact(validation, script))];
          }
        }
      }
    }
    assert items[..|items|] == items;
  }

  lemma EmptyAnswer()
    ensures Seen([]) == [] && forall r :: !EntryProblem([], r)
  {
  }

  /** The expected ids that are not blank. */
  function Named(expected: seq<string>): (named: seq<string>)
    ensures forall id :: id in named <==> id in expected && id != ""
  {
    if expected == [] then []
    else
      var last := expected[|expected| - 1];
      assert expected == expected[..|expected| - 1] + [last];
      Named(expected[..|expected| - 1]) + if last == "" then [] else [last]
  }

  /** The second loop: one result for every expected node. */
  method CheckExpected(reports: seq<Report>, seen: seq<string>, expected: seq<string>) returns (invalid: seq<Report>)
    ensures forall r :: r in invalid <==> r in reports || (r.flowId in expected && CountProblem(seen, r.flowId) == Some(r.problem))
  {
    invalid := reports;
    for n := 0 to |expected|
      invariant forall r :: r in invalid <==>
        r in reports || (r.flowId in expected[..n] && CountProblem(seen, r.flowId) == Some(r.problem))
    {
      var id := expected[n];
      assert expected[..n + 1] == expected[..n] + [id];
      var problem := CountProblem(seen, id);
      if problem.Some? {
        invalid := invalid + [Report(id, problem.value)];
      }
    }
    assert expected[..|expected|] == expected;
  }

  method AppendUnknown(reports: seq<Report>, unknown: set<string>) returns (invalid: seq<Report>)
    ensures forall r :: r in invalid <==> r in reports || (r.problem == UnknownNode && r.flowId in unknown)
  {
    invalid := reports;
    var left := unknown;
    while left != {}
      invariant left <= unknown
      invariant forall r :: r in invalid <==> r in reports || (r.problem == UnknownNode && r.flowId in unknown - left)
      decreases |left|
    {
      var id :| id in left;
      invalid := invalid + [Report(id, UnknownNode)];
      left := left - {id};
    }
  }

  lemma {:induction false} OneMoreEntry(items: seq<Result>, item: Result)
    ensures forall r :: EntryProblem(items + [item], r) <==> EntryProblem(items, r) || OwnProblem(item) == Some(r)
    ensures Seen(items + [item]) == Seen(items) + if item.Result? && item.flowId != "" then [item.flowId] else []
  {
    var all := items + [item];
    assert all[..|items|] == items && all[|items|] == item;
    forall r
      ensures EntryProblem(all, r) <==> EntryProblem(items, r) || OwnProblem(item) == Some(r)
    {
      if EntryProblem(items, r) {
        var n :| 0 <= n < |items| && OwnProblem(items[n]) == Some(r);
        assert all[n] == items[n];
      }
    }
  }

  // ----- which answers are good ------------------------------------------------------------------

  /** Entry `n` is the one and only result for a Task, and it is valid and has a script. */
  ghost predicate OnlyGoodResult(items: seq<Result>, id: string, n: int) {
    && 0 <= n < |items| && items[n].Result? && items[n].flowId == id
    && items[n].artifact.Some? && items[n].artifact.value.valid && HasScript(items[n].artifact.value)
    && (forall m :: 0 <= m < |items| && items[m].Result? && items[m].flowId == id ==> m == n)
  }

  ghost predicate OneGoodResultEach(items: seq<Result>, ids: set<string>) {
    forall id :: id in ids ==> exists n :: OnlyGoodResult(items, id, n)
  }

  /** The entries for Task nodes. */
  function ForTasks(items: seq<Result>, ids: set<string>): seq<Result> {
    if items == [] then []
    else
      var last := items[|items| - 1];
      ForTasks(items[..|items| - 1], ids) + if last.Result? && last.flowId in ids then [last] else []
  }

  function ExpectedIds(graph: seq<Node>): (r: seq<string>)
    ensures forall id :: id in r <==> id in TaskIds(graph)
  {
    if graph == [] then []
    else
      var last := graph[|graph| - 1];
      var front := graph[..|graph| - 1];
      assert TaskIds(graph) == TaskIds(front) + if IsTask(last) then {last.flowId} else {};
      ExpectedIds(front) + if IsTask(last) then [last.flowId] else []
  }

  /** Nothing is reported. */
  ghost predicate Clean(items: seq<Result>, expected: seq<string>) {
    forall r :: !EntryProblem(items, r) && !ExpectedProblem(Seen(items), expected, r) && !UnknownProblem(Seen(items), expected, r)
  }

  /** How many entries answer for a node. */
  function Answers(items: seq<Result>, id: string): nat {
    if items == [] then 0
    else
      var last := items[|items| - 1];
      Answers(items[..|items| - 1], id) + if last.Result? && last.flowId == id then 1 else 0
  }

  lemma {:induction false} TaskEntries(items: seq<Result>, ids: set<string>)
    ensures forall x :: x in ForTasks(items, ids) <==> x in items && x.Result? && x.flowId in ids
    decreases |items|
  {
    if items != [] {
      TaskEntries(items[..|items| - 1], ids);
      assert items == items[..|items| - 1] + [items[|items| - 1]];
    }
  }

  lemma {:induction false} TaskAnswers(items: seq<Result>, ids: set<string>, id: string)
    requires "" !in ids
    ensures Times(Seen(ForTasks(items, ids)), id) == if id in ids then Answers(items, id) else 0
    decreases |items|
  {
    if items != [] {
      var front, last := items[..|items| - 1], items[|items| - 1];
      TaskAnswers(front, ids, id);
      if last.Result? && last.flowId in ids {
        OneMoreEntry(ForTasks(front, ids), last);
        var seen := Seen(ForTasks(front, ids));
        assert (seen + [last.flowId])[..|seen|] == seen;
        assert Times(seen + [last.flowId], id) == Times(seen, id) + if last.flowId == id then 1 else 0;
      } else {
        assert ForTasks(items, ids) == ForTasks(front, ids);
      }
    }
  }

  ghost predicate AnswersFor(items: seq<Result>, id: string, n: int) {
    0 <= n < |items| && items[n].Result? && items[n].flowId == id
  }

  lemma {:induction false} NoAnswer(items: seq<Result>, id: string)
    ensures Answers(items, id) == 0 <==> forall n :: !AnswersFor(items, id, n)
    decreases |items|
  {
    if items != [] {
      var front, last := items[..|items| - 1], |items| - 1;
      NoAnswer(front, id);
      assert AnswersFor(items, id, last) <==> items[last].Result? && items[last].flowId == id;
      assert forall n :: AnswersFor(items, id, n) <==> AnswersFor(front, id, n) || (n == last && AnswersFor(items, id, last));
    }
  }

  lemma {:induction false} OneAnswer(items: seq<Result>, id: string)
    ensures Answers(items, id) == 1 <==> exists n :: AnswersFor(items, id, n) && forall m :: AnswersFor(items, id, m) ==> m == n
    decreases |items|
  {
    if items != [] {
      var front, last := items[..|items| - 1], |items| - 1;
      NoAnswer(front, id);
      OneAnswer(front, id);
      assert AnswersFor(items, id, last) <==> items[last].Result? && items[last].flowId == id;
      assert forall n :: AnswersFor(items, id, n) <==> AnswersFor(front, id, n) || (n == last && AnswersFor(items, id, last));
    }
  }

  lemma {:induction false} SeenAnswers(items: seq<Result>, id: string)
    ensures Times(Seen(items), id) == if id != "" then Answers(items, id) else 0
    decreases |items|
  {
    if items != [] {
      var front, last := items[..|items| - 1], items[|items| - 1];
      SeenAnswers(front, id);
      var seen := Seen(front);
      if last.Result? && last.flowId != "" {
        assert (seen + [last.flowId])[..|seen|] == seen;
        assert Times(seen + [last.flowId], id) == Times(seen, id) + if last.flowId == id then 1 else 0;
      } else {
        assert Seen(items) == seen;
      }
    }
  }

  /** What is wrong with one entry, by what it says. */
  ghost predicate Wrong(item: Result, r: Report) {
    || (item.NotAResult? && r == Report("", NoObject))
    || (item.Result? && item.flowId == "" && r == Report("", NoFlowId))
    || (item.Result? && item.flowId != "" && r.flowId == item.flowId
        && match item.artifact
           case None => r.problem == NoArtifact
           case Some(a) => r.problem == BadArtifact(!a.valid, !HasScript(a)) && (!a.valid || !HasScript(a)))
  }

  /** Every report, by what the entries say: what is wrong with one of them; no entry, or several, for an
      expected node; an entry for a node that nobody expected. */
  lemma {:induction false} ReportsAreExplained(items: seq<Result>, expected: seq<string>, r: Report)
    ensures EntryProblem(items, r) <==> exists n :: 0 <= n < |items| && Wrong(items[n], r)
    ensures ExpectedProblem(Seen(items), expected, r) <==>
      && r.flowId in expected && r.flowId != ""
      && ((r.problem == NoResult && forall n :: !AnswersFor(items, r.flowId, n))
          || (r.problem == SeveralResults && exists m, n :: m < n && AnswersFor(items, r.flowId, m) && AnswersFor(items, r.flowId, n)))
    ensures UnknownProblem(Seen(items), expected, r) <==>
      && (exists id :: id in expected && id != "") && r.problem == UnknownNode
      && r.flowId != "" && r.flowId !in expected && exists n :: AnswersFor(items, r.flowId, n)
  {
    hide *;
    EntryReports(items, r);
    ExpectedReports(items, expected, r);
    UnknownReports(items, expected, r);
  }

  lemma {:induction false} EntryReports(items: seq<Result>, r: Report)
    ensures EntryProblem(items, r) <==> exists n :: 0 <= n < |items| && Wrong(items[n], r)
  {
    hide HasScript;
    forall n | 0 <= n < |items|
      ensures OwnProblem(items[n]) == Some(r) <==> Wrong(items[n], r)
    {
    }
    hide OwnProblem, Wrong;
  }

  lemma {:induction false} ExpectedReports(items: seq<Result>, expected: seq<string>, r: Report)
    ensures ExpectedProblem(Seen(items), expected, r) <==>
      && r.flowId in expected && r.flowId != ""
      && ((r.problem == NoResult && forall n :: !AnswersFor(items, r.flowId, n))
          || (r.problem == SeveralResults && exists m, n :: m < n && AnswersFor(items, r.flowId, m) && AnswersFor(items, r.flowId, n)))
  {
    hide Times, Seen, Answers, AnswersFor;
    var id := r.flowId;
    SeenAnswers(items, id);
    NoAnswer(items, id);
    OneAnswer(items, id);
    if m, n :| m < n && AnswersFor(items, id, m) && AnswersFor(items, id, n) {
      assert Answers(items, id) > 1;
    } else if m :| AnswersFor(items, id, m) {
      assert forall n :: AnswersFor(items, id, n) ==> n == m;
    }
  }

  lemma {:induction false} UnknownReports(items: seq<Result>, expected: seq<string>, r: Report)
    ensures UnknownProblem(Seen(items), expected, r) <==>
      && (exists id :: id in expected && id != "") && r.problem == UnknownNode
      && r.flowId != "" && r.flowId !in expected && exists n :: AnswersFor(items, r.flowId, n)
  {
    SeenAnswers(items, r.flowId);
    NoAnswer(items, r.flowId);
    hide Answers, Seen, AnswersFor;
  }

  /** The gate reports nothing exactly when every Task has one result, and that one is good. */
  lemma {:induction false} GateExactly(items: seq<Result>, graph: seq<Node>)
    ensures Clean(ForTasks(items, TaskIds(graph)), ExpectedIds(graph)) <==> OneGoodResultEach(items, TaskIds(graph))
  {
    hide Seen, Answers, Times, ExpectedIds, ForTasks, HasScript;
    if Clean(ForTasks(items, TaskIds(graph)), ExpectedIds(graph)) {
      forall id | id in TaskIds(graph)
        ensures exists n :: OnlyGoodResult(items, id, n)
      {
        CleanGivesOne(items, graph, id);
      }
    }
    if OneGoodResultEach(items, TaskIds(graph)) {
      forall r
        ensures !EntryProblem(ForTasks(items, TaskIds(graph)), r)
        ensures !ExpectedProblem(Seen(ForTasks(items, TaskIds(graph))), ExpectedIds(graph), r)
        ensures !UnknownProblem(Seen(ForTasks(items, TaskIds(graph))), ExpectedIds(graph), r)
      {
        GoodHasNoProblem(items, TaskIds(graph), ExpectedIds(graph), r);
      }
    }
  }

  lemma {:induction false} CleanGivesOne(items: seq<Result>, graph: seq<Node>, id: string)
    requires Clean(ForTasks(items, TaskIds(graph)), ExpectedIds(graph)) && id in TaskIds(graph)
    ensures exists n :: OnlyGoodResult(items, id, n)
  {
    hide Seen, Answers, Times, ExpectedIds, ForTasks, EntryProblem, UnknownProblem, HasScript;
    var ids, expected := TaskIds(graph), ExpectedIds(graph);
    var own := ForTasks(items, ids);
    TaskAnswers(items, ids, id);
    assert !ExpectedProblem(Seen(own), expected, Report(id, NoResult));
    assert !ExpectedProblem(Seen(own), expected, Report(id, SeveralResults));
    NoAnswer(items, id);
    OneAnswer(items, id);
    var n :| AnswersFor(items, id, n) && forall m :: AnswersFor(items, id, m) ==> m == n;
    assert forall m :: 0 <= m < |items| && items[m].Result? && items[m].flowId == id ==> AnswersFor(items, id, m);
    TaskEntries(items, ids);
    NoOwnProblem(own, items[n], expected);
    assert OnlyGoodResult(items, id, n);
  }

  lemma {:induction false} GoodHasNoProblem(items: seq<Result>, ids: set<string>, expected: seq<string>, r: Report)
    requires OneGoodResultEach(items, ids) && "" !in ids && forall id :: id in expected <==> id in ids
    ensures !EntryProblem(ForTasks(items, ids), r)
    ensures !ExpectedProblem(Seen(ForTasks(items, ids)), expected, r)
    ensures !UnknownProblem(Seen(ForTasks(items, ids)), expected, r)
  {
    hide Seen, Answers, ForTasks, HasScript;
    var own := ForTasks(items, ids);
    TaskAnswers(items, ids, r.flowId);
    TaskEntries(items, ids);
    forall n | 0 <= n < |own|
      ensures OwnProblem(own[n]).None?
    {
      assert own[n] in own;
      GoodEntry(items, ids, own[n]);
    }
    if r.flowId in ids {
      var k :| OnlyGoodResult(items, r.flowId, k);
      assert AnswersFor(items, r.flowId, k);
      OneAnswer(items, r.flowId);
    }
  }

  lemma {:induction false} GoodEntry(items: seq<Result>, ids: set<string>, item: Result)
    requires OneGoodResultEach(items, ids) && "" !in ids && item in items && item.Result? && item.flowId in ids
    ensures OwnProblem(item).None?
  {
    var m :| 0 <= m < |items| && items[m] == item;
    var k :| OnlyGoodResult(items, item.flowId, k);
    assert m == k;
  }

  lemma {:induction false} NoOwnProblem(items: seq<Result>, item: Result, expected: seq<string>)
    requires Clean(items, expected) && item in items
    ensures OwnProblem(item).None?
  {
    if OwnProblem(item).Some? {
      var n :| 0 <= n < |items| && items[n] == item;
      assert EntryProblem(items, OwnProblem(item).value);
    }
  }

  // ----- attaching -------------------------------------------------------------------------------

  datatype Step = Step(task: bool, package: Option<Artifact>)

  datatype Package = Package(flowId: string, artifact: Artifact)

  /** The packages are attached to their steps, the last one where two name the same step, and nothing
      else is changed. */
  ghost predicate Attached(before: map<string, Step>, after: map<string, Step>, packages: seq<Package>) {
    && after.Keys == before.Keys
    && (forall id :: id in before ==> after[id].task == before[id].task)
    && (forall id :: id in before && (forall n :: 0 <= n < |packages| ==> packages[n].flowId != id) ==> after[id] == before[id])
    && (forall n :: 0 <= n < |packages| && packages[n].flowId in before
          && (forall m :: n < m < |packages| ==> packages[m].flowId != packages[n].flowId)
          ==> after[packages[n].flowId].package == Some(packages[n].artifact))
  }

  ghost predicate AreTasks(steps: map<string, Step>, packages: seq<Package>) {
    forall n :: 0 <= n < |packages| ==> packages[n].flowId in steps && steps[packages[n].flowId].task
  }

  lemma AttachNone(steps: map<string, Step>)
    ensures Attached(steps, steps, [])
  {
  }

  lemma {:induction false} AttachOneMore(start: map<string, Step>, steps: map<string, Step>, packages: seq<Package>, p: Package)
    requires Attached(start, steps, packages) && p.flowId in start
    ensures Attached(start, steps[p.flowId := steps[p.flowId].(package := Some(p.artifact))], packages + [p])
  {
    var all := packages + [p];
    var after := steps[p.flowId := steps[p.flowId].(package := Some(p.artifact))];
    assert all[|packages|] == p;
    forall id | id in start && forall n :: 0 <= n < |all| ==> all[n].flowId != id
      ensures after[id] == start[id]
    {
      assert forall n :: 0 <= n < |packages| ==> packages[n] == all[n];
    }
    forall n | 0 <= n < |all| && all[n].flowId in start && forall m :: n < m < |all| ==> all[m].flowId != all[n].flowId
      ensures after[all[n].flowId].package == Some(all[n].artifact)
    {
      if n < |packages| {
        assert all[n] == packages[n] && all[n].flowId != p.flowId;
        assert forall m :: 0 <= m < |packages| ==> packages[m] == all[m];
      }
    }
  }

  /** Packages are only taken with a condition, and only when the graph is at the revision it names. */
  predicate Accepts(ifMatch: Option<GraphRevision.Tag>, revision: nat) {
    ifMatch.Some? && !GraphRevision.Stale(revision, GraphRevision.Post, ifMatch)
  }

  /** The steps of the stored graph. */
  class StepTable {
    var steps: map<string, Step>

    constructor (stored: map<string, Step>)
      ensures steps == stored
    {
      steps := stored;
    }

    /** `neo4j_replace_task_packages`, one transaction of the graph at a revision, sent with a condition;
        `breaksAt` is the package at which the database fails. */
    method ReplaceTaskPackages(packages: seq<Package>, ifMatch: Option<GraphRevision.Tag>, revision: nat, breaksAt: nat) returns (ok: bool)
      modifies this
      ensures ok <==> packages != [] && Accepts(ifMatch, revision) && |packages| <= breaksAt && AreTasks(old(steps), packages)
      ensures ok ==> Attached(old(steps), steps, packages)
      ensures !ok ==> steps == old(steps)
    {
      hide Attached;
      var saved := steps;
      AttachNone(saved);
      if packages == [] || !Accepts(ifMatch, revision) {
        return false;
      }
      for n := 0 to |packages|
        invariant AreTasks(steps, packages[..n])
      {
        if packages[n].flowId !in steps || !steps[packages[n].flowId].task {
          return false;
        }
      }
      assert packages[..|packages|] == packages;
      for n := 0 to |packages|
        invariant n <= breaksAt && steps.Keys == saved.Keys
        invariant Attached(saved, steps, packages[..n])
      {
        if n == breaksAt {
          steps := saved;
          return false;
        }
        var id := packages[n].flowId;
        ghost var before := steps;
        steps := steps[id := steps[id].(package := Some(packages[n].artifact))];
        AttachOneMore(saved, before, packages[..n], packages[n]);
        assert packages[..n + 1] == packages[..n] + [packages[n]];
      }
      assert packages[..|packages|] == packages;
      return true;
    }
  }

  /** What the code-generation service answered. */
  datatype Response = Response(nodes: seq<Result>, integrationValid: bool)

  /** What can go wrong after validation: a storage upload, the browser's condition against the revision
      the graph has by then, the transaction. */
  datatype Faults = Faults(uploadFailsAt: nat, ifMatch: Option<GraphRevision.Tag>, revision: nat, breaksAt: nat)

  datatype Outcome = Rejected(invalid: seq<Report>) | Failed | Done(attached: set<string>)

  ghost predicate Good(response: Response, graph: seq<Node>) {
    response.integrationValid && OneGoodResultEach(response.nodes, TaskIds(graph))
  }

  ghost predicate GetsResult(items: seq<Result>, id: string, step: Step) {
    step.task && exists n :: OnlyGoodResult(items, id, n) && step.package == Some(items[n].artifact.value)
  }

  /** Exactly these Tasks got a new package, each the one result there is for it. */
  ghost predicate Replaced(before: map<string, Step>, after: map<string, Step>, items: seq<Result>, ids: set<string>) {
    && after.Keys == before.Keys
    && (forall id :: id in ids ==> id in before && before[id].task && GetsResult(items, id, after[id]))
    && (forall id :: id in before && id !in ids ==> after[id] == before[id])
  }

  ghost predicate IsPackage(items: seq<Result>, ids: set<string>, p: Package, n: int) {
    && 0 <= n < |items| && items[n].Result? && items[n].flowId in ids && items[n].artifact.Some?
    && p == Package(items[n].flowId, items[n].artifact.value)
  }

  /** The packages are those of the named Tasks, in the order of the answer. */
  ghost predicate Collected(items: seq<Result>, ids: set<string>, packages: seq<Package>) {
    && (forall p :: p in packages ==> exists n :: IsPackage(items, ids, p, n))
    && (forall n :: 0 <= n < |items| && items[n].Result? && items[n].flowId in ids && items[n].artifact.Some? ==>
          Package(items[n].flowId, items[n].artifact.value) in packages)
  }

  /** The packaging loop of `_finalize_pipeline_codegen_response`; the uploads go to addresses named by
      content, so a failure leaves nothing visible. */
  method CollectPackages(items: seq<Result>, ids: set<string>, uploadFailsAt: nat) returns (packages: seq<Package>, ok: bool)
    requires "" !in ids
    ensures ok ==> Collected(items, ids, packages) && |packages| <= |items|
    ensures !ok ==> uploadFailsAt < |items|
  {
    packages := [];
    for n := 0 to |items|
      invariant Collected(items[..n], ids, packages) && |packages| <= n
    {
      var item := items[n];
      assert items[..n + 1] == items[..n] + [item];
      var before := packages;
      if item.Result? && item.flowId != "" && item.artifact.Some? && item.flowId in ids {
        if uploadFailsAt <= n {
          return packages, false;
        }
        packages := packages + [Package(item.flowId, item.artifact.value)];
      }
      CollectOneMore(items[..n], item, ids, before, packages);
    }
    assert items[..|items|] == items;
    ok := true;
  }

  lemma {:induction false} CollectOneMore(items: seq<Result>, item: Result, ids: set<string>, before: seq<Package>, after: seq<Package>)
    requires Collected(items, ids, before)
    requires after == before + if item.Result? && item.artifact.Some? && item.flowId in ids then [Package(item.flowId, item.artifact.value)] else []
    ensures Collected(items + [item], ids, after)
  {
    var all := items + [item];
    forall p | p in after
      ensures exists n :: IsPackage(all, ids, p, n)
    {
      if p in before {
        var n :| IsPackage(items, ids, p, n);
        assert IsPackage(all, ids, p, n);
      } else {
        assert IsPackage(all, ids, p, |items|);
      }
    }
    forall n | 0 <= n < |all| && all[n].Result? && all[n].flowId in ids && all[n].artifact.Some?
      ensures Package(all[n].flowId, all[n].artifact.value) in after
    {
      if n < |items| {
        assert all[n] == items[n];
      }
    }
  }

  lemma {:induction false} CollectedIsReplaced(before: map<string, Step>, after: map<string, Step>, items: seq<Result>, ids: set<string>, packages: seq<Package>)
    requires OneGoodResultEach(items, ids) && Collected(items, ids, packages)
    requires Attached(before, after, packages) && AreTasks(before, packages)
    ensures Replaced(before, after, items, ids)
  {
    forall id | id in ids
      ensures id in before && before[id].task && GetsResult(items, id, after[id])
    {
      var n :| OnlyGoodResult(items, id, n);
      var p := Package(id, items[n].artifact.value);
      assert p in packages;
      var k := LastFor(packages, p);
      SoleResult(items, ids, packages[k], id, n);
    }
    forall id | id in before && id !in ids
      ensures after[id] == before[id]
    {
      forall k | 0 <= k < |packages|
        ensures packages[k].flowId != id
      {
        assert packages[k] in packages;
      }
    }
  }

  lemma {:induction false} LastFor(packages: seq<Package>, p: Package) returns (k: nat)
    requires p in packages
    ensures k < |packages| && packages[k].flowId == p.flowId && packages[k] in packages
    ensures forall m :: k < m < |packages| ==> packages[m].flowId != p.flowId
    decreases |packages|
  {
    var last := |packages| - 1;
    if packages[last].flowId == p.flowId {
      return last;
    }
    assert p in packages[..last];
    k := LastFor(packages[..last], p);
  }

  lemma {:induction false} SoleResult(items: seq<Result>, ids: set<string>, p: Package, id: string, n: int)
    requires OnlyGoodResult(items, id, n) && p.flowId == id && exists m :: IsPackage(items, ids, p, m)
    ensures p.artifact == items[n].artifact.value
  {
    var m :| IsPackage(items, ids, p, m);
    assert m == n;
  }

  /** No upload, condition or transaction fails, and the Tasks are still there. */
  ghost predicate Unhindered(steps: map<string, Step>, response: Response, ids: set<string>, faults: Faults) {
    && |response.nodes| <= faults.uploadFailsAt && |response.nodes| <= faults.breaksAt && Accepts(faults.ifMatch, faults.revision)
    && (forall id :: id in ids ==> id in steps && steps[id].task)
  }

  lemma {:induction false} CollectedAreTasks(steps: map<string, Step>, items: seq<Result>, ids: set<string>, packages: seq<Package>)
    requires Collected(items, ids, packages) && forall id :: id in ids ==> id in steps && steps[id].task
    ensures AreTasks(steps, packages)
  {
    forall k | 0 <= k < |packages|
      ensures packages[k].flowId in ids
    {
      assert packages[k] in packages;
    }
  }

  /** `_finalize_pipeline_codegen_response`: all the named Tasks get their result, or nothing changes. */
  method FinalizeResponse(table: StepTable, response: Response, graph: seq<Node>, persist: Option<set<string>>, faults: Faults)
    returns (o: Outcome)
    modifies table
    ensures o.Rejected? <==> !Good(response, graph)
    ensures o.Rejected? ==> (o.invalid == [] <==> OneGoodResultEach(response.nodes, TaskIds(graph)))
    ensures Unhindered(old(table.steps), response, if persist.Some? then TaskIds(graph) * persist.value else TaskIds(graph), faults)
      ==> !o.Failed?
    ensures var ids := if persist.Some? then TaskIds(graph) * persist.value else TaskIds(graph);
      if o.Done? then o.attached == ids && Replaced(old(table.steps), table.steps, response.nodes, ids)
      else table.steps == old(table.steps)
    ensures o.Done? && o.attached != {} ==> Accepts(faults.ifMatch, faults.revision)
  {
    hide Replaced, Attached, Collected, AreTasks, EntryProblem, ExpectedProblem, UnknownProblem;
    var tasks := TaskIds(graph);
    var own := ForTasks(response.nodes, tasks);
    var invalid := InvalidCodegenNodes(own, ExpectedIds(graph));
    GateExactly(response.nodes, graph);
    assert invalid == [] <==> Clean(own, ExpectedIds(graph)) by { assert invalid != [] ==> invalid[0] in invalid; }
    if !response.integrationValid || invalid != [] {
      return Rejected(invalid);
    }
    var ids := if persist.Some? then tasks * persist.value else tasks;
    var packages, uploaded := CollectPackages(response.nodes, ids, faults.uploadFailsAt);
    if !uploaded {
      return Failed;
    }
    if packages != [] {
      ghost var before := table.steps;
      if Unhindered(before, response, ids, faults) {
        CollectedAreTasks(before, response.nodes, ids, packages);
      }
      var ok := table.ReplaceTaskPackages(packages, faults.ifMatch, faults.revision, faults.breaksAt);
      if !ok {
        return Failed;
      }
      CollectedIsReplaced(before, table.steps, response.nodes, ids, packages);
    } else {
      NothingCollected(table.steps, response.nodes, ids);
    }
    return Done(ids);
  }

  lemma {:induction false} NothingCollected(steps: map<string, Step>, items: seq<Result>, ids: set<string>)
    requires OneGoodResultEach(items, ids) && Collected(items, ids, [])
    ensures Replaced(steps, steps, items, ids) && ids == {}
  {
  }

  // ----- the whole request -----------------------------------------------------------------------

  datatype Answer = Refused(conflict: Conflict) | Finalized(outcome: Outcome)

  /** Generating scripts for a pipeline, whatever the service answers and whatever fails; `graphs[n]` is
      the graph at revision `n`, and `read` the revision the gateway read.  Either nothing is changed, or
      the integration is valid, every Task has exactly one result and that one is good, and precisely the
      targets of the preflight got theirs.  None of them was a Task that is user-owned, unless overwriting
      was approved: not in the graph that was read and, when the browser's condition names a revision no
      later than that one, not in the graph the code is attached to either. */
  method GeneratePipelineScripts(table: StepTable, graphs: seq<seq<Node>>, read: nat, request: Request, response: Response, faults: Faults)
    returns (a: Answer)
    requires read <= faults.revision < |graphs|
    modifies table
    ensures var targets := PipelinePreflight(graphs[read], request).targets;
      if a == Finalized(Done(targets)) then
        && Good(response, graphs[read]) && targets != {} && targets <= TaskIds(graphs[read])
        && (request.overwriteManualCode || forall id :: id in targets ==> !UserOwned(graphs[read], id))
        && Accepts(faults.ifMatch, faults.revision)
        && (faults.ifMatch.value.number <= read ==> Protected(graphs, request, read, faults.revision))
        && Replaced(old(table.steps), table.steps, response.nodes, targets)
      else !(a.Finalized? && a.outcome.Done?) && table.steps == old(table.steps)
    ensures var preflight := PipelinePreflight(graphs[read], request);
      (PipelineConflict(preflight, request).None? && Good(response, graphs[read])
       && Unhindered(old(table.steps), response, preflight.targets, faults)) ==> a == Finalized(Done(preflight.targets))
  {
    hide Replaced, Good, UserOwned, TaskIds, Unhindered;
    var graph := graphs[read];
    var preflight := PipelinePreflight(graph, request);
    ConflictGuardsUserCode(graph, request);
    hide PipelinePreflight;
    var conflict := PipelineConflict(preflight, request);
    if conflict.Some? {
      return Refused(conflict.value);
    }
    var o := FinalizeResponse(table, response, graph, Some(preflight.targets), faults);
    assert TaskIds(graph) * preflight.targets == preflight.targets;
    return Finalized(o);
  }

  /** A run that is let through on the graph it read overwrites nothing user-owned, unless that was
      approved, in the graph its results are attached to. */
  ghost predicate Protected(graphs: seq<seq<Node>>, request: Request, read: nat, now: nat)
    requires read <= now < |graphs|
  {
    var preflight := PipelinePreflight(graphs[read], request);
    PipelineConflict(preflight, request).None? && !request.overwriteManualCode ==>
      forall id :: id in preflight.targets ==> !UserOwned(graphs[now], id)
  }

  /** A request reads the graph, and sends its packages when others, or it, have been served in between.
      They are accepted exactly when the graph is at the revision the browser named, and then whatever the
      graphs and the request are, user-owned code is protected exactly when the browser named a revision
      the graph had by the time it was read. */
  lemma {:induction false} ProtectedExactlyWhenSeen(start: GraphRevision.World, before: seq<GraphRevision.Event>, between: seq<GraphRevision.Event>,
                                 who: nat, n: nat, h: GraphRevision.Handler)
    requires GraphRevision.Untouched(start) && who in start.requests && start.requests[who].ifMatch == Some(GraphRevision.Revision(n))
    requires forall e :: e in before + between && e.who == who && e.call.Graph? ==> !GraphRevision.Mutating(e.call.m)
    ensures var seen, now := |GraphRevision.Run(start, before).history|, |GraphRevision.Run(start, before + between).history|;
      && seen <= now
      && (Accepts(Some(GraphRevision.Revision(n)), now) <==>
            !GraphRevision.Refused(GraphRevision.Run(start, before + between), GraphRevision.Event(who, GraphRevision.Graph(GraphRevision.Post, h))))
      && (Accepts(Some(GraphRevision.Revision(n)), now) ==>
            ((forall graphs, request :: |graphs| > now ==> Protected(graphs, request, seen, now)) <==> n <= seen))
  {
    var seen, now := |GraphRevision.Run(start, before).history|, |GraphRevision.Run(start, before + between).history|;
    GraphRevision.HistoryGrows(start, before, between);
    GraphRevision.ReadsAcknowledgeNothing(start, before + between, who);
    GraphRevision.RefusedExactlyWhenMoved(start, before + between, who, GraphRevision.Post, h);
    if n == now {
      if n <= seen {
        forall graphs: seq<seq<Node>>, request | |graphs| > now
          ensures Protected(graphs, request, seen, now)
        {
          ConflictGuardsUserCode(graphs[seen], request);
        }
      } else {
        TakenOver(seen, now);
      }
    }
  }

  /** Somebody edits the code after the graph was read. */
  lemma TakenOver(seen: nat, now: nat)
    requires seen < now
    ensures exists graphs: seq<seq<Node>>, request :: |graphs| > now && !Protected(graphs, request, seen, now)
  {
    var missing, edited := Node("t", true, None, false), Node("t", true, Some(Earlier(true, "current", true, true, true)), true);
    var graphs := seq(now + 1, n => if n <= seen then [missing] else [edited]);
    var request := Request("all", {}, false);
    var preflight := PipelinePreflight(graphs[seen], request);
    assert graphs[seen] == [missing] && graphs[now] == [edited];
    assert PreflightItem(graphs[seen][0]) == Item("t", Missing, Nobody, false);
    assert Item("t", Missing, Nobody, false) in preflight.items;
    assert preflight.items == {Item("t", Missing, Nobody, false)};
    assert "t" in preflight.targets;
    assert UserOwned(graphs[now], "t") by { assert PreflightItem(graphs[now][0]).owner == User; }
    assert !Protected(graphs, request, seen, now);
  }
}
