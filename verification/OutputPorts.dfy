/** A task's output directory: results written at its top level are moved under the one output port,
    and what the next task is given under that port is what was written. */
module OutputPorts {
  import opened InputStaging
  import opened Wrappers
  import StepOrder

  /** A top-level entry: a file, or a folder with the files in it. */
  datatype Entry = Single(content: Content) | Folder(files: Tree)

  type Dir = map<string, Entry>

  const KEEP := ".gitkeep"

  datatype Normalized = Moved(names: seq<string>) | OutsidePorts | PortIsFile | PortCollision(name: string)

  // ----- the files of a directory ----------------------------------------------------------------

  /** The directory has this file. */
  ghost predicate HasFile(dir: Dir, p: Path, c: Content) {
    p[0] in dir &&
    match dir[p[0]]
    case Single(content) => |p| == 1 && content == c
    case Folder(files) => |p| > 1 && p[1..] in files && files[p[1..]] == c
  }

  /** What `rglob` finds in a port that may not exist. */
  function PortFiles(dir: Dir, port: string): Option<Tree> {
    if port in dir && dir[port].Folder? then Some(dir[port].files) else None
  }

  /** The names that count as results: not a declared port, not the keep file. */
  function RootNames(dir: Dir, declared: set<string>): set<string> {
    set name | name in dir && name !in declared && name != KEEP
  }

  // ----- moving ----------------------------------------------------------------------------------

  /** The files an entry contributes to the port's folder. */
  ghost predicate Contributes(name: string, e: Entry, p: Path, c: Content) {
    p[0] == name &&
    match e
    case Single(content) => |p| == 1 && content == c
    case Folder(files) => |p| > 1 && p[1..] in files && files[p[1..]] == c
  }

  method MoveInto(target: Tree, name: string, e: Entry) returns (after: Tree)
    requires !Starts(target, name)
    ensures forall p, c :: Held(after, p, c) <==> Held(target, p, c) || Contributes(name, e, p, c)
  {
    assert forall p: Path :: |p| == 1 && p[0] == name ==> p == [name];
    match e
    case Single(content) =>
      after := target[[name] := content];
    case Folder(files) =>
      var placed: Tree := map p: Path | p in Prefixed(name, files.Keys) :: files[p[1..]];
      after := target + placed;
  }

  function Prefixed(name: string, paths: set<Path>): (r: set<Path>)
    ensures forall p: Path :: p in r <==> |p| > 1 && p[0] == name && p[1..] in paths
  {
    var r := set p: Path | p in paths :: Under(name, p);
    assert forall p: Path :: |p| > 1 && p[0] == name && p[1..] in paths ==> Under(name, p[1..]) == p;
    r
  }

  function Under(name: string, p: Path): (r: Path)
    ensures |r| == |p| + 1 && r[0] == name && r[1..] == p
  {
    [name] + p
  }

  /** The port's folder holds its old files and those of the entries moved so far, and no others. */
  ghost predicate Gathered(before: Dir, port: string, target: Tree, moved: set<string>) {
    forall p, c :: Held(target, p, c) <==>
      ((PortFiles(before, port).Some? && Held(PortFiles(before, port).value, p, c))
       || (p[0] in moved && HasFile(before, p, c)))
  }

  /** What a successful run over a single port leaves: the port's folder holds its old files and every
      result; the results are gone from the top level, and nothing else changed. */
  ghost predicate MovedUnder(before: Dir, after: Dir, port: string) {
    var roots := RootNames(before, {port});
    (port in before ==> before[port].Folder?) && Emptied(before, after, port, roots)
  }

  ghost predicate Collides(before: Dir, port: string, name: string) {
    PortFiles(before, port).Some? && Starts(PortFiles(before, port).value, name)
  }

  /** `destination.exists()` for a name in the port's folder. */
  predicate Starts(files: Tree, name: string) {
    exists p :: p in files && p[0] == name
  }

  lemma {:induction false} StartsBecauseOfThePort(before: Dir, port: string, target: Tree, moved: set<string>, name: string)
    requires Gathered(before, port, target, moved) && name !in moved
    ensures Starts(target, name) <==> Collides(before, port, name)
  {
    if Starts(target, name) {
      var p :| p in target && p[0] == name;
      assert Held(target, p, target[p]);
    }
    if Collides(before, port, name) {
      var files := PortFiles(before, port).value;
      var p :| p in files && p[0] == name;
      assert Held(files, p, files[p]);
      assert Held(target, p, files[p]);
    }
  }

  lemma {:induction false} OneMoreGathered(before: Dir, port: string, target: Tree, moved: set<string>, name: string, after: Tree)
    requires Gathered(before, port, target, moved) && name in before
    requires forall p, c :: Held(after, p, c) <==> Held(target, p, c) || Contributes(name, before[name], p, c)
    ensures Gathered(before, port, after, moved + {name})
  {
    forall p, c
      ensures Contributes(name, before[name], p, c) <==> p[0] == name && HasFile(before, p, c)
    {
    }
  }

  /** The roots are gone from the top level and under the port instead; everything else is as it was. */
  ghost predicate Emptied(before: Dir, after: Dir, port: string, roots: set<string>) {
    && PortFiles(after, port).Some?
    && Gathered(before, port, PortFiles(after, port).value, roots)
    && after.Keys == before.Keys - roots + {port}
    && (forall name :: name in before && name !in roots && name != port ==> after[name] == before[name])
  }

  function ByName(name: string): StepOrder.SortKey {
    StepOrder.Text(name)
  }

  /** The names of the results, each once, in the order in which they are moved. */
  ghost predicate InOrder(names: seq<string>, roots: set<string>) {
    Distinct(names) && StepOrder.SortedBy(names, ByName) && forall name :: name in names <==> name in roots
  }

  /** The names that sort before a name. */
  function Earlier(names: set<string>, name: string): set<string> {
    set other | other in names && other != name && StepOrder.TextLeq(other, name)
  }

  /** The results before the colliding one, in order, and only those, were moved. */
  ghost predicate StoppedAt(before: Dir, after: Dir, port: string, roots: set<string>, name: string) {
    && Emptied(before, after, port, Earlier(roots, name))
    && forall other :: other in Earlier(roots, name) ==> !Collides(before, port, other)
  }

  /** What each outcome says about the directory before and after. */
  ghost predicate NormalizeSpec(before: Dir, ports: seq<string>, after: Dir, r: Normalized) {
    var roots := RootNames(before, set p | p in ports);
    if roots == {} then r == Moved([]) && after == before
    else if |ports| != 1 then r == OutsidePorts && after == before
    else if ports[0] in before && before[ports[0]].Single? then r == PortIsFile && after == before
    else if r.PortCollision? then
      r.name in roots && Collides(before, ports[0], r.name) && StoppedAt(before, after, ports[0], roots, r.name)
    else
      && r.Moved? && MovedUnder(before, after, ports[0])
      && InOrder(r.names, roots) && (forall name :: name in roots ==> !Collides(before, ports[0], name))
  }

  /** In sorted order, the names before one are those that sort before it. */
  lemma {:induction false} EarlierNames(names: seq<string>, roots: set<string>, n: nat)
    requires InOrder(names, roots) && n < |names|
    ensures (set m | 0 <= m < n :: names[m]) == Earlier(roots, names[n])
  {
    forall other | other in Earlier(roots, names[n])
      ensures other in set m | 0 <= m < n :: names[m]
    {
      var m :| 0 <= m < |names| && names[m] == other;
      if n < m {
        assert StepOrder.Leq(ByName(names[n]), ByName(names[m]));
        SameText(other, names[n]);
      }
    }
    forall m | 0 <= m < n
      ensures names[m] in Earlier(roots, names[n])
    {
      assert StepOrder.Leq(ByName(names[m]), ByName(names[n]));
      assert names[m] in names;
    }
  }

  lemma {:induction false} StopsAt(before: Dir, after: Dir, port: string, order: seq<string>, roots: set<string>, n: nat)
    requires InOrder(order, roots) && n < |order| && Emptied(before, after, port, set m | 0 <= m < n :: order[m])
    requires forall name :: name in (set m | 0 <= m < n :: order[m]) ==> !Collides(before, port, name)
    ensures StoppedAt(before, after, port, roots, order[n])
  {
    hide InOrder, Emptied, Collides, Earlier;
    EarlierNames(order, roots, n);
  }

  lemma {:induction false} SameText(a: string, b: string)
    requires StepOrder.TextLeq(a, b) && StepOrder.TextLeq(b, a)
    ensures a == b
  {
    if a != [] && b != [] {
      SameText(a[1..], b[1..]);
      assert a == [a[0]] + a[1..] && b == [b[0]] + b[1..];
    }
  }

  lemma {:induction false} AllMoved(before: Dir, after: Dir, port: string, roots: set<string>, files: Tree)
    requires port !in roots && Gathered(before, port, files, roots) && after == (before - roots)[port := Folder(files)]
    ensures Emptied(before, after, port, roots)
  {
    assert PortFiles(after, port) == Some(files);
  }

  lemma {:induction false} OneMoreMoved(before: Dir, port: string, moved: set<string>, target: Tree, name: string, files: Tree)
    requires port !in moved + {name}
    ensures ((before - moved)[port := Folder(target)] - {name})[port := Folder(files)]
         == (before - (moved + {name}))[port := Folder(files)]
  {
  }

  class OutputFolder {
    var entries: Dir

    constructor (written: Dir)
      ensures entries == written
    {
      entries := written;
    }

    /** The moving loop, once the port's folder exists: it stops at the first name already taken there. */
    method MoveAll(ghost before: Dir, port: string, order: seq<string>, ghost roots: set<string>, start: Tree) returns (r: Normalized)
      requires InOrder(order, roots) && port !in roots && roots <= before.Keys && entries == before[port := Folder(start)]
      requires Gathered(before, port, start, {})
      modifies this
      ensures r.Moved? || r.PortCollision?
      ensures r.PortCollision? ==> r.name in roots && Collides(before, port, r.name) && StoppedAt(before, entries, port, roots, r.name)
      ensures r.Moved? ==> r.names == order && Emptied(before, entries, port, roots)
      ensures r.Moved? ==> forall name :: name in roots ==> !Collides(before, port, name)
    {
      hide Gathered, Collides, HasFile, Held, Contributes, Starts, RootNames, PortFiles, Emptied, InOrder;
      var moved: seq<string>, target := [], start;
      ghost var done: set<string> := {};
      for n := 0 to |order|
        invariant moved == order[..n] && done == set m | 0 <= m < n :: order[m]
        invariant entries == (before - done)[port := Folder(target)]
        invariant forall name :: name in done ==> !Collides(before, port, name)
        invariant Gathered(before, port, target, done)
      {
        var name := order[n];
        NextInOrder(order, roots, n);
        StartsBecauseOfThePort(before, port, target, done, name);
        if Starts(target, name) {
          AllMoved(before, entries, port, done, target);
          StopsAt(before, entries, port, order, roots, n);
          return PortCollision(name);
        }
        var after := MoveInto(target, name, entries[name]);
        OneMoreGathered(before, port, target, done, name, after);
        OneMoreMoved(before, port, done, target, name, after);
        target, done := after, done + {name};
        entries := (entries - {name})[port := Folder(target)];
        moved := moved + [name];
      }
      AllInOrder(order, roots);
      AllMoved(before, entries, port, roots, target);
      return Moved(moved);
    }

    /** `normalize_single_output_port`, with the declared ports already stripped of blanks. */
    method Normalize(ports: seq<string>) returns (r: Normalized)
      modifies this
      ensures NormalizeSpec(old(entries), ports, entries, r)
    {
      var declared := set p | p in ports;
      var roots := RootNames(entries, declared);
      if roots == {} {
        return Moved([]);
      }
      if |ports| != 1 {
        return OutsidePorts;
      }
      var port := ports[0];
      assert declared == {port};
      if port in entries && entries[port].Single? {
        return PortIsFile;
      }
      ghost var before := entries;
      var order := SortedNames(roots);
      var target: Tree := if port in entries then entries[port].files else map[];
      entries := entries[port := Folder(target)];
      r := MoveAll(before, port, order, roots, target);
    }
  }

  /** `sorted(root.iterdir())`, of the names that count. */
  method SortedNames(roots: set<string>) returns (order: seq<string>)
    ensures InOrder(order, roots)
  {
    var names := StepOrder.Listing(roots);
    order := StepOrder.Sorted(names, ByName);
    StepOrder.SameElements(order, names);
  }

  lemma {:induction false} NextInOrder(order: seq<string>, roots: set<string>, n: nat)
    requires InOrder(order, roots) && n < |order|
    ensures order[n] in roots && order[n] !in set m | 0 <= m < n :: order[m]
    ensures (set m | 0 <= m < n :: order[m]) <= roots
    ensures (set m | 0 <= m < n :: order[m]) + {order[n]} == set m | 0 <= m < n + 1 :: order[m]
  {
    assert forall m :: 0 <= m <= n ==> order[m] in order;
  }

  lemma {:induction false} AllInOrder(order: seq<string>, roots: set<string>)
    requires InOrder(order, roots)
    ensures (set m | 0 <= m < |order| :: order[m]) == roots
  {
    assert forall m :: 0 <= m < |order| ==> order[m] in order;
  }

  // ----- producer to consumer --------------------------------------------------------------------

  /** In every folder the files are those of a directory: none in another's way. */
  ghost predicate OnDisk(dir: Dir) {
    forall name :: name in dir && dir[name].Folder? ==> PrefixFree(dir[name].files.Keys)
  }

  /** The binding lists the files of the port, in any order. */
  ghost predicate ListsPort(dir: Dir, port: string, b: Binding) {
    && (b.port.Some? <==> PortFiles(dir, port).Some?)
    && (b.port.Some? ==> forall p, c :: File(p, c) in b.port.value <==> Held(PortFiles(dir, port).value, p, c))
  }

  /** Nothing was written into a folder that the move leaves out. */
  predicate NothingInside(dir: Dir, name: string) {
    name in dir ==> dir[name].Folder? ==> dir[name].files == map[]
  }

  /** Nothing was written under the port's own name, as a folder or as a file. */
  predicate NothingUnderPort(dir: Dir, port: string) {
    NothingInside(dir, port) && (port in dir && dir[port].Single? ==> [port] in RESERVED)
  }

  /** There is a port folder afterwards: there was one, or there is a result to move into it. */
  predicate PortFolderThere(before: Dir, port: string) {
    RootNames(before, {port}) != {} || PortFiles(before, port).Some?
  }

  /** A successful move leaves the port's folder, if any, with its old files and the results. */
  lemma {:induction false} AfterNormalize(before: Dir, port: string, after: Dir, r: Normalized)
    requires OnDisk(before) && NormalizeSpec(before, [port], after, r) && r.Moved?
    ensures PortFiles(after, port).Some? <==> PortFolderThere(before, port)
    ensures PortFolderThere(before, port) ==>
      && (port in before ==> before[port].Folder?)
      && Gathered(before, port, PortFiles(after, port).value, RootNames(before, {port}))
      && PrefixFree(PortFiles(after, port).value.Keys)
  {
    assert (set p | p in [port]) == {port};
    var roots := RootNames(before, {port});
    if roots == {} {
      assert after == before;
    } else {
      assert MovedUnder(before, after, port);
      var files := PortFiles(after, port).value;
      forall p, q | p in files && q in files
        ensures !ProperPrefix(p, q)
      {
        assert Held(files, p, files[p]) && Held(files, q, files[q]);
        NoPrefixAmongMoved(before, port, roots, p, files[p], q, files[q]);
      }
    }
  }

  lemma {:induction false} NoPrefixAmongMoved(before: Dir, port: string, roots: set<string>, p: Path, c: Content, q: Path, d: Content)
    requires OnDisk(before) && forall name :: name in roots ==> !Collides(before, port, name)
    requires (PortFiles(before, port).Some? && Held(PortFiles(before, port).value, p, c)) || (p[0] in roots && HasFile(before, p, c))
    requires (PortFiles(before, port).Some? && Held(PortFiles(before, port).value, q, d)) || (q[0] in roots && HasFile(before, q, d))
    ensures !ProperPrefix(p, q)
  {
    if ProperPrefix(p, q) {
      assert p[0] == q[0];
      if p[0] in roots && HasFile(before, p, c) {
        assert !Collides(before, port, p[0]);
        assert HasFile(before, q, d);
        assert before[p[0]].Folder?;
        assert ProperPrefix(p[1..], q[1..]);
        assert false;
      } else {
        assert false;
      }
    }
  }

  /** Staging one listed directory: what is in it, less the reserved names. */
  lemma OnePortStaged(files: Tree, b: Binding)
    requires PrefixFree(files.Keys) && b.port.Some? && forall p, c :: File(p, c) in b.port.value <==> Held(files, p, c)
    ensures Staged([b]).Ok?
    ensures forall p, c :: Held(Staged([b]).tree, p, c) <==> Held(files, p, c) && p !in RESERVED
  {
    hide RESERVED;
    var bindings := [b];
    forall p, c
      ensures Wants(bindings, p, c) <==> Held(files, p, c) && p !in RESERVED
    {
      assert Wants(bindings, p, c) <==> Has(bindings[0], p, c);
    }
    assert Complete(bindings);
    assert Agreeing(bindings);
    assert Compatible(bindings);
    MergeIsExplained(bindings);
    var tree := Staged(bindings).tree;
    assert forall p, c :: Held(tree, p, c) <==> p in tree && tree[p] == c;
  }

  /** What was written reaches the next task unchanged, less the reserved names. */
  ghost predicate Delivered(before: Dir, staged: Merged) {
    staged.Ok? && forall p, c :: Held(staged.tree, p, c) <==> HasFile(before, p, c) && p !in RESERVED
  }

  /** Producer to consumer, for a single port whose results could be moved: staging the port succeeds
      with exactly what was written, less the reserved names, exactly when nothing was written under the
      port's own name or into a folder named like the keep file, and the consumer can do without the
      port or there is one. */
  lemma {:induction false} ProducerToConsumerExactly(before: Dir, port: string, after: Dir, r: Normalized, b: Binding)
    requires OnDisk(before) && NormalizeSpec(before, [port], after, r) && r.Moved? && ListsPort(after, port, b)
    ensures Delivered(before, Staged([b])) <==>
      NothingUnderPort(before, port) && NothingInside(before, KEEP) && (b.required ==> PortFolderThere(before, port))
  {
    hide OnDisk, NormalizeSpec, RESERVED;
    AfterNormalize(before, port, after, r);
    if PortFolderThere(before, port) {
      var files := PortFiles(after, port).value;
      OnePortStaged(files, b);
      hide Staged, Gathered, HasFile, Held, PortFolderThere, RootNames;
      FolderDelivers(before, port, files);
    } else {
      NoPortStaged(b);
      hide Staged;
      NothingToDeliver(before, port);
    }
  }

  lemma NoPortStaged(b: Binding)
    requires b.port.None?
    ensures Staged([b]) == if b.required then MissingPort else Ok(map[])
  {
    assert [b][1..] == [];
    assert StagePorts(map[], map[], [b][1..]) == Ok(map[]);
  }

  /** Without results and without a port folder only the keep file and the port's name can be there. */
  lemma {:induction false} NothingToDeliver(before: Dir, port: string)
    requires !PortFolderThere(before, port)
    ensures (forall p, c :: !(HasFile(before, p, c) && p !in RESERVED)) <==> NothingUnderPort(before, port) && NothingInside(before, KEEP)
  {
    forall name | name in before
      ensures name == port || name == KEEP
    {
      assert name in RootNames(before, {port}) <==> name != port && name != KEEP;
    }
    assert [KEEP] in RESERVED;
    if !NothingInside(before, KEEP) {
      FileInside(before, KEEP);
    } else if port in before && before[port].Single? && [port] !in RESERVED {
      assert HasFile(before, [port], before[port].content);
    } else {
      forall p, c
        ensures !(HasFile(before, p, c) && p !in RESERVED)
      {
        if HasFile(before, p, c) && |p| == 1 {
          assert p == [p[0]];
        }
      }
    }
  }

  /** A file in a top-level folder. */
  lemma {:induction false} FileInside(dir: Dir, name: string)
    requires !NothingInside(dir, name)
    ensures exists p, c :: HasFile(dir, p, c) && p !in RESERVED && p[0] == name
  {
    var p :| p in dir[name].files;
    var q := Under(name, p);
    DeepIsNotReserved(q);
    assert HasFile(dir, q, dir[name].files[p]);
  }

  lemma {:induction false} FolderDelivers(before: Dir, port: string, files: Tree)
    requires Gathered(before, port, files, RootNames(before, {port})) && (port in before ==> before[port].Folder?)
    ensures (forall p, c :: Held(files, p, c) && p !in RESERVED <==> HasFile(before, p, c) && p !in RESERVED)
       <==> NothingUnderPort(before, port) && NothingInside(before, KEEP)
  {
    hide RESERVED;
    if !NothingInside(before, port) {
      HiddenUnderPort(before, port, files);
    } else if !NothingInside(before, KEEP) {
      FileInside(before, KEEP);
      var p, c :| HasFile(before, p, c) && p !in RESERVED && p[0] == KEEP;
      assert KEEP !in RootNames(before, {port}) && !Held(files, p, c);
    } else {
      forall p, c
        ensures Held(files, p, c) && p !in RESERVED <==> HasFile(before, p, c) && p !in RESERVED
      {
        if HasFile(before, p, c) && p[0] !in RootNames(before, {port}) {
          LeftOutIsReserved(before, port, p, c);
        }
      }
    }
  }

  lemma {:induction false} LeftOutIsReserved(before: Dir, port: string, p: Path, c: Content)
    requires NothingInside(before, port) && NothingInside(before, KEEP)
    requires HasFile(before, p, c) && p[0] !in RootNames(before, {port}) && (port in before ==> before[port].Folder?)
    ensures p in RESERVED
  {
    if p[0] != port {
      assert p[0] == KEEP;
    }
    assert p == [KEEP];
  }

  lemma {:induction false} LongestPath(paths: set<Path>) returns (longest: Path)
    requires paths != {}
    ensures longest in paths && forall p :: p in paths ==> |p| <= |longest|
    decreases |paths|
  {
    longest :| longest in paths;
    if paths != {longest} {
      var other := LongestPath(paths - {longest});
      if |other| > |longest| { longest := other; }
    }
  }

  /** A file written under the port's own name shows up without that name, so the deepest one is lost. */
  lemma {:induction false} HiddenUnderPort(before: Dir, port: string, files: Tree)
    requires Gathered(before, port, files, RootNames(before, {port})) && !NothingInside(before, port)
    ensures exists p, c :: HasFile(before, p, c) && p !in RESERVED && !Held(files, p, c)
  {
    var written := before[port].files;
    var p := LongestPath(written.Keys);
    var q := Under(port, p);
    DeepIsNotReserved(q);
    assert HasFile(before, q, written[p]);
    assert q !in written && !Held(files, q, written[p]);
  }

  // ----- validation ------------------------------------------------------------------------------

  const BOOKKEEPING: set<string> := {".gitkeep", "input_manifest.json", "output_manifest.json"}

  predicate HasArtifact(dir: Dir, port: string) {
    PortFiles(dir, port).Some? && exists p :: p in PortFiles(dir, port).value && p[|p| - 1] !in BOOKKEEPING
  }

  /** `validate_output_ports`: the first required port without an artifact, if any. */
  method ValidateOutputPorts(dir: Dir, required: seq<string>) returns (missing: Option<string>)
    ensures missing.None? <==> forall port :: port in required ==> HasArtifact(dir, port)
    ensures missing.Some? ==> missing.value in required && !HasArtifact(dir, missing.value)
  {
    for n := 0 to |required|
      invariant forall port :: port in required[..n] ==> HasArtifact(dir, port)
    {
      if !HasArtifact(dir, required[n]) {
        return Some(required[n]);
      }
      assert required[..n + 1] == required[..n] + [required[n]];
    }
    assert required[..|required|] == required;
    return None;
  }

  /** A port that passes validation never stages empty. */
  lemma {:induction false} ValidatedPortStagesSomething(dir: Dir, port: string, b: Binding)
    requires OnDisk(dir) && HasArtifact(dir, port) && ListsPort(dir, port, b)
    ensures Staged([b]).Ok? && Staged([b]).tree != map[]
  {
    var files := PortFiles(dir, port).value;
    OnePortStaged(files, b);
    var p :| p in files && p[|p| - 1] !in BOOKKEEPING;
    hide Staged;
    assert p !in RESERVED && Held(files, p, files[p]);
    assert Held(Staged([b]).tree, p, files[p]);
  }

  /** The converse fails, exactly for ports whose only files are bookkeeping files in subfolders and
      reserved ones: something is staged from a port without an artifact. */
  lemma {:induction false} BookkeepingIsStaged(dir: Dir, port: string, b: Binding)
    requires OnDisk(dir) && PortFiles(dir, port).Some? && !HasArtifact(dir, port) && ListsPort(dir, port, b)
    ensures Staged([b]).Ok?
    ensures Staged([b]).tree != map[] <==> exists p :: p in PortFiles(dir, port).value && |p| > 1
  {
    var files := PortFiles(dir, port).value;
    OnePortStaged(files, b);
    hide Staged;
    var tree := Staged([b]).tree;
    if p :| p in files && |p| > 1 {
      DeepIsNotReserved(p);
      assert Held(tree, p, files[p]);
    }
    if p :| p in tree {
      assert Held(tree, p, tree[p]);
      assert p in files;
      if |p| == 1 {
        assert p == [p[0]] && p[0] in BOOKKEEPING;
      }
    }
  }
}
