/** Staging a task's inputs: merge the connected output ports into a fresh directory, then put it in
    the place of the old one.  A directory is a map from the paths of its files to their contents. */
module InputStaging {
  import opened Wrappers

  type Content = seq<byte>
  type Path = p: seq<string> | p != [] witness ["file"]
  type Tree = map<Path, Content>

  datatype File = File(path: Path, content: Content)

  /** One connected port: its files in the order they are visited, or None when the port's directory
      does not exist. */
  datatype Binding = Binding(port: Option<seq<File>>, required: bool)

  datatype Merged = Ok(tree: Tree) | MissingPort | Collision(path: Path) | CopyFailed(path: Path)

  // ----- files -----------------------------------------------------------------------------------

  const RESERVED: set<Path> := {["input_manifest.json"], ["output_manifest.json"], [".gitkeep"]}

  const CHUNK := 1024 * 1024

  method ReadChunk(content: Content, offset: nat) returns (chunk: Content)
    requires offset <= |content|
    ensures chunk == content[offset..if offset + CHUNK < |content| then offset + CHUNK else |content|]
  {
    chunk := if offset + CHUNK < |content| then content[offset..offset + CHUNK] else content[offset..];
  }

  /** `_same_file_contents`: compare sizes, then chunk by chunk. */
  method SameFileContents(first: Content, second: Content) returns (same: bool)
    ensures same <==> first == second
  {
    if |first| != |second| {
      return false;
    }
    var offset := 0;
    while true
      invariant offset <= |first| && first[..offset] == second[..offset]
      decreases |first| - offset
    {
      var a := ReadChunk(first, offset);
      var b := ReadChunk(second, offset);
      if a != b {
        assert first != second;
        return false;
      }
      if a == [] {
        assert first == first[..offset] && second == second[..offset];
        return true;
      }
      var next := offset + |a|;
      assert first[..next] == first[..offset] + a && second[..next] == second[..offset] + b;
      offset := next;
    }
  }

  predicate ProperPrefix(p: Path, q: Path) {
    |p| < |q| && q[..|p|] == p
  }

  /** No file is where another file's directory would have to be. */
  ghost predicate PrefixFree(paths: set<Path>) {
    forall p, q :: p in paths && q in paths ==> !ProperPrefix(p, q)
  }

  predicate IsFolder(tree: Tree, p: Path) {
    exists q :: q in tree && ProperPrefix(p, q)
  }

  predicate BlockedBy(tree: Tree, p: Path) {
    exists q :: q in tree && ProperPrefix(q, p)
  }

  /** Below a directory, under the directory's own name. */
  function Inside(p: Path): Path {
    p + [p[|p| - 1]]
  }

  /** `_copy_entry` for a file: creating the parents fails on a file in the way, and copying onto an
      existing directory copies into it, under the file's own name. */
  function CopyInto(tree: Tree, p: Path, content: Content): Option<Tree> {
    if BlockedBy(tree, p) then None
    else if !IsFolder(tree, p) then Some(tree[p := content])
    else if IsFolder(tree, Inside(p)) then None
    else Some(tree[Inside(p) := content])
  }

  lemma CopyKeepsPrefixFree(tree: Tree, p: Path, content: Content)
    requires PrefixFree(tree.Keys) && CopyInto(tree, p, content).Some?
    ensures PrefixFree(CopyInto(tree, p, content).value.Keys)
  {
    var after := CopyInto(tree, p, content).value;
    if IsFolder(tree, p) {
      var q :| q in tree && ProperPrefix(p, q);
      forall r | r in tree
        ensures !ProperPrefix(r, Inside(p))
      {
        assert ProperPrefix(r, Inside(p)) ==> ProperPrefix(r, q) || r == p;
      }
    }
  }

  // ----- the merge -------------------------------------------------------------------------------

  ghost predicate Held(tree: Tree, p: Path, c: Content) {
    p in tree && tree[p] == c
  }

  ghost predicate Has(b: Binding, p: Path, content: Content) {
    b.port.Some? && File(p, content) in b.port.value && p !in RESERVED
  }

  /** Some connected port publishes this content at this path. */
  ghost predicate Wants(bindings: seq<Binding>, p: Path, content: Content) {
    exists n :: 0 <= n < |bindings| && Has(bindings[n], p, content)
  }

  ghost predicate Complete(bindings: seq<Binding>) {
    forall n :: 0 <= n < |bindings| ==> bindings[n].required ==> bindings[n].port.Some?
  }

  /** Producers that share a path agree on its content. */
  ghost predicate Agreeing(bindings: seq<Binding>) {
    forall p, c, d :: Wants(bindings, p, c) && Wants(bindings, p, d) ==> c == d
  }

  /** No producer's file is in the way of another's. */
  ghost predicate Compatible(bindings: seq<Binding>) {
    forall p, c, q, d :: Wants(bindings, p, c) && Wants(bindings, q, d) ==> !ProperPrefix(p, q)
  }

  ghost predicate Related(p: Path, q: Path) {
    ProperPrefix(p, q) || ProperPrefix(q, p)
  }

  /** Two producers publish different contents at this path. */
  ghost predicate Disputed(bindings: seq<Binding>, p: Path) {
    exists c, d :: c != d && Wants(bindings, p, c) && Wants(bindings, p, d)
  }

  /** A file is published at this path, and another one above or below it. */
  ghost predicate InTheWay(bindings: seq<Binding>, p: Path) {
    exists c, q, d :: Wants(bindings, p, c) && Wants(bindings, q, d) && Related(p, q)
  }

  /** The tree holds exactly what the ports publish. */
  ghost predicate IsUnion(tree: Tree, bindings: seq<Binding>) {
    forall p, c :: (p in tree && tree[p] == c) <==> Wants(bindings, p, c)
  }

  lemma {:induction false} UnionIsPrefixFree(tree: Tree, bindings: seq<Binding>)
    requires IsUnion(tree, bindings)
    ensures PrefixFree(tree.Keys) <==> Compatible(bindings)
  {
    if PrefixFree(tree.Keys) {
      assert Compatible(bindings);
    }
    if Compatible(bindings) {
      forall p, q | p in tree && q in tree
        ensures !ProperPrefix(p, q)
      {
        assert Wants(bindings, p, tree[p]) && Wants(bindings, q, tree[q]);
      }
    }
  }

  /** The merge on its way: who owns which path, what is staged; or the error it stopped with. */
  datatype Progress = Going(owners: Tree, staged: Tree) | Stopped(error: Merged)

  /** One file of a port. */
  function StageFile(owners: Tree, staged: Tree, f: File): Progress {
    if f.path in RESERVED then Going(owners, staged)
    else if f.path in owners then
      if owners[f.path] == f.content then Going(owners, staged) else Stopped(Collision(f.path))
    else
      match CopyInto(staged, f.path, f.content)
      case None => Stopped(CopyFailed(f.path))
      case Some(next) => Going(owners[f.path := f.content], next)
  }

  function StageFiles(owners: Tree, staged: Tree, files: seq<File>): Progress
    decreases |files|
  {
    if files == [] then Going(owners, staged)
    else
      var p := StageFile(owners, staged, files[0]);
      if p.Stopped? then p else StageFiles(p.owners, p.staged, files[1..])
  }

  function StagePorts(owners: Tree, staged: Tree, bindings: seq<Binding>): Merged
    decreases |bindings|
  {
    if bindings == [] then Ok(staged)
    else if bindings[0].port.None? then
      if bindings[0].required then MissingPort else StagePorts(owners, staged, bindings[1..])
    else
      var p := StageFiles(owners, staged, bindings[0].port.value);
      if p.Stopped? then p.error else StagePorts(p.owners, p.staged, bindings[1..])
  }

  /** What merging the ports in this order comes to. */
  function Staged(bindings: seq<Binding>): Merged {
    StagePorts(map[], map[], bindings)
  }

  /** The inner loop: the files of one connected port. */
  method MergePort(files: seq<File>, taken: Tree, placed: Tree) returns (p: Progress)
    ensures p == StageFiles(taken, placed, files)
  {
    hide CopyInto;
    var owners: Tree, staged: Tree := taken, placed;
    for n := 0 to |files|
      invariant StageFiles(owners, staged, files[n..]) == StageFiles(taken, placed, files)
    {
      var source := files[n];
      assert files[n..][0] == source && files[n..][1..] == files[n + 1..];
      if source.path in RESERVED {
      } else if source.path in owners {
        var same := SameFileContents(source.content, owners[source.path]);
        if !same {
          return Stopped(Collision(source.path));
        }
      } else {
        var next := CopyInto(staged, source.path, source.content);
        if next.None? {
          return Stopped(CopyFailed(source.path));
        }
        owners, staged := owners[source.path := source.content], next.value;
      }
    }
    p := Going(owners, staged);
  }

  method Merge(bindings: seq<Binding>) returns (r: Merged)
    ensures r == Staged(bindings)
  {
    hide StageFiles;
    var owners: Tree, staged: Tree := map[], map[];
    for n := 0 to |bindings|
      invariant StagePorts(owners, staged, bindings[n..]) == Staged(bindings)
    {
      var binding := bindings[n];
      assert bindings[n..][0] == binding && bindings[n..][1..] == bindings[n + 1..];
      if binding.port.None? {
        if binding.required {
          return MissingPort;
        }
      } else {
        var p := MergePort(binding.port.value, owners, staged);
        if p.Stopped? {
          return p.error;
        }
        owners, staged := p.owners, p.staged;
      }
    }
    return Ok(staged);
  }

  // ----- what the merge comes to -----------------------------------------------------------------

  /** What was taken so far is what the bindings want, and it is staged faithfully unless files are in
      each other's way. */
  ghost predicate Taken(owners: Tree, staged: Tree, bindings: seq<Binding>, n: nat)
    requires n <= |bindings|
  {
    && (forall p :: p in owners ==> Wants(bindings, p, owners[p]))
    && (forall p, c :: Wants(bindings[..n], p, c) ==> p in owners && owners[p] == c)
    && PrefixFree(staged.Keys) && Rooted(owners, staged)
    && (PrefixFree(owners.Keys) ==> staged == owners)
  }

  /** What is staged is where it was published, or inside a directory there. */
  ghost predicate Rooted(owners: Tree, staged: Tree) {
    forall q :: q in staged ==> q in owners || (|q| > 1 && q[..|q| - 1] in owners && q == Inside(q[..|q| - 1]))
  }

  lemma RootedCopy(owners: Tree, staged: Tree, p: Path, content: Content)
    requires Rooted(owners, staged)
    ensures CopyInto(staged, p, content).Some? ==> Rooted(owners[p := content], CopyInto(staged, p, content).value)
    ensures CopyInto(staged, p, content).None? ==> exists q :: q in owners && Related(p, q)
  {
    assert Inside(p)[..|p|] == p;
    if CopyInto(staged, p, content).None? {
      var q :| q in staged && (ProperPrefix(q, p) || ProperPrefix(Inside(p), q));
      assert ProperPrefix(Inside(p), q) ==> q[..|p|] == Inside(p)[..|p|];
      if q in owners {
        assert Related(p, q);
      } else {
        var o := q[..|q| - 1];
        assert ProperPrefix(q, p) ==> p[..|o|] == q[..|o|];
        assert ProperPrefix(Inside(p), q) ==> o[..|p|] == q[..|p|];
        assert Related(p, o);
      }
    }
  }

  /** The first files of the port are taken. */
  ghost predicate TakenUpTo(owners: Tree, files: seq<File>, m: nat) {
    forall k :: 0 <= k < m && k < |files| && files[k].path !in RESERVED ==>
      files[k].path in owners && owners[files[k].path] == files[k].content
  }

  lemma {:induction false} TakeBinding(owners: Tree, staged: Tree, bindings: seq<Binding>, n: nat)
    requires n < |bindings| && Taken(owners, staged, bindings, n)
    requires bindings[n].port.Some? ==> TakenUpTo(owners, bindings[n].port.value, |bindings[n].port.value|)
    ensures Taken(owners, staged, bindings, n + 1)
  {
    hide PrefixFree, Rooted;
    var upto := bindings[..n + 1];
    forall p, c | Wants(upto, p, c)
      ensures p in owners && owners[p] == c
    {
      var m :| 0 <= m < n + 1 && Has(upto[m], p, c);
      if m < n {
        assert Has(bindings[..n][m], p, c);
        assert Wants(bindings[..n], p, c);
      } else {
        var k :| 0 <= k < |bindings[n].port.value| && bindings[n].port.value[k] == File(p, c);
      }
    }
  }

  lemma {:induction false} TakeFile(owners: Tree, staged: Tree, bindings: seq<Binding>, n: nat, p: Path, content: Content)
    requires n < |bindings| && Taken(owners, staged, bindings, n) && Has(bindings[n], p, content) && p !in owners
    ensures CopyInto(staged, p, content).Some? ==> Taken(owners[p := content], CopyInto(staged, p, content).value, bindings, n)
    ensures CopyInto(staged, p, content).None? ==> InTheWay(bindings, p)
  {
    hide CopyInto, Rooted, Related, PrefixFree;
    RootedCopy(owners, staged, p, content);
    assert Wants(bindings, p, content);
    hide Wants;
    if CopyInto(staged, p, content).Some? {
      CopyKeepsPrefixFree(staged, p, content);
      SameWhileFree(owners, staged, p, content);
    } else {
      var q :| q in owners && Related(p, q);
      assert Wants(bindings, q, owners[q]);
    }
  }

  lemma SameWhileFree(owners: Tree, staged: Tree, p: Path, content: Content)
    requires (PrefixFree(owners.Keys) ==> staged == owners) && CopyInto(staged, p, content).Some?
    ensures PrefixFree(owners[p := content].Keys) ==> CopyInto(staged, p, content).value == owners[p := content]
  {
    if PrefixFree(owners[p := content].Keys) {
      assert PrefixFree(owners.Keys);
      assert p in owners[p := content];
      assert forall q :: q in owners ==> q in owners[p := content] && !ProperPrefix(p, q);
    }
  }

  /** All files of port `n` are taken, or the error names what is violated. */
  ghost predicate PortDone(p: Progress, bindings: seq<Binding>, n: nat)
    requires n < |bindings| && bindings[n].port.Some?
  {
    if p.Going? then Taken(p.owners, p.staged, bindings, n) && TakenUpTo(p.owners, bindings[n].port.value, |bindings[n].port.value|)
    else (p.error.Collision? && Disputed(bindings, p.error.path)) || (p.error.CopyFailed? && InTheWay(bindings, p.error.path))
  }

  lemma {:induction false} StoppedIsExplained(p: Progress, bindings: seq<Binding>, n: nat)
    requires n < |bindings| && bindings[n].port.Some? && p.Stopped? && PortDone(p, bindings, n)
    ensures Explained(bindings, p.error)
  {
  }

  /** The rest of a port, from its file `m` on. */
  lemma {:induction false} PortComesTo(owners: Tree, staged: Tree, bindings: seq<Binding>, n: nat, m: nat)
    requires n < |bindings| && bindings[n].port.Some? && m <= |bindings[n].port.value|
    requires Taken(owners, staged, bindings, n) && TakenUpTo(owners, bindings[n].port.value, m)
    ensures PortDone(StageFiles(owners, staged, bindings[n].port.value[m..]), bindings, n)
    decreases |bindings[n].port.value| - m
  {
    hide Taken, Disputed, InTheWay, CopyInto;
    var files := bindings[n].port.value;
    if m < |files| {
      var f := files[m];
      assert files[m..][0] == f && files[m..][1..] == files[m + 1..];
      if f.path in RESERVED {
        PortComesTo(owners, staged, bindings, n, m + 1);
      } else {
        assert Has(bindings[n], f.path, f.content);
        if f.path in owners {
          if owners[f.path] == f.content {
            PortComesTo(owners, staged, bindings, n, m + 1);
          } else {
            CollisionMeansDisagreement(owners, staged, bindings, n, f.path, f.content);
          }
        } else {
          TakeFile(owners, staged, bindings, n, f.path, f.content);
          var next := CopyInto(staged, f.path, f.content);
          if next.Some? {
            PortComesTo(owners[f.path := f.content], next.value, bindings, n, m + 1);
          }
        }
      }
    }
  }

  lemma {:induction false} CollisionMeansDisagreement(owners: Tree, staged: Tree, bindings: seq<Binding>, n: nat, p: Path, content: Content)
    requires n < |bindings| && Taken(owners, staged, bindings, n) && Has(bindings[n], p, content) && p in owners && owners[p] != content
    ensures Disputed(bindings, p)
  {
    assert Wants(bindings, p, owners[p]) && Wants(bindings, p, content);
  }

  /** What a result of the merge means; every error names what is violated. */
  ghost predicate Explained(bindings: seq<Binding>, r: Merged) {
    match r
    case Ok(tree) => Complete(bindings) && Agreeing(bindings) && PrefixFree(tree.Keys) && (IsUnion(tree, bindings) <==> Compatible(bindings))
    case MissingPort => !Complete(bindings)
    case Collision(p) => !Agreeing(bindings) && Disputed(bindings, p)
    case CopyFailed(p) => !Compatible(bindings) && InTheWay(bindings, p)
  }

  lemma {:induction false} PortsComeTo(owners: Tree, staged: Tree, bindings: seq<Binding>, n: nat)
    requires n <= |bindings| && Taken(owners, staged, bindings, n) && Complete(bindings[..n])
    ensures Explained(bindings, StagePorts(owners, staged, bindings[n..]))
    decreases |bindings| - n
  {
    hide Taken, TakenUpTo, Compatible, Agreeing, IsUnion, StageFiles;
    if n == |bindings| {
      assert bindings[..n] == bindings;
      AllTaken(owners, staged, bindings);
    } else {
      var binding := bindings[n];
      assert bindings[n..][0] == binding && bindings[n..][1..] == bindings[n + 1..];
      assert bindings[..n + 1] == bindings[..n] + [binding];
      if binding.port.None? {
        if !binding.required {
          TakeBinding(owners, staged, bindings, n);
          PortsComeTo(owners, staged, bindings, n + 1);
        }
      } else {
        assert TakenUpTo(owners, binding.port.value, 0) by { NothingTakenYet(owners, binding.port.value); }
        PortComesTo(owners, staged, bindings, n, 0);
        assert binding.port.value[0..] == binding.port.value;
        var p := StageFiles(owners, staged, binding.port.value);
        if p.Stopped? {
          StoppedIsExplained(p, bindings, n);
        } else {
          TakeBinding(p.owners, p.staged, bindings, n);
          PortsComeTo(p.owners, p.staged, bindings, n + 1);
        }
      }
    }
  }

  lemma {:induction false} NothingTakenYet(owners: Tree, files: seq<File>)
    ensures TakenUpTo(owners, files, 0)
  {
  }

  lemma {:induction false} AllTaken(owners: Tree, staged: Tree, bindings: seq<Binding>)
    requires Taken(owners, staged, bindings, |bindings|)
    ensures Agreeing(bindings) && PrefixFree(staged.Keys) && (IsUnion(staged, bindings) <==> Compatible(bindings))
  {
    assert bindings[..|bindings|] == bindings;
    assert IsUnion(owners, bindings);
    UnionIsPrefixFree(owners, bindings);
    if IsUnion(staged, bindings) {
      UnionIsPrefixFree(staged, bindings);
    }
  }

  /** Success means that all required ports exist and producers agree, and then the result is the union
      of the ports exactly when no file is in another's way; without such files, the merge succeeds. */
  lemma {:induction false} MergeIsExplained(bindings: seq<Binding>)
    ensures Explained(bindings, Staged(bindings))
    ensures Complete(bindings) && Agreeing(bindings) && Compatible(bindings) ==>
      Staged(bindings).Ok? && IsUnion(Staged(bindings).tree, bindings)
  {
    assert bindings[0..] == bindings && bindings[..0] == [];
    PortsComeTo(map[], map[], bindings, 0);
  }

  // ----- what the result does not depend on ------------------------------------------------------

  /** The same ports in another order, or listed twice, merge to the same tree. */
  lemma {:induction false} OrderDoesNotMatter(bindings: seq<Binding>, reordered: seq<Binding>)
    requires forall b :: b in bindings <==> b in reordered
    requires Complete(bindings) && Agreeing(bindings) && Compatible(bindings)
    ensures Staged(bindings).Ok? && Staged(reordered) == Staged(bindings)
  {
    forall p, c
      ensures Wants(bindings, p, c) <==> Wants(reordered, p, c)
    {
      SameWants(bindings, reordered, p, c);
      SameWants(reordered, bindings, p, c);
    }
    forall n | 0 <= n < |reordered|
      ensures reordered[n].required ==> reordered[n].port.Some?
    {
      assert reordered[n] in bindings;
    }
    assert Compatible(reordered);
    hide Staged, Wants, Complete, Compatible;
    MergeIsExplained(bindings);
    MergeIsExplained(reordered);
    OneUnion(Staged(bindings).tree, Staged(reordered).tree, bindings, reordered);
  }

  lemma {:induction false} OneUnion(tree: Tree, other: Tree, bindings: seq<Binding>, reordered: seq<Binding>)
    requires forall p, c :: Wants(bindings, p, c) <==> Wants(reordered, p, c)
    requires IsUnion(tree, bindings) && IsUnion(other, reordered)
    ensures tree == other
  {
    hide Wants;
    assert forall p :: p in tree ==> Wants(bindings, p, tree[p]);
    assert forall p :: p in other ==> Wants(reordered, p, other[p]);
    assert forall p :: p in tree ==> p in other && other[p] == tree[p];
    assert tree.Keys == other.Keys;
  }

  lemma {:induction false} SameWants(bindings: seq<Binding>, others: seq<Binding>, p: Path, c: Content)
    requires forall b :: b in bindings ==> b in others
    ensures Wants(bindings, p, c) ==> Wants(others, p, c)
  {
    if n :| 0 <= n < |bindings| && Has(bindings[n], p, c) {
      assert bindings[n] in others;
      var m :| 0 <= m < |others| && others[m] == bindings[n];
    }
  }

  // ----- a directory in the way ------------------------------------------------------------------

  lemma {:induction false} StageInParts(owners: Tree, staged: Tree, files: seq<File>, more: seq<File>)
    ensures var p := StageFiles(owners, staged, files);
      StageFiles(owners, staged, files + more) == if p.Stopped? then p else StageFiles(p.owners, p.staged, more)
    decreases |files|
  {
    if files == [] {
      assert files + more == more;
    } else {
      assert (files + more)[0] == files[0] && (files + more)[1..] == files[1..] + more;
      var p := StageFile(owners, staged, files[0]);
      if p.Going? {
        StageInParts(p.owners, p.staged, files[1..], more);
      }
    }
  }

  /** The file is there already, or nothing staged is in its way. */
  ghost predicate Fits(owners: Tree, staged: Tree, f: File) {
    f.path !in RESERVED ==>
      if f.path in owners then owners[f.path] == f.content
      else f.path !in staged && forall p :: p in staged ==> !Related(p, f.path)
  }

  /** The files of a directory: none in another's way, and one content for each path. */
  ghost predicate OfOneDirectory(files: seq<File>) {
    forall f, g :: f in files && g in files ==> !ProperPrefix(f.path, g.path) && (f.path == g.path ==> f == g)
  }

  lemma FittingFileIsStaged(owners: Tree, staged: Tree, f: File)
    requires Fits(owners, staged, f)
    ensures StageFile(owners, staged, f) ==
      if f.path in RESERVED || f.path in owners then Going(owners, staged)
      else Going(owners[f.path := f.content], staged[f.path := f.content])
  {
  }

  /** Files that fit are all staged where they belong. */
  lemma {:induction false} FittingFilesAreStaged(owners: Tree, staged: Tree, files: seq<File>)
    requires OfOneDirectory(files) && forall f :: f in files ==> Fits(owners, staged, f)
    ensures var p := StageFiles(owners, staged, files);
      && p.Going?
      && (forall q, c :: Held(p.owners, q, c) <==> Held(owners, q, c) || (q !in owners && q !in RESERVED && File(q, c) in files))
      && (forall q, c :: Held(p.staged, q, c) <==> Held(staged, q, c) || (q !in owners && q !in RESERVED && File(q, c) in files))
    decreases |files|
  {
    if files != [] {
      var f, rest := files[0], files[1..];
      assert files == [f] + rest;
      hide StageFile, RESERVED;
      assert Fits(owners, staged, f);
      FittingFileIsStaged(owners, staged, f);
      var now := StageFile(owners, staged, f);
      assert OfOneDirectory(rest);
      forall g | g in rest
        ensures Fits(now.owners, now.staged, g)
      {
        assert Fits(owners, staged, g) && f in files && g in files;
      }
      FittingFilesAreStaged(now.owners, now.staged, rest);
    }
  }

  /** Some producers have a directory where others have a file; otherwise they go together. */
  ghost predicate DirectoryMeetsFile(d: seq<File>, f: seq<File>, place: Path) {
    && OfOneDirectory(d) && OfOneDirectory(f)
    && place !in RESERVED && (exists g :: g in d && ProperPrefix(place, g.path)) && (exists c :: File(place, c) in f)
    && (forall g, h :: g in d && h in f && g.path !in RESERVED && h.path !in RESERVED ==>
          && (g.path == h.path ==> g == h)
          && (Related(g.path, h.path) ==> h.path == place))
  }

  /** Some file of the directory lies in a directory of the directory's own name. */
  ghost predicate InnerDirectory(d: seq<File>, place: Path) {
    exists g :: g in d && ProperPrefix(Inside(place), g.path)
  }

  /** These files are taken and staged, and no others. */
  ghost predicate Holding(p: Progress, d: seq<File>, more: seq<File>) {
    && p.Going?
    && (forall q, x :: Held(p.owners, q, x) <==> q !in RESERVED && (File(q, x) in d || File(q, x) in more))
    && (forall q, x :: Held(p.staged, q, x) <==> q !in RESERVED && (File(q, x) in d || File(q, x) in more))
  }

  lemma {:induction false} PathsHeld(p: Progress, d: seq<File>, more: seq<File>)
    requires Holding(p, d, more)
    ensures forall q :: q in p.owners ==> q !in RESERVED && (File(q, p.owners[q]) in d || File(q, p.owners[q]) in more)
    ensures forall q :: q in p.staged ==> q !in RESERVED && (File(q, p.staged[q]) in d || File(q, p.staged[q]) in more)
    ensures p.staged == p.owners
  {
    forall q | q in p.owners
      ensures q in p.staged && p.staged[q] == p.owners[q]
      ensures q !in RESERVED && (File(q, p.owners[q]) in d || File(q, p.owners[q]) in more)
    {
      assert Held(p.owners, q, p.owners[q]);
      assert Held(p.staged, q, p.owners[q]);
    }
    forall q | q in p.staged
      ensures q in p.owners
    {
      assert Held(p.staged, q, p.staged[q]);
      assert Held(p.owners, q, p.staged[q]);
    }
  }

  lemma DeepIsNotReserved(p: Path)
    requires |p| > 1
    ensures p !in RESERVED
  {
  }

  /** Other files of the later producers join those of the earlier ones. */
  lemma {:induction false} OthersJoin(d: seq<File>, f: seq<File>, place: Path, more: seq<File>, p: Progress)
    requires DirectoryMeetsFile(d, f, place) && Holding(p, d, [])
    requires OfOneDirectory(more) && forall h :: h in more ==> h in f && h.path != place
    ensures Holding(StageFiles(p.owners, p.staged, more), d, more)
  {
    PathsHeld(p, d, []);
    forall h | h in more
      ensures Fits(p.owners, p.staged, h)
    {
    }
    FittingFilesAreStaged(p.owners, p.staged, more);
    var after := StageFiles(p.owners, p.staged, more);
    forall q, x
      ensures q in p.owners && q !in RESERVED && File(q, x) in more ==> Held(p.owners, q, x)
    {
    }
  }

  lemma {:induction false} FolderThere(d: seq<File>, more: seq<File>, p: Progress, path: Path)
    requires Holding(p, d, more) && forall h :: h in more ==> !ProperPrefix(path, h.path)
    ensures IsFolder(p.staged, path) <==> exists g :: g in d && ProperPrefix(path, g.path)
  {
    hide RESERVED;
    PathsHeld(p, d, more);
    if g :| g in d && ProperPrefix(path, g.path) {
      DeepIsNotReserved(g.path);
      assert Held(p.staged, g.path, g.content);
    }
  }

  lemma {:induction false} FileMeetsDirectory(d: seq<File>, f: seq<File>, place: Path, c: Content, more: seq<File>, p: Progress)
    requires DirectoryMeetsFile(d, f, place) && File(place, c) in f && Holding(p, d, more)
    requires forall h :: h in more ==> h in f && h.path != place
    ensures var now := StageFile(p.owners, p.staged, File(place, c));
      now == if InnerDirectory(d, place) then Stopped(CopyFailed(place))
             else Going(p.owners[place := c], p.staged[Inside(place) := c])
  {
    forall h | h in more
      ensures !ProperPrefix(place, h.path) && !ProperPrefix(Inside(place), h.path)
    {
      UnderInner(place, h.path);
    }
    FolderThere(d, more, p, place);
    FolderThere(d, more, p, Inside(place));
    assert place !in p.owners by { PathsHeld(p, d, more); }
    assert place !in RESERVED;
    NotBlocked(d, f, place, c, more, p);
    hide RESERVED, OfOneDirectory, Holding, IsFolder;
  }

  /** A file above the place would be above the files of the directory. */
  lemma {:induction false} NotBlocked(d: seq<File>, f: seq<File>, place: Path, c: Content, more: seq<File>, p: Progress)
    requires DirectoryMeetsFile(d, f, place) && File(place, c) in f && Holding(p, d, more) && forall h :: h in more ==> h in f
    ensures !BlockedBy(p.staged, place)
  {
    hide RESERVED;
    PathsHeld(p, d, more);
    var g :| g in d && ProperPrefix(place, g.path);
    forall q | q in p.staged
      ensures !ProperPrefix(q, place)
    {
      assert File(q, p.staged[q]) in d || File(q, p.staged[q]) in f;
      assert ProperPrefix(q, place) ==> ProperPrefix(q, g.path);
    }
  }

  lemma UnderInner(place: Path, q: Path)
    ensures ProperPrefix(Inside(place), q) ==> ProperPrefix(place, q)
    ensures ProperPrefix(q, Inside(place)) ==> q == place || ProperPrefix(q, place)
    ensures ProperPrefix(place, Inside(place))
  {
    assert Inside(place)[..|place|] == place;
    if ProperPrefix(Inside(place), q) {
      assert q[..|place|] == q[..|place| + 1][..|place|];
    }
    if ProperPrefix(q, Inside(place)) {
      assert q == place[..|q|];
    }
  }

  /** What follows the misplaced file is staged where it belongs. */
  lemma {:induction false} TheRestFollows(d: seq<File>, f: seq<File>, place: Path, c: Content, before: seq<File>, rest: seq<File>, p: Progress)
    requires DirectoryMeetsFile(d, f, place) && f == before + [File(place, c)] + rest && Holding(p, d, before)
    requires forall h :: h in before ==> h.path != place
    ensures var end := StageFiles(p.owners[place := c], p.staged[Inside(place) := c], rest);
      && end.Going? && Held(end.staged, Inside(place), c) && place !in end.staged
      && forall q, x :: q != Inside(place) && q != place && q !in RESERVED ==>
           (Held(end.staged, q, x) <==> File(q, x) in d || File(q, x) in f)
  {
    PathsHeld(p, d, before);
    var owners, staged := p.owners[place := c], p.staged[Inside(place) := c];
    assert forall h :: h in f <==> h in before || h == File(place, c) || h in rest;
    assert File(place, c) in f;
    var g :| g in d && ProperPrefix(place, g.path);
    forall h | h in rest
      ensures Fits(owners, staged, h)
    {
      UnderInner(place, h.path);
    }
    assert OfOneDirectory(rest);
    FittingFilesAreStaged(owners, staged, rest);
    var end := StageFiles(owners, staged, rest);
    assert Held(staged, Inside(place), c) && !exists x :: Held(staged, place, x);
    assert place !in end.staged by {
      if place in end.staged { assert Held(end.staged, place, end.staged[place]); }
    }
    forall q, x | q != Inside(place) && q != place && q !in RESERVED
      ensures Held(end.staged, q, x) <==> File(q, x) in d || File(q, x) in f
    {
      assert Held(staged, q, x) <==> Held(p.staged, q, x);
      if File(q, x) in rest && q in owners {
        assert Held(p.owners, q, owners[q]);
      }
    }
  }

  /** Directory first, whatever port before the file's it comes from: unless the directory has a directory
      of its own name, the merge reports success, with the file inside the directory, over a file that has
      the same name there. */
  lemma {:induction false} DirectoryThenFile(ports: seq<Binding>, n: nat, place: Path, c: Content)
    requires Complete(ports) && n <= |ports|
    requires DirectoryMeetsFile(FilesOf(ports[..n]), FilesOf(ports[n..]), place) && File(place, c) in FilesOf(ports[n..])
    ensures var r, d, f := Staged(ports), FilesOf(ports[..n]), FilesOf(ports[n..]);
      if InnerDirectory(d, place) then r == CopyFailed(place)
      else
        && r.Ok? && Held(r.tree, Inside(place), c) && place !in r.tree
        && forall q, x :: q != Inside(place) && q != place && q !in RESERVED ==>
             (Held(r.tree, q, x) <==> File(q, x) in d || File(q, x) in f)
  {
    hide *;
    TwoGroups(ports, n);
    MisplacedFile(FilesOf(ports[..n]), FilesOf(ports[n..]), place, c);
  }

  lemma {:induction false} MisplacedFile(d: seq<File>, f: seq<File>, place: Path, c: Content)
    requires DirectoryMeetsFile(d, f, place) && File(place, c) in f
    ensures var p := StageFiles(map[], map[], d);
      && p.Going?
      && var q := StageFiles(p.owners, p.staged, f);
      if InnerDirectory(d, place) then q == Stopped(CopyFailed(place))
      else
        && q.Going? && Held(q.staged, Inside(place), c) && place !in q.staged
        && forall r, x :: r != Inside(place) && r != place && r !in RESERVED ==>
             (Held(q.staged, r, x) <==> File(r, x) in d || File(r, x) in f)
  {
    hide DirectoryMeetsFile, OfOneDirectory, Holding, InnerDirectory, StageFile, StageFiles, Held;
    assert OfOneDirectory(d) && OfOneDirectory(f) by { BothAreDirectories(d, f, place); }
    FromNothing(d);
    var first := StageFiles(map[], map[], d);
    var g := File(place, c);
    var before, rest := FirstNamed(f, g);
    OneDirectoryPart(f, before, g, rest);
    OthersJoin(d, f, place, before, first);
    var second := StageFiles(first.owners, first.staged, before);
    assert f == before + ([g] + rest);
    StageInParts(first.owners, first.staged, before, [g] + rest);
    StageHead(second.owners, second.staged, g, rest);
    FileMeetsDirectory(d, f, place, c, before, second);
    if !InnerDirectory(d, place) {
      TheRestFollows(d, f, place, c, before, rest, second);
    }
  }

  lemma {:induction false} BothAreDirectories(d: seq<File>, f: seq<File>, place: Path)
    requires DirectoryMeetsFile(d, f, place)
    ensures OfOneDirectory(d) && OfOneDirectory(f)
    ensures exists c :: File(place, c) in f
    ensures exists g :: g in d && ProperPrefix(place, g.path)
  {
  }

  lemma {:induction false} OneDirectoryPart(files: seq<File>, before: seq<File>, g: File, rest: seq<File>)
    requires OfOneDirectory(files) && files == before + [g] + rest
    ensures OfOneDirectory(before) && forall h :: h in before ==> h in files
    ensures g !in before ==> forall h :: h in before ==> h.path != g.path
  {
    assert g in files;
  }

  /** The files of the ports there are, one port after the other. */
  function FilesOf(bindings: seq<Binding>): seq<File> {
    if bindings == [] then []
    else (if bindings[0].port.None? then [] else bindings[0].port.value) + FilesOf(bindings[1..])
  }

  lemma {:induction false} FilesOfBoth(ds: seq<Binding>, fs: seq<Binding>)
    ensures FilesOf(ds + fs) == FilesOf(ds) + FilesOf(fs)
    decreases |ds|
  {
    if ds == [] {
      assert ds + fs == fs;
    } else {
      assert (ds + fs)[1..] == ds[1..] + fs;
      FilesOfBoth(ds[1..], fs);
    }
  }

  /** Where ports begin and end does not matter to the merge. */
  lemma {:induction false} PortsAsOne(owners: Tree, staged: Tree, bindings: seq<Binding>)
    requires Complete(bindings)
    ensures var p := StageFiles(owners, staged, FilesOf(bindings));
      StagePorts(owners, staged, bindings) == if p.Stopped? then p.error else Ok(p.staged)
    decreases |bindings|
  {
    if bindings != [] {
      hide StageFile;
      assert bindings[0].required ==> bindings[0].port.Some?;
      assert Complete(bindings[1..]);
      if bindings[0].port.None? {
        assert FilesOf(bindings) == FilesOf(bindings[1..]);
        PortsAsOne(owners, staged, bindings[1..]);
      } else {
        var p := StageFiles(owners, staged, bindings[0].port.value);
        StageInParts(owners, staged, bindings[0].port.value, FilesOf(bindings[1..]));
        if p.Going? {
          PortsAsOne(p.owners, p.staged, bindings[1..]);
        }
      }
    }
  }

  /** Merging the ports is merging the first `n`, then the others. */
  lemma {:induction false} TwoGroups(ports: seq<Binding>, n: nat)
    requires Complete(ports) && n <= |ports|
    ensures var p := StageFiles(map[], map[], FilesOf(ports[..n]));
      if p.Stopped? then Staged(ports) == p.error
      else
        var q := StageFiles(p.owners, p.staged, FilesOf(ports[n..]));
        Staged(ports) == if q.Stopped? then q.error else Ok(q.staged)
  {
    hide StageFiles, FilesOf, StagePorts, Complete;
    PortsAsOne(map[], map[], ports);
    FilesOfBoth(ports[..n], ports[n..]);
    assert ports == ports[..n] + ports[n..];
    StageInParts(map[], map[], FilesOf(ports[..n]), FilesOf(ports[n..]));
  }

  lemma {:induction false} FromNothing(d: seq<File>)
    requires OfOneDirectory(d)
    ensures Holding(StageFiles(map[], map[], d), d, [])
  {
    FittingFilesAreStaged(map[], map[], d);
    assert forall q, x :: !Held(map[], q, x);
  }

  lemma {:induction false} StageHead(owners: Tree, staged: Tree, g: File, rest: seq<File>)
    ensures var p := StageFile(owners, staged, g);
      StageFiles(owners, staged, [g] + rest) == if p.Stopped? then p else StageFiles(p.owners, p.staged, rest)
  {
    assert ([g] + rest)[1..] == rest;
  }

  /** File first: the copy of the first file below it fails. */
  lemma {:induction false} FileThenDirectory(ports: seq<Binding>, n: nat, place: Path)
    requires Complete(ports) && n <= |ports| && DirectoryMeetsFile(FilesOf(ports[n..]), FilesOf(ports[..n]), place)
    ensures Staged(ports).CopyFailed? && ProperPrefix(place, Staged(ports).path)
  {
    hide *;
    TwoGroups(ports, n);
    BlockedDirectory(FilesOf(ports[n..]), FilesOf(ports[..n]), place);
  }

  lemma {:induction false} BlockedDirectory(d: seq<File>, f: seq<File>, place: Path)
    requires DirectoryMeetsFile(d, f, place)
    ensures var p := StageFiles(map[], map[], f);
      && p.Going?
      && var q := StageFiles(p.owners, p.staged, d);
      q.Stopped? && q.error.CopyFailed? && ProperPrefix(place, q.error.path)
  {
    hide DirectoryMeetsFile, OfOneDirectory, Holding, StageFile, StageFiles, Held;
    BothAreDirectories(d, f, place);
    FromNothing(f);
    var first := StageFiles(map[], map[], f);
    var before, g, rest := FirstBelow(d, place);
    OneDirectoryPart(d, before, g, rest);
    assert d == before + ([g] + rest) && g in d;
    BelowIsBlocked(d, f, place, before, g, first);
    var second := StageFiles(first.owners, first.staged, before);
    StageInParts(first.owners, first.staged, before, [g] + rest);
    StageHead(second.owners, second.staged, g, rest);
  }

  lemma {:induction false} BelowIsBlocked(d: seq<File>, f: seq<File>, place: Path, before: seq<File>, g: File, p: Progress)
    requires DirectoryMeetsFile(d, f, place) && Holding(p, f, []) && OfOneDirectory(before)
    requires g in d && ProperPrefix(place, g.path) && forall h :: h in before ==> h in d && !ProperPrefix(place, h.path)
    ensures var now := StageFiles(p.owners, p.staged, before);
      now.Going? && StageFile(now.owners, now.staged, g) == Stopped(CopyFailed(g.path))
  {
    var c :| File(place, c) in f;
    PathsHeld(p, f, []);
    assert Held(p.staged, place, c);
    DeepIsNotReserved(g.path);
    hide RESERVED, CopyInto;
    forall h | h in before
      ensures Fits(p.owners, p.staged, h)
    {
    }
    FittingFilesAreStaged(p.owners, p.staged, before);
    var now := StageFiles(p.owners, p.staged, before);
    assert g.path !in now.owners by { NotHeld(now.owners, g.path); }
    assert Held(now.staged, place, c);
    BlockedMeansFailed(now.staged, place, g);
  }

  lemma NotHeld(tree: Tree, p: Path)
    requires forall x :: !Held(tree, p, x)
    ensures p !in tree
  {
    assert p in tree ==> Held(tree, p, tree[p]);
  }

  lemma BlockedMeansFailed(staged: Tree, p: Path, g: File)
    requires p in staged && ProperPrefix(p, g.path)
    ensures CopyInto(staged, g.path, g.content).None?
  {
  }

  lemma {:induction false} FirstBelow(files: seq<File>, place: Path) returns (before: seq<File>, g: File, rest: seq<File>)
    requires exists h :: h in files && ProperPrefix(place, h.path)
    ensures files == before + [g] + rest && ProperPrefix(place, g.path) && forall h :: h in before ==> !ProperPrefix(place, h.path)
    decreases |files|
  {
    if ProperPrefix(place, files[0].path) {
      return [], files[0], files[1..];
    }
    assert files == [files[0]] + files[1..];
    before, g, rest := FirstBelow(files[1..], place);
    before := [files[0]] + before;
  }

  lemma {:induction false} FirstNamed(files: seq<File>, g: File) returns (before: seq<File>, after: seq<File>)
    requires g in files
    ensures files == before + [g] + after && g !in before
    decreases |files|
  {
    if files[0] == g {
      return [], files[1..];
    }
    assert files == [files[0]] + files[1..];
    before, after := FirstNamed(files[1..], g);
    before := [files[0]] + before;
  }

  // ----- putting the new directory in place ------------------------------------------------------

  /** Which of the file-system operations of publishing fail. */
  datatype Faults = Faults(moveAside: bool, moveIn: bool, restore: bool, cleanup: bool)

  /** What the destination is after publishing, whatever fails. */
  function Published(existing: Option<Tree>, tree: Tree, f: Faults): Option<Tree> {
    if existing.Some? && f.moveAside then existing
    else if !f.moveIn then Some(tree)
    else if existing.Some? && f.restore then None
    else existing
  }

  predicate PublishSucceeds(existing: Option<Tree>, f: Faults) {
    !f.moveIn && (existing.Some? ==> !f.moveAside && !f.cleanup)
  }

  /** A failed publish leaves the old directory in place, except when the move back fails as well, and
      when only the removal of the old directory failed: then the new one is already in. */
  lemma FailedPublishKeepsOld(existing: Option<Tree>, tree: Tree, f: Faults)
    requires existing != Some(tree)
    ensures PublishSucceeds(existing, f) ==> Published(existing, tree, f) == Some(tree)
    ensures !PublishSucceeds(existing, f) ==>
      (Published(existing, tree, f) == existing <==> existing.None? || f.moveAside || (f.moveIn && !f.restore))
  {
  }

  /** A task's input directory, with the temporary directories beside it. */
  class InputArea {
    var destination: Option<Tree>
    var staging: Option<Tree>
    var previous: Option<Tree>

    constructor (existing: Option<Tree>)
      ensures destination == existing && staging == None && previous == None
    {
      destination, staging, previous := existing, None, None;
    }

    /** `_publish_staged_directory`: two renames, with the first undone when the second fails. */
    method Publish(faults: Faults) returns (ok: bool)
      requires staging.Some? && previous.None?
      modifies this
      ensures ok <==> PublishSucceeds(old(destination), faults)
      ensures destination == Published(old(destination), old(staging).value, faults)
      ensures destination.None? && old(destination).Some? ==> previous == old(destination)
    {
      if destination.Some? {
        if faults.moveAside {
          return false;
        }
        previous, destination := destination, None;
      }
      if faults.moveIn {
        if previous.Some? && !faults.restore {
          destination, previous := previous, None;
        }
        return false;
      }
      destination, staging := staging, None;
      if previous.Some? {
        if faults.cleanup {
          return false;
        }
        previous := None;
      }
      return true;
    }

    /** `stage_input_bindings`: merge into a staging directory, publish it; on any failure remove the
        staging directory. */
    method StageInputBindings(bindings: seq<Binding>, faults: Faults) returns (r: Merged, ok: bool)
      requires staging.None? && previous.None?
      modifies this
      ensures r == Staged(bindings)
      ensures Complete(bindings) && Agreeing(bindings) && Compatible(bindings) ==> r.Ok? && IsUnion(r.tree, bindings)
      ensures r.Ok? ==> Complete(bindings) && Agreeing(bindings) && (IsUnion(r.tree, bindings) <==> Compatible(bindings))
      ensures ok <==> r.Ok? && PublishSucceeds(old(destination), faults)
      ensures destination == if r.Ok? then Published(old(destination), r.tree, faults) else old(destination)
      ensures staging.None?
    {
      staging := Some(map[]);
      MergeIsExplained(bindings);
      r := Merge(bindings);
      ok := false;
      if r.Ok? {
        staging := Some(r.tree);
        ok := Publish(faults);
      }
      staging := None;
    }
  }
}
