/** Grouping pipeline steps into images: each step joins the first group whose Python requirements it
    does not conflict with, or opens a group of its own. */
module RequirementGroups {
  import opened Wrappers

  /** A package's canonical name, as its place in sorted order. */
  type Package = nat
  type Spec = string
  type Version = string

  /** One requirement line: a package with version specifiers, or a line the code skips (a comment, an
      option, a URL, or text that does not parse). */
  datatype Line = Skipped | Needs(package: Package, specs: set<Spec>)

  /** The meaning of version specifiers, in the sense of PEP 440, and the version a specifier names, less
      a trailing wildcard.  Nothing is assumed about either; a text that is no version satisfies nothing. */
  datatype Versions = Versions(satisfies: (Spec, Version) -> bool, named: Spec -> Version)

  type Specifiers = map<Package, set<Spec>>

  // ----- specifiers ------------------------------------------------------------------------------

  predicate Meets(v: Versions, version: Version, specs: set<Spec>) {
    forall s :: s in specs ==> v.satisfies(s, version)
  }

  /** Some version meets all the specifiers. */
  ghost predicate Satisfiable(v: Versions, specs: set<Spec>) {
    exists version :: Meets(v, version, specs)
  }

  /** Everything the lines ask of one package. */
  function Asked(lines: seq<Line>, p: Package): set<Spec> {
    set n, s | 0 <= n < |lines| && lines[n].Needs? && lines[n].package == p && s in lines[n].specs :: s
  }

  predicate Mentions(lines: seq<Line>, p: Package) {
    exists n :: 0 <= n < |lines| && lines[n].Needs? && lines[n].package == p
  }

  /** `_requirement_specifiers`: one combined set of specifiers for every package mentioned. */
  method RequirementSpecifiers(lines: seq<Line>) returns (combined: Specifiers)
    ensures forall p :: p in combined <==> Mentions(lines, p)
    ensures forall p :: p in combined ==> combined[p] == Asked(lines, p)
  {
    combined := map[];
    for n := 0 to |lines|
      invariant forall p :: p in combined <==> Mentions(lines[..n], p)
      invariant forall p :: p in combined ==> combined[p] == Asked(lines[..n], p)
    {
      var line := lines[n];
      forall p {
        OneMoreLine(lines[..n], line, p);
      }
      assert lines[..n + 1] == lines[..n] + [line];
      if line.Needs? {
        var known := if line.package in combined then combined[line.package] else {};
        combined := combined[line.package := known + line.specs];
      }
    }
    assert lines[..|lines|] == lines;
  }

  lemma {:induction false} OneMoreLine(lines: seq<Line>, line: Line, p: Package)
    ensures Mentions(lines + [line], p) <==> Mentions(lines, p) || (line.Needs? && line.package == p)
    ensures Asked(lines + [line], p) == Asked(lines, p) + if line.Needs? && line.package == p then line.specs else {}
    ensures !Mentions(lines, p) ==> Asked(lines, p) == {}
  {
    MoreLines(lines, [line], p);
    assert [line][0] == line;
  }

  lemma {:induction false} MoreLines(lines: seq<Line>, more: seq<Line>, p: Package)
    ensures Mentions(lines + more, p) <==> Mentions(lines, p) || Mentions(more, p)
    ensures Asked(lines + more, p) == Asked(lines, p) + Asked(more, p)
  {
    var all := lines + more;
    assert forall n :: 0 <= n < |more| ==> all[|lines| + n] == more[n];
    assert forall n :: 0 <= n < |lines| ==> all[n] == lines[n];
  }

  // ----- conflicts -------------------------------------------------------------------------------

  /** The candidates: version 0, the named versions, and versions just above them. */
  function Candidates(v: Versions, specs: set<Spec>): set<Version> {
    {"0"} + (set s | s in specs :: v.named(s)) + (set s | s in specs :: v.named(s) + ".0")
    + (set s | s in specs :: v.named(s) + ".1") + (set s | s in specs :: v.named(s) + ".post1")
  }

  /** What `_specifiers_overlap` decides: nothing is asked, or one of the candidates will do. */
  predicate Overlap(v: Versions, first: set<Spec>, second: set<Spec>) {
    first + second == {} || exists c :: c in Candidates(v, first + second) && Meets(v, c, first + second)
  }

  method SpecifiersOverlap(v: Versions, first: set<Spec>, second: set<Spec>) returns (overlap: bool)
    ensures overlap <==> Overlap(v, first, second)
  {
    var combined := first + second;
    if combined == {} {
      return true;
    }
    var left := Candidates(v, combined);
    while left != {}
      invariant left <= Candidates(v, combined)
      invariant forall c :: c in Candidates(v, combined) - left ==> !Meets(v, c, combined)
      decreases |left|
    {
      var c :| c in left;
      if Meets(v, c, combined) {
        return true;
      }
      left := left - {c};
    }
    return false;
  }

  /** Both sides ask for the package and no candidate version is found. */
  predicate Clash(v: Versions, first: seq<Line>, second: seq<Line>, p: Package) {
    Mentions(first, p) && Mentions(second, p) && !Overlap(v, Asked(first, p), Asked(second, p))
  }

  /** The answer names the first package in sorted order that clashes. */
  ghost predicate IsConflict(v: Versions, first: seq<Line>, second: seq<Line>, r: Option<Package>) {
    match r
    case None => forall p: Package :: !Clash(v, first, second, p)
    case Some(p) => Clash(v, first, second, p) && forall q: Package :: q < p ==> !Clash(v, first, second, q)
  }

  lemma {:induction false} ConflictIsUnique(v: Versions, first: seq<Line>, second: seq<Line>, r: Option<Package>, s: Option<Package>)
    requires IsConflict(v, first, second, r) && IsConflict(v, first, second, s)
    ensures r == s
  {
    if r.Some? && s.Some? {
      assert r.value < s.value || s.value < r.value || r == s;
    }
  }

  method RequirementConflict(v: Versions, first: seq<Line>, second: seq<Line>) returns (r: Option<Package>)
    ensures IsConflict(v, first, second, r)
  {
    var firstSpecifiers := RequirementSpecifiers(first);
    var secondSpecifiers := RequirementSpecifiers(second);
    var left := firstSpecifiers.Keys * secondSpecifiers.Keys;
    while left != {}
      invariant left <= firstSpecifiers.Keys * secondSpecifiers.Keys
      invariant forall p: Package :: p !in left ==> !Clash(v, first, second, p)
      decreases |left|
    {
      ghost var least := Least(left);
      assert least in left;
      var name :| name in left && forall other :: other in left ==> name <= other;
      var overlap := SpecifiersOverlap(v, firstSpecifiers[name], secondSpecifiers[name]);
      if !overlap {
        return Some(name);
      }
      left := left - {name};
    }
    return None;
  }

  lemma {:induction false} Least(names: set<Package>) returns (least: Package)
    requires names != {}
    ensures least in names && forall other :: other in names ==> least <= other
    decreases |names|
  {
    var one :| one in names;
    least := one;
    if names != {one} {
      var rest := Least(names - {one});
      if rest < one { least := rest; }
    }
    forall other | other in names
      ensures least <= other
    {
      assert other == one || other in names - {one};
    }
  }

  // ----- grouping --------------------------------------------------------------------------------

  /** Why a new group could not be an earlier one: the steps that one held then, and a package. */
  datatype Conflict = Conflict(flowIds: seq<string>, package: Package)

  datatype Group = Group(flowIds: seq<string>, requirements: seq<Line>, conflicts: seq<Conflict>)

  type StepRequirements = map<string, seq<Line>>

  function Of(step: StepRequirements, id: string): seq<Line> {
    if id in step then step[id] else []
  }

  /** All the requirements of some steps, in their order. */
  function Owed(step: StepRequirements, ids: seq<string>): seq<Line> {
    if ids == [] then [] else Owed(step, ids[..|ids| - 1]) + Of(step, ids[|ids| - 1])
  }

  ghost predicate Fits(v: Versions, g: Group, lines: seq<Line>) {
    IsConflict(v, g.requirements, lines, None)
  }

  ghost predicate Reports(v: Versions, c: Conflict, g: Group, lines: seq<Line>) {
    c.flowIds == g.flowIds && IsConflict(v, g.requirements, lines, Some(c.package))
  }

  /** One step is placed: in the first group it fits, or in a new last group that reports a conflict
      with each of the others. */
  ghost predicate Placed(v: Versions, groups: seq<Group>, id: string, lines: seq<Line>, after: seq<Group>) {
    if exists j :: 0 <= j < |groups| && Fits(v, groups[j], lines)
    then
      exists j :: 0 <= j < |groups| && Fits(v, groups[j], lines) && (forall i :: 0 <= i < j ==> !Fits(v, groups[i], lines))
        && after == groups[j := Joined(groups[j], id, lines)]
    else
      exists conflicts :: |conflicts| == |groups| && (forall i :: 0 <= i < |groups| ==> Reports(v, conflicts[i], groups[i], lines))
        && after == groups + [Group([id], lines, conflicts)]
  }

  function Joined(g: Group, id: string, lines: seq<Line>): Group {
    g.(flowIds := g.flowIds + [id], requirements := g.requirements + lines)
  }

  /** What all groups satisfy once some steps are placed. */
  ghost predicate Grouping(v: Versions, step: StepRequirements, ids: seq<string>, groups: seq<Group>) {
    && IdsIn(groups) == multiset(ids)
    && (forall j :: 0 <= j < |groups| ==> Sound(step, ids, groups[j]))
    && (forall j :: 0 <= j < |groups| ==> |groups[j].conflicts| == j)
    && (forall j, i {:trigger groups[j].conflicts[i]} :: 0 <= i < j < |groups| ==> Explains(v, step, groups[j].conflicts[i], groups[i], groups[j]))
    && ((forall id :: id in ids ==> Installable(v, Of(step, id))) ==> forall j :: 0 <= j < |groups| ==> Installable(v, groups[j].requirements))
  }

  function IdsIn(groups: seq<Group>): multiset<string> {
    if groups == [] then multiset{} else IdsIn(groups[..|groups| - 1]) + multiset(groups[|groups| - 1].flowIds)
  }

  ghost predicate Subsequence(part: seq<string>, whole: seq<string>) {
    if part == [] then true
    else if whole == [] then false
    else
      || Subsequence(part, whole[..|whole| - 1])
      || (part[|part| - 1] == whole[|whole| - 1] && Subsequence(part[..|part| - 1], whole[..|whole| - 1]))
  }

  /** The group's steps are some of the placed ones, in their order, and its requirements are theirs. */
  ghost predicate Sound(step: StepRequirements, ids: seq<string>, g: Group) {
    g.flowIds != [] && Subsequence(g.flowIds, ids) && g.requirements == Owed(step, g.flowIds)
  }

  /** The conflict is between the step that opened the later group and the steps recorded, which are the
      first ones of the earlier group. */
  ghost predicate Explains(v: Versions, step: StepRequirements, c: Conflict, earlier: Group, later: Group) {
    && c.flowIds != [] && c.flowIds <= earlier.flowIds
    && later.flowIds != [] && Clash(v, Owed(step, c.flowIds), Of(step, later.flowIds[0]), c.package)
  }

  /** For every package one version meets everything the lines ask of it. */
  ghost predicate Installable(v: Versions, lines: seq<Line>) {
    forall p: Package :: Satisfiable(v, Asked(lines, p))
  }

  /** The groups are what placing the steps one after the other leads to. */
  ghost predicate Grouped(v: Versions, step: StepRequirements, ids: seq<string>, groups: seq<Group>)
    decreases |ids|
  {
    if ids == [] then groups == []
    else
      var front, id := ids[..|ids| - 1], ids[|ids| - 1];
      exists before :: Grouped(v, step, front, before) && Placed(v, before, id, Of(step, id), groups)
  }

  /** `_compatible_requirement_groups`. */
  method CompatibleRequirementGroups(v: Versions, orderedIds: seq<string>, step: StepRequirements) returns (groups: seq<Group>)
    ensures Grouped(v, step, orderedIds, groups)
  {
    groups := [];
    for k := 0 to |orderedIds|
      invariant Grouped(v, step, orderedIds[..k], groups)
    {
      var id := orderedIds[k];
      ghost var before := groups;
      groups := PlaceStep(v, groups, id, Of(step, id));
      assert orderedIds[..k + 1][..k] == orderedIds[..k];
      assert Grouped(v, step, orderedIds[..k], before) && Placed(v, before, id, Of(step, id), groups);
    }
    assert orderedIds[..|orderedIds|] == orderedIds;
  }

  /** The inner loop, with its `else`. */
  method PlaceStep(v: Versions, groups: seq<Group>, id: string, lines: seq<Line>) returns (after: seq<Group>)
    ensures Placed(v, groups, id, lines, after)
  {
    hide IsConflict;
    var conflicts: seq<Conflict> := [];
    for j := 0 to |groups|
      invariant |conflicts| == j
      invariant forall i :: 0 <= i < j ==> Reports(v, conflicts[i], groups[i], lines) && !Fits(v, groups[i], lines)
    {
      var package := RequirementConflict(v, groups[j].requirements, lines);
      if package.None? {
        return groups[j := Joined(groups[j], id, lines)];
      }
      ReportedDoesNotFit(v, groups[j], lines, package.value);
      conflicts := conflicts + [Conflict(groups[j].flowIds, package.value)];
    }
    return groups + [Group([id], lines, conflicts)];
  }

  lemma {:induction false} ReportedDoesNotFit(v: Versions, g: Group, lines: seq<Line>, p: Package)
    requires IsConflict(v, g.requirements, lines, Some(p))
    ensures !Fits(v, g, lines)
  {
    if Fits(v, g, lines) {
      ConflictIsUnique(v, g.requirements, lines, None, Some(p));
    }
  }

  // ----- placing keeps the grouping --------------------------------------------------------------

  lemma {:induction false} Joining(v: Versions, first: seq<Line>, second: seq<Line>)
    requires Installable(v, first) && Installable(v, second) && IsConflict(v, first, second, None)
    ensures Installable(v, first + second)
  {
    forall p: Package
      ensures Satisfiable(v, Asked(first + second, p))
    {
      MoreLines(first, second, p);
      assert !Clash(v, first, second, p);
      var both := Asked(first, p) + Asked(second, p);
      if !Mentions(second, p) {
        assert both == Asked(first, p);
      } else if !Mentions(first, p) {
        assert both == Asked(second, p);
      } else if both == {} {
        assert Meets(v, "0", both);
      }
    }
  }

  lemma {:induction false} IdsAfterUpdate(groups: seq<Group>, j: nat, g: Group, id: string)
    requires j < |groups| && g.flowIds == groups[j].flowIds + [id]
    ensures IdsIn(groups[j := g]) == IdsIn(groups) + multiset{id}
    decreases |groups|
  {
    var last := |groups| - 1;
    if j < last {
      IdsAfterUpdate(groups[..last], j, g, id);
      assert groups[j := g][..last] == groups[..last][j := g];
    } else {
      assert groups[j := g][..last] == groups[..last];
    }
  }

  lemma {:induction false} PlacingKeepsGrouping(v: Versions, step: StepRequirements, ids: seq<string>, groups: seq<Group>, id: string, after: seq<Group>)
    requires Grouping(v, step, ids, groups) && Placed(v, groups, id, Of(step, id), after)
    ensures Grouping(v, step, ids + [id], after)
  {
    var lines := Of(step, id);
    if exists j :: 0 <= j < |groups| && Fits(v, groups[j], lines) {
      var j :| 0 <= j < |groups| && Fits(v, groups[j], lines) && after == groups[j := Joined(groups[j], id, lines)];
      JoiningKeepsGrouping(v, step, ids, groups, id, j);
    } else {
      var conflicts :| |conflicts| == |groups| && (forall i :: 0 <= i < |groups| ==> Reports(v, conflicts[i], groups[i], lines))
        && after == groups + [Group([id], lines, conflicts)];
      OpeningKeepsGrouping(v, step, ids, groups, id, conflicts);
    }
  }

  lemma {:induction false} SoundWithOneMore(step: StepRequirements, ids: seq<string>, id: string, g: Group)
    requires Sound(step, ids, g)
    ensures Sound(step, ids + [id], g) && Sound(step, ids + [id], Joined(g, id, Of(step, id)))
  {
    var whole, longer := ids + [id], g.flowIds + [id];
    assert whole[..|ids|] == ids && longer[..|g.flowIds|] == g.flowIds;
    assert Subsequence(longer, whole);
  }

  lemma {:induction false} ExplainsStill(v: Versions, step: StepRequirements, c: Conflict, earlier: Group, earlier': Group, later: Group, later': Group)
    requires Explains(v, step, c, earlier, later) && earlier.flowIds <= earlier'.flowIds && later.flowIds <= later'.flowIds
    ensures Explains(v, step, c, earlier', later')
  {
    hide Clash;
  }

  lemma {:induction false} JoiningKeepsGrouping(v: Versions, step: StepRequirements, ids: seq<string>, groups: seq<Group>, id: string, j: nat)
    requires Grouping(v, step, ids, groups) && j < |groups| && Fits(v, groups[j], Of(step, id))
    ensures Grouping(v, step, ids + [id], groups[j := Joined(groups[j], id, Of(step, id))])
  {
    hide Sound, Installable, Clash, Explains, Of;
    var joined := Joined(groups[j], id, Of(step, id));
    var after := groups[j := joined];
    IdsAfterUpdate(groups, j, joined, id);
    forall i | 0 <= i < |groups|
      ensures Sound(step, ids + [id], after[i])
    {
      SoundWithOneMore(step, ids, id, groups[i]);
    }
    forall n, i | 0 <= i < n < |after|
      ensures Explains(v, step, after[n].conflicts[i], after[i], after[n])
    {
      assert Explains(v, step, groups[n].conflicts[i], groups[i], groups[n]);
      ExplainsStill(v, step, groups[n].conflicts[i], groups[i], after[i], groups[n], after[n]);
    }
    if forall each :: each in ids + [id] ==> Installable(v, Of(step, each)) {
      assert forall each :: each in ids ==> each in ids + [id];
      Joining(v, groups[j].requirements, Of(step, id));
    }
  }

  lemma {:induction false} ReportExplains(v: Versions, step: StepRequirements, ids: seq<string>, g: Group, c: Conflict, id: string, newest: Group)
    requires Sound(step, ids, g) && Reports(v, c, g, Of(step, id)) && newest.flowIds == [id]
    ensures Explains(v, step, c, g, newest)
  {
    hide Subsequence, Owed, Overlap, Mentions, Asked;
  }

  lemma {:induction false} OpeningKeepsGrouping(v: Versions, step: StepRequirements, ids: seq<string>, groups: seq<Group>, id: string, conflicts: seq<Conflict>)
    requires Grouping(v, step, ids, groups) && |conflicts| == |groups|
    requires forall i :: 0 <= i < |groups| ==> Reports(v, conflicts[i], groups[i], Of(step, id))
    ensures Grouping(v, step, ids + [id], groups + [Group([id], Of(step, id), conflicts)])
  {
    hide Installable, Clash, Sound, Explains, Reports, Of;
    var newest := Group([id], Of(step, id), conflicts);
    var after := groups + [newest];
    assert after[..|groups|] == groups;
    OpenedIsSound(step, ids, id, newest);
    forall i | 0 <= i < |groups|
      ensures Sound(step, ids + [id], groups[i])
    {
      SoundWithOneMore(step, ids, id, groups[i]);
    }
    forall n, i | 0 <= i < n < |after|
      ensures Explains(v, step, after[n].conflicts[i], after[i], after[n])
    {
      if n < |groups| {
        assert Explains(v, step, groups[n].conflicts[i], groups[i], groups[n]);
      } else {
        ReportExplains(v, step, ids, groups[i], conflicts[i], id, newest);
      }
    }
    if forall each :: each in ids + [id] ==> Installable(v, Of(step, each)) {
      assert forall each :: each in ids ==> each in ids + [id];
    }
  }

  lemma {:induction false} OpenedIsSound(step: StepRequirements, ids: seq<string>, id: string, g: Group)
    requires g.flowIds == [id] && g.requirements == Of(step, id)
    ensures Sound(step, ids + [id], g)
  {
    var whole := ids + [id];
    assert whole[..|ids|] == ids && g.flowIds[..0] == [];
    assert Subsequence(g.flowIds[..0], ids);
    assert Owed(step, []) == [];
    assert Owed(step, [id]) == Owed(step, [id][..0]) + Of(step, id);
  }

  /** The groups partition the steps, each in order; each group's requirements are its steps'; each group
      records one real conflict with every earlier one; and if every step alone can be installed, so can
      every group. */
  lemma {:induction false} GroupedIsGrouping(v: Versions, step: StepRequirements, ids: seq<string>, groups: seq<Group>)
    requires Grouped(v, step, ids, groups)
    ensures Grouping(v, step, ids, groups)
    decreases |ids|
  {
    hide Placed, Sound, Explains, Installable;
    if ids != [] {
      var front, id := ids[..|ids| - 1], ids[|ids| - 1];
      var before :| Grouped(v, step, front, before) && Placed(v, before, id, Of(step, id), groups);
      GroupedIsGrouping(v, step, front, before);
      PlacingKeepsGrouping(v, step, front, before, id, groups);
      assert front + [id] == ids;
    }
  }

  // ----- what the groups mean --------------------------------------------------------------------

  /** Every image can be installed exactly when every step alone can be. */
  lemma {:induction false} ImagesInstallableExactly(v: Versions, step: StepRequirements, ids: seq<string>, groups: seq<Group>)
    requires Grouped(v, step, ids, groups)
    ensures (forall g :: g in groups ==> Installable(v, g.requirements))
       <==> (forall id :: id in ids ==> Installable(v, Of(step, id)))
  {
    GroupedIsGrouping(v, step, ids, groups);
    hide Grouped, Installable;
    if forall g :: g in groups ==> Installable(v, g.requirements) {
      forall id | id in ids
        ensures Installable(v, Of(step, id))
      {
        assert id in IdsIn(groups);
        var j := GroupOf(groups, id);
        assert groups[j] in groups;
        PartIsInstallable(v, step, groups[j].flowIds, id);
      }
    }
  }

  lemma {:induction false} GroupOf(groups: seq<Group>, id: string) returns (j: nat)
    requires id in IdsIn(groups)
    ensures j < |groups| && id in groups[j].flowIds
    decreases |groups|
  {
    var last := |groups| - 1;
    if id in groups[last].flowIds {
      return last;
    }
    j := GroupOf(groups[..last], id);
  }

  lemma {:induction false} PartIsInstallable(v: Versions, step: StepRequirements, ids: seq<string>, id: string)
    requires id in ids && Installable(v, Owed(step, ids))
    ensures Installable(v, Of(step, id))
    decreases |ids|
  {
    var front, last := ids[..|ids| - 1], ids[|ids| - 1];
    forall p: Package
      ensures Satisfiable(v, Asked(Owed(step, front), p)) && Satisfiable(v, Asked(Of(step, last), p))
    {
      MoreLines(Owed(step, front), Of(step, last), p);
      var version :| Meets(v, version, Asked(Owed(step, ids), p));
      assert Meets(v, version, Asked(Owed(step, front), p)) && Meets(v, version, Asked(Of(step, last), p));
    }
    if id != last {
      assert id in front;
      PartIsInstallable(v, step, front, id);
    }
  }

  /** One version meets all that both sides ask of the package, and it is version 0, one that a specifier
      names, or one just above such a version. */
  ghost predicate MeetAt(v: Versions, first: seq<Line>, second: seq<Line>, p: Package, version: Version) {
    && (forall s :: s in Asked(first, p) || s in Asked(second, p) ==> v.satisfies(s, version))
    && (version == "0" || exists s :: (s in Asked(first, p) || s in Asked(second, p)) && version in {v.named(s), v.named(s) + ".0", v.named(s) + ".1", v.named(s) + ".post1"})
  }

  /** For every package that both sides mention with specifiers, such a version is there. */
  ghost predicate GoTogether(v: Versions, first: seq<Line>, second: seq<Line>) {
    forall p: Package :: Mentions(first, p) && Mentions(second, p) && (Asked(first, p) != {} || Asked(second, p) != {}) ==>
      exists version :: MeetAt(v, first, second, p, version)
  }

  lemma {:induction false} ClashExactly(v: Versions, first: seq<Line>, second: seq<Line>, p: Package)
    ensures Clash(v, first, second, p) <==>
      Mentions(first, p) && Mentions(second, p) && (Asked(first, p) != {} || Asked(second, p) != {})
      && forall version :: !MeetAt(v, first, second, p, version)
  {
    var both := Asked(first, p) + Asked(second, p);
    hide Asked, Mentions;
    forall version
      ensures version in Candidates(v, both) && Meets(v, version, both) <==> MeetAt(v, first, second, p, version)
    {
    }
  }

  /** A step goes into the first group whose requirements go together with its own; it opens a new group
      exactly when there is none. */
  lemma {:induction false} StepGoesWhereItFits(v: Versions, groups: seq<Group>, id: string, lines: seq<Line>, after: seq<Group>)
    requires Placed(v, groups, id, lines, after)
    ensures if exists j :: 0 <= j < |groups| && GoTogether(v, groups[j].requirements, lines) then
        exists j :: 0 <= j < |groups| && GoTogether(v, groups[j].requirements, lines)
          && (forall i :: 0 <= i < j ==> !GoTogether(v, groups[i].requirements, lines)) && after == groups[j := Joined(groups[j], id, lines)]
      else |after| == |groups| + 1 && after[..|groups|] == groups && after[|groups|].flowIds == [id] && after[|groups|].requirements == lines
  {
    forall j | 0 <= j < |groups|
      ensures Fits(v, groups[j], lines) <==> GoTogether(v, groups[j].requirements, lines)
    {
      FitsExactly(v, groups[j], lines);
    }
    hide Fits, GoTogether;
  }

  lemma {:induction false} FitsExactly(v: Versions, g: Group, lines: seq<Line>)
    ensures Fits(v, g, lines) <==> GoTogether(v, g.requirements, lines)
  {
    hide Clash, MeetAt, Mentions, Asked;
    forall p: Package
      ensures Clash(v, g.requirements, lines, p) <==>
        Mentions(g.requirements, p) && Mentions(lines, p) && (Asked(g.requirements, p) != {} || Asked(lines, p) != {})
        && forall version :: !MeetAt(v, g.requirements, lines, p, version)
    {
      ClashExactly(v, g.requirements, lines, p);
    }
  }
}
