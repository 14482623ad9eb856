/** A Parallel Map scope as a whole: split a collection into items, run every step per item, collect. */
module MapScope {
  import opened ItemRunner
  import opened Wrappers
  import StepOrder

  /** One file or folder an item consists of. */
  datatype Artifact = Artifact(name: string, content: string, folder: bool)

  datatype IndexEntry = IndexEntry(key: Key, state: ItemState)

  /** A collection: its index, and one folder per item that holds one artifact. */
  datatype Collection = Collection(index: seq<IndexEntry>, folders: map<Key, Artifact>)

  // ----- keys ------------------------------------------------------------------------------------

  /** `_item_keys`: the succeeded items, in index order. */
  function ItemKeys(index: seq<IndexEntry>): seq<Key> {
    if index == [] then []
    else
      var last := index[|index| - 1];
      ItemKeys(index[..|index| - 1]) + if last.state.status == Succeeded then [last.key] else []
  }

  function Keep(keys: seq<Key>, wanted: Key -> bool): seq<Key> {
    if keys == [] then []
    else
      var last := keys[|keys| - 1];
      Keep(keys[..|keys| - 1], wanted) + if wanted(last) then [last] else []
  }

  lemma {:induction false} KeepFacts(keys: seq<Key>, wanted: Key -> bool)
    ensures forall k :: k in Keep(keys, wanted) <==> k in keys && wanted(k)
    ensures Distinct(keys) ==> Distinct(Keep(keys, wanted))
  {
    if keys != [] {
      var front, last := keys[..|keys| - 1], keys[|keys| - 1];
      assert keys == front + [last];
      KeepFacts(front, wanted);
      if Distinct(keys) {
        assert Distinct(front);
        assert last !in front;
      }
    }
  }

  lemma {:induction false} KeepTwice(keys: seq<Key>, first: Key -> bool, second: Key -> bool, both: Key -> bool)
    requires forall k :: k in keys ==> (both(k) <==> first(k) && second(k))
    ensures Keep(Keep(keys, first), second) == Keep(keys, both)
  {
    if keys != [] {
      var front, last := keys[..|keys| - 1], keys[|keys| - 1];
      KeepTwice(front, first, second, both);
      var kept := Keep(front, first);
      if first(last) {
        var t := kept + [last];
        assert Keep(keys, first) == t && t[..|t| - 1] == kept && t[|t| - 1] == last;
        assert Keep(t, second) == Keep(kept, second) + if second(last) then [last] else [];
      } else {
        assert Keep(keys, first) == kept;
      }
    }
  }

  lemma {:induction false} KeepSame(keys: seq<Key>, first: Key -> bool, second: Key -> bool)
    requires forall k :: k in keys ==> (first(k) <==> second(k))
    ensures Keep(keys, first) == Keep(keys, second)
  {
    if keys != [] {
      KeepSame(keys[..|keys| - 1], first, second);
    }
  }

  // ----- the scope's steps -----------------------------------------------------------------------

  /** A step inside the scope, wired to the split or to other steps; a join has several inputs. */
  datatype Scope = Split | Lift(step: string, inputs: Scopes)
  datatype Scopes = One(only: Scope) | Both(first: Scope, others: Scopes)

  /** A step's own code, written for one item: it may fail. */
  type Code = (string, seq<Artifact>) -> Option<Artifact>

  // ----- per item --------------------------------------------------------------------------------

  /** What the composed steps make of one item. */
  function Result(code: Code, items: map<Key, Artifact>, scope: Scope, k: Key): Option<Artifact> {
    match scope
    case Split => if k in items then Some(items[k]) else None
    case Lift(step, inputs) =>
      match Results(code, items, inputs, k)
      case None => None
      case Some(args) => code(step, args)
  }

  function Results(code: Code, items: map<Key, Artifact>, scopes: Scopes, k: Key): Option<seq<Artifact>> {
    match scopes
    case One(only) =>
      (match Result(code, items, only, k)
       case None => None
       case Some(a) => Some([a]))
    case Both(first, others) =>
      (match (Result(code, items, first, k), Results(code, items, others, k))
       case (Some(a), Some(more)) => Some([a] + more)
       case _ => None)
  }

  // ----- collections -----------------------------------------------------------------------------

  /** The artifacts of one item in every input collection; a missing folder raises. */
  function Inputs(collections: seq<Collection>, k: Key): Option<seq<Artifact>> {
    if collections == [] then Some([])
    else if k !in collections[0].folders then None
    else
      match Inputs(collections[1..], k)
      case None => None
      case Some(more) => Some([collections[0].folders[k]] + more)
  }

  function RunOn(code: Code, step: string, collections: seq<Collection>, k: Key): Option<Artifact> {
    match Inputs(collections, k)
    case None => None
    case Some(args) => code(step, args)
  }

  /** The keys every input has, in the order of the first input. */
  function CommonKeys(collections: seq<Collection>): seq<Key> {
    if collections == [] then []
    else Among(ItemKeys(collections[0].index), collections[1..])
  }

  function Among(keys: seq<Key>, collections: seq<Collection>): seq<Key>
    decreases |collections|
  {
    if collections == [] then keys
    else Among(Keep(keys, k => k in ItemKeys(collections[0].index)), collections[1..])
  }

  /** The runner's loop over its inputs. */
  method SharedKeys(collections: seq<Collection>) returns (keys: seq<Key>)
    ensures keys == CommonKeys(collections)
  {
    if collections == [] {
      return [];
    }
    keys := ItemKeys(collections[0].index);
    for n := 1 to |collections|
      invariant Among(keys, collections[n..]) == CommonKeys(collections)
    {
      var available := ItemKeys(collections[n].index);
      assert collections[n..][0] == collections[n] && collections[n..][1..] == collections[n + 1..];
      KeepSame(keys, k => k in available, k => k in ItemKeys(collections[n..][0].index));
      keys := Keep(keys, k => k in available);
    }
    assert collections[|collections|..] == [];
  }

  /** A lifted step under `continue`: the runner's statuses become the index, the successful results
      the folders.  A run that exits non-zero publishes nothing. */
  ghost function RunLifted(code: Code, step: string, collections: seq<Collection>): Option<Collection> {
    var keys := CommonKeys(collections);
    var work := (k: Key) => if RunOn(code, step, collections, k).Some? then Success else Failure("");
    var statuses := Final(keys, work, |keys|);
    FinalKeys(keys, work);
    if !ExitsWithZero(statuses, Continue) then None
    else
      Some(Collection(IndexOf(FirstOccurrences(keys), statuses),
                      map k | k in keys && RunOn(code, step, collections, k).Some? :: RunOn(code, step, collections, k).value))
  }

  lemma {:induction false} FinalKeys(keys: seq<Key>, work: Key -> Outcome)
    ensures forall k :: k in FirstOccurrences(keys) ==> k in Final(keys, work, |keys|)
  {
    ContinueIsSequential(keys, work);
    OccurrencesAreDistinct(keys);
  }

  function IndexOf(keys: seq<Key>, statuses: map<Key, ItemState>): seq<IndexEntry>
    requires forall k :: k in keys ==> k in statuses
  {
    seq(|keys|, i requires 0 <= i < |keys| => IndexEntry(keys[i], statuses[keys[i]]))
  }

  /** Running the scope's graph; None as soon as one step's run exits non-zero. */
  ghost function RunScope(code: Code, items: Collection, scope: Scope): Option<Collection> {
    match scope
    case Split => Some(items)
    case Lift(step, inputs) =>
      match RunScopes(code, items, inputs)
      case None => None
      case Some(collections) => RunLifted(code, step, collections)
  }

  ghost function RunScopes(code: Code, items: Collection, scopes: Scopes): Option<seq<Collection>> {
    match scopes
    case One(only) =>
      (match RunScope(code, items, only)
       case None => None
       case Some(c) => Some([c]))
    case Both(first, others) =>
      (match (RunScope(code, items, first), RunScopes(code, items, others))
       case (Some(c), Some(more)) => Some([c] + more)
       case _ => None)
  }

  /** Collect: copy every succeeded item's artifact, in index order. */
  function Gathered(c: Collection): seq<(Key, Artifact)>
    requires forall k :: k in ItemKeys(c.index) ==> k in c.folders
  {
    var keys := ItemKeys(c.index);
    seq(|keys|, i requires 0 <= i < |keys| => (keys[i], c.folders[keys[i]]))
  }

  // ----- the scope means: map over the items -----------------------------------------------------

  /** What split publishes: distinct keys, each succeeded and with its artifact. */
  ghost predicate Published(items: Collection) {
    && Distinct(ItemKeys(items.index))
    && forall k :: k in ItemKeys(items.index) ==> k in items.folders
  }

  /** The items a step's result is defined on. */
  function Survives(code: Code, items: map<Key, Artifact>, scope: Scope): Key -> bool {
    k => Result(code, items, scope, k).Some?
  }

  function AllSurvive(code: Code, items: map<Key, Artifact>, scopes: Scopes): Key -> bool {
    k => Results(code, items, scopes, k).Some?
  }

  /** The collection holds, in split order, exactly the items the composed steps are defined on, each
      with its composed result. */
  ghost predicate Holds(c: Collection, keys: seq<Key>, code: Code, items: map<Key, Artifact>, scope: Scope) {
    && ItemKeys(c.index) == Keep(keys, Survives(code, items, scope))
    && forall k :: k in ItemKeys(c.index) ==> k in c.folders && Some(c.folders[k]) == Result(code, items, scope, k)
  }

  ghost predicate AllHold(cs: seq<Collection>, keys: seq<Key>, code: Code, items: map<Key, Artifact>, scopes: Scopes)
    decreases scopes
  {
    match scopes
    case One(only) => |cs| == 1 && Holds(cs[0], keys, code, items, only)
    case Both(first, others) => |cs| >= 1 && Holds(cs[0], keys, code, items, first) && AllHold(cs[1..], keys, code, items, others)
  }

  lemma {:induction false} KeepAll(keys: seq<Key>, wanted: Key -> bool)
    requires forall k :: k in keys ==> wanted(k)
    ensures Keep(keys, wanted) == keys
  {
    if keys != [] {
      var front := keys[..|keys| - 1];
      KeepAll(front, wanted);
      assert keys == front + [keys[|keys| - 1]];
    }
  }

  lemma {:induction false} IndexKeys(keys: seq<Key>, statuses: map<Key, ItemState>, wanted: Key -> bool)
    requires forall k :: k in keys ==> k in statuses && (wanted(k) <==> statuses[k].status == Succeeded)
    ensures ItemKeys(IndexOf(keys, statuses)) == Keep(keys, wanted)
    decreases |keys|
  {
    if keys != [] {
      var front := keys[..|keys| - 1];
      IndexKeys(front, statuses, wanted);
      assert IndexOf(keys, statuses)[..|keys| - 1] == IndexOf(front, statuses);
    }
  }

  /** The further inputs of a join leave the items all of them have. */
  lemma {:induction false} AmongHolds(cs: seq<Collection>, keys: seq<Key>, code: Code, items: map<Key, Artifact>, scopes: Scopes,
                                      base: Key -> bool, both: Key -> bool)
    requires AllHold(cs, keys, code, items, scopes)
    requires forall k :: both(k) <==> base(k) && AllSurvive(code, items, scopes)(k)
    ensures Among(Keep(keys, base), cs) == Keep(keys, both)
    decreases scopes
  {
    var first := if scopes.One? then scopes.only else scopes.first;
    var c, wanted := cs[0], Survives(code, items, first);
    var here := (k: Key) => k in ItemKeys(c.index);
    var next := (k: Key) => base(k) && wanted(k);
    KeepFacts(keys, wanted);
    KeepTwice(keys, base, here, next);
    assert Keep(Keep(keys, base), k => k in ItemKeys(c.index)) == Keep(keys, next) by {
      KeepSame(Keep(keys, base), here, k => k in ItemKeys(c.index));
    }
    if scopes.One? {
      assert cs[1..] == [];
      KeepSame(keys, next, both);
    } else {
      AmongHolds(cs[1..], keys, code, items, scopes.others, next, both);
    }
  }

  lemma {:induction false} CommonHolds(cs: seq<Collection>, keys: seq<Key>, code: Code, items: map<Key, Artifact>, scopes: Scopes)
    requires AllHold(cs, keys, code, items, scopes)
    ensures CommonKeys(cs) == Keep(keys, AllSurvive(code, items, scopes))
  {
    var first := if scopes.One? then scopes.only else scopes.first;
    if scopes.One? {
      assert cs[1..] == [];
      KeepSame(keys, Survives(code, items, first), AllSurvive(code, items, scopes));
    } else {
      AmongHolds(cs[1..], keys, code, items, scopes.others, Survives(code, items, first), AllSurvive(code, items, scopes));
    }
  }

  /** The runner hands an item exactly the results of the steps before. */
  lemma {:induction false} InputsAreResults(cs: seq<Collection>, keys: seq<Key>, code: Code, items: map<Key, Artifact>, scopes: Scopes, k: Key)
    requires AllHold(cs, keys, code, items, scopes) && k in keys && Results(code, items, scopes, k).Some?
    ensures Inputs(cs, k) == Results(code, items, scopes, k)
    decreases scopes
  {
    var first := if scopes.One? then scopes.only else scopes.first;
    KeepFacts(keys, Survives(code, items, first));
    assert k in ItemKeys(cs[0].index);
    if scopes.One? {
      assert cs[1..] == [] && Inputs(cs[1..], k) == Some([]);
      assert [cs[0].folders[k]] + [] == [cs[0].folders[k]];
    } else {
      InputsAreResults(cs[1..], keys, code, items, scopes.others, k);
    }
  }

  lemma {:induction false} RunOnIsResult(cs: seq<Collection>, keys: seq<Key>, code: Code, step: string, items: map<Key, Artifact>, inputs: Scopes, k: Key)
    requires AllHold(cs, keys, code, items, inputs) && k in keys && Results(code, items, inputs, k).Some?
    ensures RunOn(code, step, cs, k) == Result(code, items, Lift(step, inputs), k)
  {
    hide AllHold;
    InputsAreResults(cs, keys, code, items, inputs, k);
  }

  /** What a lifted step that exited 0 publishes: the keys it has a result for, in order, with the results. */
  lemma {:induction false} LiftedItems(code: Code, step: string, cs: seq<Collection>, common: seq<Key>, wanted: Key -> bool)
    requires common == CommonKeys(cs) && Distinct(common) && RunLifted(code, step, cs).Some?
    requires forall k :: k in common ==> (wanted(k) <==> RunOn(code, step, cs, k).Some?)
    ensures var c := RunLifted(code, step, cs).value;
      && ItemKeys(c.index) == Keep(common, wanted)
      && forall k :: k in ItemKeys(c.index) ==> k in c.folders && Some(c.folders[k]) == RunOn(code, step, cs, k)
  {
    hide CommonKeys, RunOn, ExitsWithZero, Final;
    var work := (k: Key) => if RunOn(code, step, cs, k).Some? then Success else Failure("");
    var statuses := Final(common, work, |common|);
    ContinueIsSequential(common, work);
    OccurrencesAreDistinct(common);
    IndexKeys(common, statuses, wanted);
    KeepFacts(common, wanted);
    hide IndexOf, ItemKeys, Keep;
  }

  lemma {:induction false} LiftedKeys(code: Code, step: string, cs: seq<Collection>, keys: seq<Key>, items: map<Key, Artifact>, inputs: Scopes)
    requires Distinct(keys) && AllHold(cs, keys, code, items, inputs)
    ensures var common, scope := CommonKeys(cs), Lift(step, inputs);
      && Distinct(common) && Keep(common, Survives(code, items, scope)) == Keep(keys, Survives(code, items, scope))
      && forall k :: k in common ==> RunOn(code, step, cs, k) == Result(code, items, scope, k)
  {
    hide AllHold, Inputs, RunOn, CommonKeys;
    var common, scope := CommonKeys(cs), Lift(step, inputs);
    CommonHolds(cs, keys, code, items, inputs);
    KeepFacts(keys, AllSurvive(code, items, inputs));
    forall k | k in common
      ensures RunOn(code, step, cs, k) == Result(code, items, scope, k)
    {
      RunOnIsResult(cs, keys, code, step, items, inputs, k);
    }
    KeepTwice(keys, AllSurvive(code, items, inputs), Survives(code, items, scope), Survives(code, items, scope));
  }

  /** One lifted step over inputs that hold what they should holds what it should. */
  lemma {:induction false} LiftHolds(code: Code, step: string, cs: seq<Collection>, keys: seq<Key>, items: map<Key, Artifact>, inputs: Scopes)
    requires Distinct(keys) && AllHold(cs, keys, code, items, inputs) && RunLifted(code, step, cs).Some?
    ensures Holds(RunLifted(code, step, cs).value, keys, code, items, Lift(step, inputs))
  {
    hide AllHold, RunLifted, RunOn, CommonKeys, Keep, Result;
    var common, scope := CommonKeys(cs), Lift(step, inputs);
    LiftedKeys(code, step, cs, keys, items, inputs);
    LiftedItems(code, step, cs, common, Survives(code, items, scope));
    KeepFacts(common, Survives(code, items, scope));
  }

  lemma {:induction false} ScopeHolds(code: Code, items: Collection, scope: Scope)
    requires Published(items) && RunScope(code, items, scope).Some?
    ensures Holds(RunScope(code, items, scope).value, ItemKeys(items.index), code, items.folders, scope)
    decreases scope
  {
    match scope
    case Split => KeepAll(ItemKeys(items.index), Survives(code, items.folders, Split));
    case Lift(step, inputs) =>
      ScopesHold(code, items, inputs);
      LiftHolds(code, step, RunScopes(code, items, inputs).value, ItemKeys(items.index), items.folders, inputs);
  }

  lemma {:induction false} ScopesHold(code: Code, items: Collection, scopes: Scopes)
    requires Published(items) && RunScopes(code, items, scopes).Some?
    ensures AllHold(RunScopes(code, items, scopes).value, ItemKeys(items.index), code, items.folders, scopes)
    decreases scopes
  {
    match scopes
    case One(only) => ScopeHolds(code, items, only);
    case Both(first, others) =>
      ScopeHolds(code, items, first);
      ScopesHold(code, items, others);
      var c, more := RunScope(code, items, first).value, RunScopes(code, items, others).value;
      assert ([c] + more)[1..] == more;
  }

  /** Split, any chain or join of lifted steps, Collect: the gathered items are exactly those every
      step succeeded on, in split order, under distinct keys, each with the composed per-item result. */
  lemma {:induction false} CollectGathersTheMap(code: Code, items: Collection, scope: Scope)
    requires Published(items) && RunScope(code, items, scope).Some?
    ensures var c, keys := RunScope(code, items, scope).value, Keep(ItemKeys(items.index), Survives(code, items.folders, scope));
            && (forall k :: k in ItemKeys(c.index) ==> k in c.folders)
            && Distinct(keys) && |Gathered(c)| == |keys|
            && forall n :: 0 <= n < |keys| ==> Gathered(c)[n].0 == keys[n] && Some(Gathered(c)[n].1) == Result(code, items.folders, scope, keys[n])
  {
    ScopeHolds(code, items, scope);
    KeepFacts(ItemKeys(items.index), Survives(code, items.folders, scope));
    var c := RunScope(code, items, scope).value;
    assert forall n :: 0 <= n < |ItemKeys(c.index)| ==> ItemKeys(c.index)[n] in ItemKeys(c.index);
  }

  /** What a scope leaves is published in turn, so that its collected items can be split again. */
  lemma {:induction false} ScopeOutputIsPublished(code: Code, items: Collection, scope: Scope)
    requires Published(items) && RunScope(code, items, scope).Some?
    ensures Published(RunScope(code, items, scope).value)
  {
    ScopeHolds(code, items, scope);
    KeepFacts(ItemKeys(items.index), Survives(code, items.folders, scope));
  }

  /** A lifted step's run fails only when it had items and lost them all. */
  lemma {:induction false} RunFailsOnlyWhenAllFail(code: Code, step: string, cs: seq<Collection>)
    ensures RunLifted(code, step, cs).None? <==>
      CommonKeys(cs) != [] && forall k :: k in CommonKeys(cs) ==> RunOn(code, step, cs, k).None?
  {
    var work := (k: Key) => if RunOn(code, step, cs, k).Some? then Success else Failure("");
    ContinueIsSequential(CommonKeys(cs), work);
  }

  // ----- split -----------------------------------------------------------------------------------

  /** Decimal text of a number. */
  function Decimal(n: nat): string {
    var digit := ('0' as int + n % 10) as char;
    if n < 10 then [digit] else Decimal(n / 10) + [digit]
  }

  lemma {:induction false} DecimalIsInjective(m: nat, n: nat)
    requires Decimal(m) == Decimal(n)
    ensures m == n
    decreases m
  {
    var a, b := Decimal(m), Decimal(n);
    assert a[|a| - 1] == ('0' as int + m % 10) as char && b[|b| - 1] == ('0' as int + n % 10) as char;
    assert m % 10 == n % 10;
    if m >= 10 && n >= 10 {
      assert a[..|a| - 1] == Decimal(m / 10) && b[..|b| - 1] == Decimal(n / 10);
      DecimalIsInjective(m / 10, n / 10);
    } else {
      OneDigit(m);
      OneDigit(n);
    }
  }

  lemma OneDigit(n: nat)
    ensures |Decimal(n)| == 1 <==> n < 10
  {
    if n >= 10 { assert |Decimal(n / 10)| >= 1; }
  }

  /** The candidates `_key` tries: the base itself, then base-2, base-3, ... */
  function Candidate(base: string, n: nat): Key {
    if n < 2 then base else base + "-" + Decimal(n)
  }

  lemma {:induction false} CandidatesDiffer(base: string, m: nat, n: nat)
    requires 1 <= m < n
    ensures Candidate(base, m) != Candidate(base, n)
  {
    var a, b := Candidate(base, m), Candidate(base, n);
    if a == b {
      assert b[..|base|] == base && b[|base| + 1..] == Decimal(n);
      if m >= 2 {
        assert a[|base| + 1..] == Decimal(m);
        DecimalIsInjective(m, n);
      }
    }
  }

  /** So many different candidates are taken that all of them are counted among the used keys. */
  lemma {:induction false} TakenAreCounted(base: string, used: set<Key>, n: nat)
    requires forall m :: 1 <= m < n ==> Candidate(base, m) in used
    ensures n >= 1 ==> n - 1 <= |used|
    decreases n
  {
    if n >= 2 {
      var last := Candidate(base, n - 1);
      forall m | 1 <= m < n - 1
        ensures Candidate(base, m) in used - {last}
      {
        CandidatesDiffer(base, m, n - 1);
      }
      TakenAreCounted(base, used - {last}, n - 1);
    }
  }

  /** `_key` after cleaning the name: the first candidate that is free. */
  method UniqueKey(base: string, used: set<Key>) returns (key: Key, ghost n: nat)
    ensures n >= 1 && key == Candidate(base, n) && key !in used
    ensures forall m :: 1 <= m < n ==> Candidate(base, m) in used
  {
    var suffix := 2;
    key, n := base, 1;
    while key in used
      invariant suffix == n + 1 && n >= 1 && key == Candidate(base, n)
      invariant forall m :: 1 <= m < n ==> Candidate(base, m) in used
      decreases |used| + 1 - n
    {
      TakenAreCounted(base, used, n + 1);
      key, suffix, n := base + "-" + Decimal(suffix), suffix + 1, n + 1;
    }
  }

  /** The entries so far: one for each member, all succeeded, under distinct keys. */
  ghost predicate Listed(statuses: seq<IndexEntry>, folders: map<Key, Artifact>, members: seq<Artifact>) {
    && |statuses| == |members| && folders.Keys == (set k | k in Keys(statuses))
    && ItemKeys(statuses) == Keys(statuses) && Distinct(Keys(statuses))
    && forall m :: 0 <= m < |members| ==> statuses[m].key in folders && folders[statuses[m].key] == members[m]
  }

  lemma {:induction false} ListOneMore(statuses: seq<IndexEntry>, folders: map<Key, Artifact>, members: seq<Artifact>, key: Key, member: Artifact)
    requires Listed(statuses, folders, members) && key !in folders
    ensures Listed(statuses + [IndexEntry(key, ItemState(Succeeded, None))], folders[key := member], members + [member])
  {
    var entry := IndexEntry(key, ItemState(Succeeded, None));
    var longer := statuses + [entry];
    assert longer[..|statuses|] == statuses && longer[|statuses|] == entry;
    assert ItemKeys(longer) == ItemKeys(statuses) + [key];
    assert Keys(longer) == Keys(statuses) + [key];
    hide ItemKeys;
    NewKeyIsDistinct(Keys(statuses), key);
  }

  lemma {:induction false} NewKeyIsDistinct(keys: seq<Key>, key: Key)
    requires Distinct(keys) && key !in keys
    ensures Distinct(keys + [key]) && forall k :: k in keys + [key] <==> k in keys || k == key
  {
  }

  /** Publish the members of a folder, or the one file, as items under fresh keys. */
  method SplitMembers(members: seq<Artifact>, base: string -> string) returns (items: Collection)
    ensures Published(items) && |items.index| == |members| && items.folders.Keys == (set k | k in ItemKeys(items.index))
    ensures ItemKeys(items.index) == Keys(items.index)
    ensures forall n :: 0 <= n < |members| ==> items.index[n].key in items.folders && items.folders[items.index[n].key] == members[n]
  {
    var statuses, used, folders: map<Key, Artifact> := [], {}, map[];
    assert Listed([], map[], []);
    for n := 0 to |members|
      invariant used == folders.Keys && Listed(statuses, folders, members[..n])
    {
      hide Listed;
      var key, _ := UniqueKey(base(members[n].name), used);
      ListOneMore(statuses, folders, members[..n], key, members[n]);
      assert members[..n + 1] == members[..n] + [members[n]];
      used, folders := used + {key}, folders[key := members[n]];
      statuses := statuses + [IndexEntry(key, ItemState(Succeeded, None))];
    }
    assert members[..|members|] == members;
    items := Collection(statuses, folders);
  }

  function Keys(index: seq<IndexEntry>): seq<Key> {
    seq(|index|, i requires 0 <= i < |index| => index[i].key)
  }

  // ----- collections on disk ---------------------------------------------------------------------

  /** A collection folder: its index file, if there is one, and its item folders. */
  datatype Stored = Stored(index: Option<seq<IndexEntry>>, folders: map<Key, Artifact>)

  /** What a collection folder lists: its index, or else every item folder, by name, as succeeded. */
  ghost predicate Lists(stored: Stored, c: Collection) {
    && c.folders == stored.folders
    && if stored.index.Some? then c.index == stored.index.value
       else
         && ItemKeys(c.index) == Keys(c.index) && Distinct(Keys(c.index))
         && (forall k :: k in Keys(c.index) <==> k in stored.folders)
         && StepOrder.SortedBy(Keys(c.index), ByName)
  }

  function ByName(k: Key): StepOrder.SortKey {
    StepOrder.Text(k)
  }

  method ReadIndex(stored: Stored) returns (c: Collection)
    ensures Lists(stored, c)
  {
    if stored.index.Some? {
      return Collection(stored.index.value, stored.folders);
    }
    var names := StepOrder.Listing(stored.folders.Keys);
    var keys := StepOrder.Sorted(names, ByName);
    StepOrder.SameElements(keys, names);
    var statuses: seq<IndexEntry> := [];
    for n := 0 to |keys|
      invariant Keys(statuses) == keys[..n] && ItemKeys(statuses) == keys[..n]
    {
      var entry := IndexEntry(keys[n], ItemState(Succeeded, None));
      assert (statuses + [entry])[..|statuses|] == statuses;
      assert Keys(statuses + [entry]) == Keys(statuses) + [keys[n]];
      assert keys[..n + 1] == keys[..n] + [keys[n]];
      statuses := statuses + [entry];
    }
    assert keys[..|keys|] == keys;
    c := Collection(statuses, stored.folders);
  }

  // ----- copying item by item --------------------------------------------------------------------

  /** Every item's folder is there, and no folder is copied to where one has been copied: a file would
      be written over, a folder is not. */
  ghost predicate Copyable(keys: seq<Key>, folders: map<Key, Artifact>) {
    && (forall n :: 0 <= n < |keys| ==> keys[n] in folders)
    && (forall m, n :: 0 <= m < n < |keys| && keys[m] == keys[n] ==> !folders[keys[n]].folder)
  }

  lemma {:induction false} OneMoreCopyable(keys: seq<Key>, key: Key, folders: map<Key, Artifact>)
    ensures Copyable(keys + [key], folders) <==>
      Copyable(keys, folders) && key in folders && (key in keys ==> !folders[key].folder)
  {
    var more := keys + [key];
    assert more[|keys|] == key && forall n :: 0 <= n < |keys| ==> more[n] == keys[n];
    if key in keys {
      var m :| 0 <= m < |keys| && keys[m] == key;
      assert more[m] == more[|keys|];
    }
  }

  lemma {:induction false} CopyableFront(keys: seq<Key>, folders: map<Key, Artifact>, n: nat)
    requires n <= |keys|
    ensures Copyable(keys, folders) ==> Copyable(keys[..n], folders)
  {
  }

  lemma {:induction false} ItemKeysFront(index: seq<IndexEntry>, n: nat)
    requires n <= |index|
    ensures ItemKeys(index[..n]) <= ItemKeys(index)
    decreases |index|
  {
    if n == |index| {
      assert index[..n] == index;
    } else {
      assert index[..|index| - 1][..n] == index[..n];
      ItemKeysFront(index[..|index| - 1], n);
    }
  }

  /** Publish a collection that already has items: the succeeded ones keep their keys, so that what is
      published has distinct keys exactly when the collection's listing does. */
  method SplitCollection(source: Stored) returns (items: Option<Collection>, listed: Collection)
    ensures Lists(source, listed)
    ensures items.None? <==> !Copyable(ItemKeys(listed.index), source.folders)
    ensures items.Some? ==>
      && ItemKeys(items.value.index) == ItemKeys(listed.index)
      && items.value.folders.Keys == (set k | k in ItemKeys(listed.index))
      && (forall k :: k in ItemKeys(listed.index) ==> k in items.value.folders && k in source.folders && items.value.folders[k] == source.folders[k])
      && (Published(items.value) <==> Distinct(ItemKeys(listed.index)))
    ensures source.index.None? ==> items.Some? && Published(items.value)
  {
    listed := ReadIndex(source);
    var keys := ItemKeys(listed.index);
    var statuses, folders: map<Key, Artifact> := [], map[];
    for n := 0 to |keys|
      invariant ItemKeys(statuses) == keys[..n] && Copyable(keys[..n], source.folders)
      invariant forall k :: k in folders <==> k in keys[..n]
      invariant forall k :: k in folders ==> k in source.folders && folders[k] == source.folders[k]
    {
      assert keys[..n + 1] == keys[..n] + [keys[n]];
      OneMoreCopyable(keys[..n], keys[n], source.folders);
      if keys[n] !in source.folders || (keys[n] in folders && source.folders[keys[n]].folder) {
        CopyableFront(keys, source.folders, n + 1);
        return None, listed;
      }
      folders := folders[keys[n] := source.folders[keys[n]]];
      var entry := IndexEntry(keys[n], ItemState(Succeeded, None));
      assert (statuses + [entry])[..|statuses|] == statuses;
      statuses := statuses + [entry];
    }
    assert keys[..|keys|] == keys;
    items := Some(Collection(statuses, folders));
  }

  // ----- collect ---------------------------------------------------------------------------------

  /** Collect's program: the index is kept as it is, failures included; successful artifacts are copied. */
  method Collect(source: Stored) returns (target: Option<Collection>, listed: Collection)
    ensures Lists(source, listed)
    ensures target.None? <==> !Copyable(ItemKeys(listed.index), source.folders)
    ensures target.Some? ==>
      && target.value.index == listed.index
      && target.value.folders.Keys == (set k | k in ItemKeys(listed.index))
      && (forall k :: k in ItemKeys(listed.index) ==> k in target.value.folders && k in source.folders)
      && Gathered(target.value) == Gathered(listed)
      && (Published(target.value) <==> Distinct(ItemKeys(listed.index)))
  {
    listed := ReadIndex(source);
    var folders := CopySucceeded(listed);
    if folders.None? {
      return None, listed;
    }
    var result := Collection(listed.index, folders.value);
    assert Gathered(result) == Gathered(listed);
    target := Some(result);
  }

  /** The copying loop. */
  method CopySucceeded(c: Collection) returns (folders: Option<map<Key, Artifact>>)
    ensures folders.None? <==> !Copyable(ItemKeys(c.index), c.folders)
    ensures folders.Some? ==>
      && folders.value.Keys == (set k | k in ItemKeys(c.index))
      && (forall k :: k in ItemKeys(c.index) ==> k in c.folders && k in folders.value && folders.value[k] == c.folders[k])
  {
    var copied: map<Key, Artifact> := map[];
    for n := 0 to |c.index|
      invariant copied.Keys == (set k | k in ItemKeys(c.index[..n])) && Copyable(ItemKeys(c.index[..n]), c.folders)
      invariant forall k :: k in copied ==> k in c.folders && copied[k] == c.folders[k]
    {
      var status := c.index[n];
      ghost var keys := ItemKeys(c.index[..n]);
      assert c.index[..n + 1][..n] == c.index[..n];
      if status.state.status == Succeeded {
        assert ItemKeys(c.index[..n + 1]) == keys + [status.key];
        OneMoreCopyable(keys, status.key, c.folders);
        if status.key !in c.folders || (status.key in copied && c.folders[status.key].folder) {
          NeverCopyable(c.index, n + 1, c.folders);
          return None;
        }
        copied := copied[status.key := c.folders[status.key]];
      }
    }
    assert c.index[..|c.index|] == c.index;
    assert forall k :: k in ItemKeys(c.index) ==> k in copied;
    return Some(copied);
  }

  lemma {:induction false} NeverCopyable(index: seq<IndexEntry>, n: nat, folders: map<Key, Artifact>)
    requires n <= |index| && !Copyable(ItemKeys(index[..n]), folders)
    ensures !Copyable(ItemKeys(index), folders)
  {
    ItemKeysFront(index, n);
    CopyableFront(ItemKeys(index), folders, |ItemKeys(index[..n])|);
  }
}
