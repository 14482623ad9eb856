/** The generated item runner: a pool of at most `limit` items at a time, in key order, under a
    failure policy.  Completion order is arbitrary: every wait returns some of the running items. */
module ItemRunner {
  import opened Wrappers

  type Key = string

  datatype Status = Pending | Succeeded | Failed | Skipped

  datatype ItemState = ItemState(status: Status, error: Option<string>)

  /** How running one item ends: normally, or with an exception. */
  datatype Outcome = Success | Failure(error: string)

  datatype Policy = Continue | Stop

  /** The n-th start and its end, and the moments at which the runner begins to wait. */
  datatype Event = Started(n: nat) | Waited | Finished(n: nat)

  const WAITING := ItemState(Pending, None)

  function StateOf(o: Outcome): ItemState {
    match o
    case Success => ItemState(Succeeded, None)
    case Failure(error) => ItemState(Failed, Some(error))
  }

  // ----- traces ----------------------------------------------------------------------------------

  ghost function Active(trace: seq<Event>): set<nat> {
    if trace == [] then {}
    else
      var before := Active(trace[..|trace| - 1]);
      match trace[|trace| - 1]
      case Started(n) => before + {n}
      case Waited => before
      case Finished(n) => before - {n}
  }

  ghost function Starts(trace: seq<Event>): nat {
    if trace == [] then 0
    else Starts(trace[..|trace| - 1]) + if trace[|trace| - 1].Started? then 1 else 0
  }

  /** Starts happen in key order, each once; only what runs can finish; never more than `limit` run. */
  ghost predicate Legal(trace: seq<Event>, limit: nat) {
    trace == [] ||
    var front := trace[..|trace| - 1];
    && Legal(front, limit)
    && |Active(trace)| <= limit
    && match trace[|trace| - 1]
       case Started(n) => n == Starts(front)
       case Waited => true
       case Finished(n) => n in Active(front)
  }

  /** Some item that has ended failed. */
  ghost predicate SomeFailed(trace: seq<Event>, keys: seq<Key>, work: Key -> Outcome) {
    exists i :: 0 <= i < Starts(trace) && i < |keys| && i !in Active(trace) && work(keys[i]).Failure?
  }

  /** Under `stop` nothing is started once a failure is known; and the runner only waits when `limit`
      items run, or everything was started, or it has stopped. */
  ghost predicate Diligent(trace: seq<Event>, keys: seq<Key>, work: Key -> Outcome, limit: nat, policy: Policy) {
    trace == [] ||
    var front := trace[..|trace| - 1];
    && Diligent(front, keys, work, limit, policy)
    && match trace[|trace| - 1]
       case Started(_) => !(policy == Stop && SomeFailed(front, keys, work))
       case Waited => |Active(front)| == limit || Starts(front) == |keys| || (policy == Stop && SomeFailed(front, keys, work))
       case Finished(_) => true
  }

  /** Diligence at any moment of a run. */
  lemma {:induction false} DiligentAtAnyMoment(trace: seq<Event>, keys: seq<Key>, work: Key -> Outcome, limit: nat, policy: Policy, moment: nat)
    requires Diligent(trace, keys, work, limit, policy) && moment < |trace|
    ensures var before := trace[..moment];
      && (trace[moment].Started? && policy == Stop ==> !SomeFailed(before, keys, work))
      && (trace[moment].Waited? ==> |Active(before)| == limit || Starts(before) == |keys| || (policy == Stop && SomeFailed(before, keys, work)))
    decreases |trace|
  {
    hide SomeFailed;
    var front := trace[..|trace| - 1];
    if moment < |front| {
      DiligentAtAnyMoment(front, keys, work, limit, policy, moment);
      assert front[..moment] == trace[..moment] && front[moment] == trace[moment];
    }
  }

  lemma {:induction false} LegalAtAnyMoment(trace: seq<Event>, limit: nat, moment: nat)
    requires Legal(trace, limit) && moment <= |trace|
    ensures Legal(trace[..moment], limit) && |Active(trace[..moment])| <= limit
    decreases |trace|
  {
    if moment < |trace| {
      LegalAtAnyMoment(trace[..|trace| - 1], limit, moment);
      assert trace[..|trace| - 1][..moment] == trace[..moment];
    } else {
      assert trace[..moment] == trace;
    }
  }

  /** Each start number occurs once in a legal trace. */
  lemma {:induction false} StartedOnce(trace: seq<Event>, limit: nat, i: nat, j: nat)
    requires Legal(trace, limit) && i < j < |trace| && trace[i].Started? && trace[j].Started?
    ensures trace[i].n < trace[j].n < Starts(trace)
    decreases |trace|
  {
    var front := trace[..|trace| - 1];
    if j < |front| {
      assert front[i] == trace[i] && front[j] == trace[j];
      StartedOnce(front, limit, i, j);
    } else {
      assert front[i] == trace[i];
      StartBelow(front, limit, i);
    }
  }

  lemma {:induction false} StartBelow(trace: seq<Event>, limit: nat, i: nat)
    requires Legal(trace, limit) && i < |trace| && trace[i].Started?
    ensures trace[i].n < Starts(trace)
    decreases |trace|
  {
    var front := trace[..|trace| - 1];
    if i < |front| {
      assert front[i] == trace[i];
      StartBelow(front, limit, i);
    }
  }

  // ----- the sequential meaning ------------------------------------------------------------------

  /** Running the first `n` keys one by one, each writing its status. */
  function OneByOne(keys: seq<Key>, work: Key -> Outcome, n: nat): map<Key, ItemState>
    requires n <= |keys|
  {
    if n == 0 then map k | k in keys :: WAITING
    else OneByOne(keys, work, n - 1)[keys[n - 1] := StateOf(work(keys[n - 1]))]
  }

  /** Marking the keys that were never started. */
  function SkipRest(statuses: map<Key, ItemState>, rest: seq<Key>): map<Key, ItemState>
    requires forall k :: k in rest ==> k in statuses
  {
    if rest == [] then statuses else SkipRest(statuses[rest[0] := statuses[rest[0]].(status := Skipped)], rest[1..])
  }

  lemma {:induction false} OneByOneAt(keys: seq<Key>, work: Key -> Outcome, n: nat)
    requires n <= |keys|
    ensures OneByOne(keys, work, n).Keys == (set k | k in keys)
    ensures forall k :: k in keys ==> OneByOne(keys, work, n)[k] == if k in keys[..n] then StateOf(work(k)) else WAITING
  {
    if n > 0 {
      OneByOneAt(keys, work, n - 1);
      assert keys[..n] == keys[..n - 1] + [keys[n - 1]];
    }
  }

  lemma {:induction false} SkipRestAt(statuses: map<Key, ItemState>, rest: seq<Key>)
    requires forall k :: k in rest ==> k in statuses
    ensures SkipRest(statuses, rest).Keys == statuses.Keys
    ensures forall k :: k in statuses ==> SkipRest(statuses, rest)[k] == if k in rest then statuses[k].(status := Skipped) else statuses[k]
    decreases |rest|
  {
    if rest != [] {
      SkipRestAt(statuses[rest[0] := statuses[rest[0]].(status := Skipped)], rest[1..]);
      assert forall k :: k in rest <==> k == rest[0] || k in rest[1..];
    }
  }

  /** The exit status: a failure is fatal under `stop`, or when nothing succeeded. */
  ghost predicate ExitsWithZero(statuses: map<Key, ItemState>, policy: Policy) {
    (forall k :: k in statuses ==> statuses[k].status != Failed)
    || (policy == Continue && exists k :: k in statuses && statuses[k].status == Succeeded)
  }

  /** How many items a run one at a time starts under `stop`: up to and including the first failure. */
  function FirstStop(keys: seq<Key>, work: Key -> Outcome): (n: nat)
    ensures n <= |keys|
    ensures forall i :: 0 <= i < n - 1 ==> work(keys[i]).Success?
    ensures n < |keys| ==> n > 0 && work(keys[n - 1]).Failure?
  {
    if keys == [] then 0
    else if work(keys[0]).Failure? then 1
    else 1 + FirstStop(keys[1..], work)
  }

  /** Nothing before the last start failed. */
  ghost predicate Careful(keys: seq<Key>, work: Key -> Outcome, started: nat) {
    started <= |keys| && forall i :: 0 <= i < started - 1 ==> work(keys[i]).Success?
  }

  lemma {:induction false} CarefulIsFirstStop(keys: seq<Key>, work: Key -> Outcome, n: nat)
    requires Careful(keys, work, n) && (n < |keys| ==> exists i :: 0 <= i < n && work(keys[i]).Failure?)
    ensures n == FirstStop(keys, work)
  {
  }

  // ----- the runner ------------------------------------------------------------------------------

  /** The runner's variables. A future is numbered by its start; `running` maps it to its key. */
  datatype Pool = Pool(pending: seq<Key>, running: map<nat, Key>, started: nat, statuses: map<Key, ItemState>, stop: bool)

  /** Some start of the key has ended. */
  ghost predicate Ended(keys: seq<Key>, started: nat, running: map<nat, Key>, k: Key)
    requires started <= |keys|
  {
    exists i :: 0 <= i < started && i !in running && keys[i] == k
  }

  ghost predicate FailureSeen(keys: seq<Key>, work: Key -> Outcome, started: nat, running: map<nat, Key>)
    requires started <= |keys|
  {
    exists i :: 0 <= i < started && i !in running && work(keys[i]).Failure?
  }

  ghost predicate Placed(p: Pool, keys: seq<Key>) {
    p.started <= |keys| && p.pending == keys[p.started..] && forall f :: f in p.running ==> f < p.started && p.running[f] == keys[f]
  }

  ghost predicate Traced(p: Pool, limit: nat, trace: seq<Event>) {
    Legal(trace, limit) && Starts(trace) == p.started && Active(trace) == p.running.Keys && |p.running| <= limit
  }

  ghost predicate Recorded(p: Pool, keys: seq<Key>, work: Key -> Outcome, policy: Policy)
    requires p.started <= |keys|
  {
    && p.statuses.Keys == (set k | k in keys)
    && (forall k :: k in keys ==> p.statuses[k] == if Ended(keys, p.started, p.running, k) then StateOf(work(k)) else WAITING)
    && (p.stop <==> policy == Stop && FailureSeen(keys, work, p.started, p.running))
  }

  ghost predicate Consistent(p: Pool, keys: seq<Key>, work: Key -> Outcome, limit: nat, policy: Policy, trace: seq<Event>) {
    && Placed(p, keys) && Traced(p, limit, trace) && Recorded(p, keys, work, policy)
    && (policy == Stop && limit == 1 ==> Careful(keys, work, p.started)) && Diligent(trace, keys, work, limit, policy)
  }

  /** The runner has stopped exactly when the trace has a failure in it. */
  lemma {:induction false} StopIsTraced(p: Pool, keys: seq<Key>, work: Key -> Outcome, limit: nat, policy: Policy, trace: seq<Event>)
    requires Placed(p, keys) && Traced(p, limit, trace) && Recorded(p, keys, work, policy)
    ensures p.stop <==> policy == Stop && SomeFailed(trace, keys, work)
  {
    hide Legal, Starts, Active;
    assert FailureSeen(keys, work, p.started, p.running) <==> SomeFailed(trace, keys, work);
  }

  lemma {:induction false} DiligentGrows(trace: seq<Event>, e: Event, keys: seq<Key>, work: Key -> Outcome, limit: nat, policy: Policy)
    requires Diligent(trace, keys, work, limit, policy)
    requires e.Started? ==> !(policy == Stop && SomeFailed(trace, keys, work))
    requires e.Waited? ==> |Active(trace)| == limit || Starts(trace) == |keys| || (policy == Stop && SomeFailed(trace, keys, work))
    ensures Diligent(trace + [e], keys, work, limit, policy)
  {
    assert (trace + [e])[..|trace|] == trace;
  }

  /** Beginning to wait, when nothing can be submitted. */
  lemma {:induction false} WaitIsDiligent(p: Pool, keys: seq<Key>, work: Key -> Outcome, limit: nat, policy: Policy, trace: seq<Event>)
    requires Consistent(p, keys, work, limit, policy, trace) && !(p.pending != [] && !p.stop && |p.running| < limit)
    ensures Consistent(p, keys, work, limit, policy, trace + [Waited])
  {
    StopIsTraced(p, keys, work, limit, policy, trace);
    assert |p.running| == |p.running.Keys|;
    hide Recorded, Legal, Active, Starts, Careful, SomeFailed, Diligent;
    TraceGrows(trace, Waited, limit);
    DiligentGrows(trace, Waited, keys, work, limit, policy);
  }

  /** With nothing running and no failure seen, all that was started succeeded. */
  lemma {:induction false} StaysCareful(p: Pool, keys: seq<Key>, work: Key -> Outcome)
    requires p.started <= |keys| && Recorded(p, keys, work, Stop) && !p.stop && p.running == map[]
    ensures p.started < |keys| ==> Careful(keys, work, p.started + 1)
  {
    forall i | 0 <= i < p.started
      ensures work(keys[i]).Success?
    {
      assert i !in p.running;
    }
  }

  /** Submit the first pending item. */
  method Submit(p: Pool, ghost keys: seq<Key>, ghost work: Key -> Outcome, ghost limit: nat, ghost policy: Policy, ghost trace: seq<Event>)
      returns (q: Pool, ghost trace': seq<Event>)
    requires Consistent(p, keys, work, limit, policy, trace) && p.pending != [] && !p.stop && |p.running| < limit
    ensures Consistent(q, keys, work, limit, policy, trace')
    ensures q.pending == p.pending[1..] && q.running != map[] && q.stop == p.stop && |q.running| == |p.running| + 1
  {
    StopIsTraced(p, keys, work, limit, policy, trace);
    hide Recorded, Traced, Placed, Careful, Diligent, SomeFailed;
    DiligentGrows(trace, Started(p.started), keys, work, limit, policy);
    SubmitPlaces(p, keys);
    if policy == Stop && limit == 1 {
      StaysCareful(p, keys, work);
    }
    var running := p.running[p.started := p.pending[0]];
    q := p.(pending := p.pending[1..], running := running, started := p.started + 1);
    trace' := trace + [Started(p.started)];
    assert q.running != map[] && q.running.Keys == p.running.Keys + {p.started} by { OneMoreKey(p.running, p.started, p.pending[0]); }
    SubmitTraces(p, q, limit, trace);
    SubmitRecords(p, q, keys, work, policy);
  }

  lemma OneMoreKey(m: map<nat, Key>, f: nat, k: Key)
    ensures m[f := k] != map[] && m[f := k].Keys == m.Keys + {f}
  {
    assert f in m[f := k];
  }

  lemma {:induction false} SubmitPlaces(p: Pool, keys: seq<Key>)
    requires Placed(p, keys) && p.pending != []
    ensures Placed(p.(pending := p.pending[1..], running := p.running[p.started := p.pending[0]], started := p.started + 1), keys)
    ensures p.started < |keys| && p.started !in p.running
  {
    assert p.pending[1..] == keys[p.started + 1..] && p.pending[0] == keys[p.started];
  }

  lemma {:induction false} SubmitTraces(p: Pool, q: Pool, limit: nat, trace: seq<Event>)
    requires Traced(p, limit, trace) && |p.running| < limit && p.started !in p.running
    requires q.started == p.started + 1 && q.running.Keys == p.running.Keys + {p.started}
    ensures Traced(q, limit, trace + [Started(p.started)]) && |q.running| == |p.running| + 1
  {
    assert |q.running| == |q.running.Keys| && |p.running| == |p.running.Keys|;
    TraceGrows(trace, Started(p.started), limit);
  }

  lemma {:induction false} SubmitRecords(p: Pool, q: Pool, keys: seq<Key>, work: Key -> Outcome, policy: Policy)
    requires p.started < |keys| && Recorded(p, keys, work, policy)
    requires q.started == p.started + 1 && q.running.Keys == p.running.Keys + {p.started} && q.statuses == p.statuses && q.stop == p.stop
    ensures Recorded(q, keys, work, policy)
  {
    hide Ended, FailureSeen;
    StartEndsNothing(p, q, keys, work);
  }

  lemma {:induction false} StartEndsNothing(p: Pool, q: Pool, keys: seq<Key>, work: Key -> Outcome)
    requires p.started < |keys| && q.started == p.started + 1 && q.running.Keys == p.running.Keys + {p.started}
    ensures forall k :: Ended(keys, p.started, p.running, k) <==> Ended(keys, q.started, q.running, k)
    ensures FailureSeen(keys, work, p.started, p.running) <==> FailureSeen(keys, work, q.started, q.running)
  {
    assert forall i: nat :: i < p.started && i !in p.running <==> i < q.started && i !in q.running;
  }

  lemma {:induction false} FinishEndsOne(p: Pool, q: Pool, future: nat, keys: seq<Key>, work: Key -> Outcome)
    requires future < p.started <= |keys| && q.started == p.started && future in p.running && q.running == p.running - {future}
    ensures forall k :: Ended(keys, q.started, q.running, k) <==> k == keys[future] || Ended(keys, p.started, p.running, k)
    ensures FailureSeen(keys, work, q.started, q.running) <==> work(keys[future]).Failure? || FailureSeen(keys, work, p.started, p.running)
  {
    assert forall i: nat :: i < q.started && i !in q.running <==> i == future || (i < p.started && i !in p.running);
  }

  lemma {:induction false} TraceGrows(trace: seq<Event>, e: Event, limit: nat)
    requires Legal(trace, limit)
    requires match e
      case Started(n) => n == Starts(trace) && |Active(trace) + {n}| <= limit
      case Waited => |Active(trace)| <= limit
      case Finished(n) => n in Active(trace) && |Active(trace)| <= limit
    ensures Legal(trace + [e], limit)
    ensures Active(trace + [e]) == if e.Started? then Active(trace) + {e.n} else if e.Finished? then Active(trace) - {e.n} else Active(trace)
    ensures Starts(trace + [e]) == Starts(trace) + if e.Started? then 1 else 0
  {
    assert (trace + [e])[..|trace|] == trace;
    if e.Finished? { assert |Active(trace) - {e.n}| < |Active(trace)|; }
  }

  /** Take the result of one finished item. */
  method Settle(p: Pool, future: nat, ghost keys: seq<Key>, work: Key -> Outcome, ghost limit: nat, policy: Policy, ghost trace: seq<Event>)
      returns (q: Pool, ghost trace': seq<Event>)
    requires Consistent(p, keys, work, limit, policy, trace) && future in p.running
    ensures Consistent(q, keys, work, limit, policy, trace')
    ensures q.pending == p.pending && q.running == p.running - {future} && |q.running| == |p.running| - 1
  {
    hide Recorded, Traced, Placed, Careful, Diligent;
    DiligentGrows(trace, Finished(future), keys, work, limit, policy);
    SettlePlaces(p, keys, future);
    HasStatus(p, keys, work, policy, future);
    var key := p.running[future];
    q := p.(running := p.running - {future});
    trace' := trace + [Finished(future)];
    SettleTraces(p, q, future, limit, trace);
    match work(key) {
      case Success =>
        q := q.(statuses := q.statuses[key := q.statuses[key].(status := Succeeded)]);
      case Failure(error) =>
        q := q.(statuses := q.statuses[key := ItemState(Failed, Some(error))], stop := q.stop || policy == Stop);
    }
    SettleRecords(p, q, future, keys, work, policy);
    SamePlaces(p, q, keys, future, limit, trace');
  }

  lemma {:induction false} SettlePlaces(p: Pool, keys: seq<Key>, future: nat)
    requires Placed(p, keys) && future in p.running
    ensures future < p.started <= |keys| && p.running[future] == keys[future]
  {
  }

  lemma {:induction false} HasStatus(p: Pool, keys: seq<Key>, work: Key -> Outcome, policy: Policy, n: nat)
    requires p.started <= |keys| && Recorded(p, keys, work, policy) && n < |keys|
    ensures keys[n] in p.statuses
  {
    assert keys[n] in keys;
  }

  lemma {:induction false} SamePlaces(p: Pool, q: Pool, keys: seq<Key>, future: nat, limit: nat, trace: seq<Event>)
    requires Placed(p, keys) && Traced(p.(running := p.running - {future}), limit, trace)
    requires q == p.(running := p.running - {future}, statuses := q.statuses, stop := q.stop)
    ensures Placed(q, keys) && Traced(q, limit, trace)
  {
  }

  lemma {:induction false} SettleTraces(p: Pool, q: Pool, future: nat, limit: nat, trace: seq<Event>)
    requires Traced(p, limit, trace) && future in p.running && q == p.(running := p.running - {future})
    ensures Traced(q, limit, trace + [Finished(future)]) && |q.running| == |p.running| - 1
  {
    assert q.running.Keys == p.running.Keys - {future};
    assert |q.running| == |q.running.Keys| && |p.running| == |p.running.Keys|;
    TraceGrows(trace, Finished(future), limit);
  }

  lemma {:induction false} SettleRecords(p: Pool, q: Pool, future: nat, keys: seq<Key>, work: Key -> Outcome, policy: Policy)
    requires future < p.started <= |keys| && Recorded(p, keys, work, policy) && future in p.running
    requires q.started == p.started && q.running == p.running - {future}
    requires var key := keys[future];
             && key in p.statuses
             && q.statuses == p.statuses[key := if work(key).Success? then p.statuses[key].(status := Succeeded) else StateOf(work(key))]
             && q.stop == (p.stop || (policy == Stop && work(key).Failure?))
    ensures Recorded(q, keys, work, policy)
  {
    hide Ended, FailureSeen;
    FinishEndsOne(p, q, future, keys, work);
  }

  method RunItems(keys: seq<Key>, work: Key -> Outcome, limit: nat, policy: Policy)
      returns (statuses: map<Key, ItemState>, ok: bool, ghost trace: seq<Event>)
    requires limit >= 1
    ensures Legal(trace, limit) && Active(trace) == {} && Starts(trace) <= |keys| && Diligent(trace, keys, work, limit, policy)
    ensures policy == Continue ==> Starts(trace) == |keys|
    ensures Starts(trace) < |keys| ==> exists i :: 0 <= i < Starts(trace) && work(keys[i]).Failure?
    ensures policy == Stop && limit == 1 ==> Starts(trace) == FirstStop(keys, work)
    ensures forall k :: k in keys[Starts(trace)..] ==> k in OneByOne(keys, work, Starts(trace))
    ensures statuses == SkipRest(OneByOne(keys, work, Starts(trace)), keys[Starts(trace)..])
    ensures ok <==> ExitsWithZero(statuses, policy)
  {
    hide Consistent, Legal, Active, Starts, OneByOne, SkipRest, ExitsWithZero, Careful, FirstStop, Diligent;
    var p := Pool(keys, map[], 0, map k | k in keys :: WAITING, false);
    trace := [];
    EmptyPool(p, keys, work, limit, policy);
    while (p.pending != [] && !p.stop) || p.running != map[]
      invariant Consistent(p, keys, work, limit, policy, trace)
      decreases 2 * |p.pending| + |p.running|
    {
      ghost var measure := 2 * |p.pending| + |p.running|;
      while p.pending != [] && !p.stop && |p.running| < limit
        invariant Consistent(p, keys, work, limit, policy, trace)
        invariant (p.pending != [] && !p.stop) || p.running != map[]
        invariant 2 * |p.pending| + |p.running| <= measure
        decreases |p.pending|
      {
        p, trace := Submit(p, keys, work, limit, policy, trace);
      }
      WaitIsDiligent(p, keys, work, limit, policy, trace);
      trace := trace + [Waited];
      var finished: set<nat> :| finished != {} && finished <= p.running.Keys by { SomethingRuns(p, limit); }
      while finished != {}
        invariant Consistent(p, keys, work, limit, policy, trace)
        invariant finished <= p.running.Keys
        invariant 2 * |p.pending| + |p.running| <= measure && (finished == {} ==> 2 * |p.pending| + |p.running| < measure)
        decreases |finished|
      {
        var future :| future in finished;
        finished := finished - {future};
        p, trace := Settle(p, future, keys, work, limit, policy, trace);
      }
    }
    AllEnded(p, keys, work, limit, policy, trace);
    statuses := MarkSkipped(p.statuses, p.pending);
    ok := ExitStatus(statuses, policy);
  }

  lemma {:induction false} EmptyPool(p: Pool, keys: seq<Key>, work: Key -> Outcome, limit: nat, policy: Policy)
    requires p == Pool(keys, map[], 0, map k | k in keys :: WAITING, false)
    ensures Consistent(p, keys, work, limit, policy, [])
  {
  }

  /** With nothing left to submit the pool is full or the loop condition says something runs. */
  lemma SomethingRuns(p: Pool, limit: nat)
    requires limit >= 1 && ((p.pending != [] && !p.stop) || p.running != map[])
    requires !(p.pending != [] && !p.stop && |p.running| < limit)
    ensures exists finished: set<nat> :: finished != {} && finished <= p.running.Keys
  {
    assert p.running != map[];
    var f :| f in p.running;
    assert {f} <= p.running.Keys;
  }

  /** Nothing runs and nothing will be submitted: the statuses are those of a sequential run. */
  lemma {:induction false} AllEnded(p: Pool, keys: seq<Key>, work: Key -> Outcome, limit: nat, policy: Policy, trace: seq<Event>)
    requires Consistent(p, keys, work, limit, policy, trace) && p.running == map[] && (p.pending == [] || p.stop)
    ensures Legal(trace, limit) && Active(trace) == {} && Starts(trace) == p.started <= |keys| && p.pending == keys[p.started..]
    ensures Diligent(trace, keys, work, limit, policy)
    ensures policy == Continue ==> p.started == |keys|
    ensures p.started < |keys| ==> exists i :: 0 <= i < p.started && work(keys[i]).Failure?
    ensures policy == Stop && limit == 1 ==> p.started == FirstStop(keys, work)
    ensures p.statuses == OneByOne(keys, work, p.started)
    ensures forall k :: k in p.pending ==> k in p.statuses
  {
    hide Legal, Active, Starts, Ended, OneByOne, Careful, FirstStop, Diligent;
    if policy == Stop && limit == 1 {
      CarefulIsFirstStop(keys, work, p.started);
    }
    OneByOneAt(keys, work, p.started);
    EndedIsPrefix(keys, p.started, p.running);
    assert p.statuses == OneByOne(keys, work, p.started);
    assert forall k :: k in p.pending ==> k in keys;
  }

  lemma {:induction false} EndedIsPrefix(keys: seq<Key>, started: nat, running: map<nat, Key>)
    requires started <= |keys| && running == map[]
    ensures forall k :: Ended(keys, started, running, k) <==> k in keys[..started]
  {
    forall k
      ensures Ended(keys, started, running, k) <==> k in keys[..started]
    {
      if k in keys[..started] {
        var i :| 0 <= i < started && keys[..started][i] == k;
        assert keys[i] == k && i !in running;
      }
    }
  }

  /** `for key in pending: statuses[key]["status"] = "skipped"` */
  method MarkSkipped(before: map<Key, ItemState>, pending: seq<Key>) returns (statuses: map<Key, ItemState>)
    requires forall k :: k in pending ==> k in before
    ensures statuses == SkipRest(before, pending)
  {
    statuses := before;
    for n := 0 to |pending|
      invariant statuses.Keys == before.Keys
      invariant SkipRest(statuses, pending[n..]) == SkipRest(before, pending)
    {
      assert pending[n..][0] == pending[n] && pending[n..][1..] == pending[n + 1..];
      statuses := statuses[pending[n] := statuses[pending[n]].(status := Skipped)];
    }
    assert pending[|pending|..] == [];
  }

  method ExitStatus(statuses: map<Key, ItemState>, policy: Policy) returns (ok: bool)
    ensures ok <==> ExitsWithZero(statuses, policy)
  {
    var failed := set k | k in statuses && statuses[k].status == Failed;
    var succeeded := set k | k in statuses && statuses[k].status == Succeeded;
    assert failed == {} <==> forall k :: k in statuses ==> statuses[k].status != Failed by {
      assert forall k :: k in failed <==> k in statuses && statuses[k].status == Failed;
    }
    assert succeeded == {} <==> !exists k :: k in statuses && statuses[k].status == Succeeded by {
      assert forall k :: k in succeeded <==> k in statuses && statuses[k].status == Succeeded;
    }
    ok := !(failed != {} && (policy == Stop || succeeded == {}));
  }

  // ----- what the statuses say -------------------------------------------------------------------

  ghost function Final(keys: seq<Key>, work: Key -> Outcome, n: nat): map<Key, ItemState>
    requires n <= |keys|
  {
    OneByOneAt(keys, work, n);
    SkipRest(OneByOne(keys, work, n), keys[n..])
  }

  /** Under `continue` every item has the status it gets when the items are run one by one. */
  lemma {:induction false} ContinueIsSequential(keys: seq<Key>, work: Key -> Outcome)
    ensures var statuses := Final(keys, work, |keys|);
      && statuses == OneByOne(keys, work, |keys|) && statuses.Keys == (set k | k in keys)
      && forall k :: k in keys ==> statuses[k] == StateOf(work(k))
    ensures ExitsWithZero(Final(keys, work, |keys|), Continue) <==>
      keys == [] || exists k :: k in keys && work(k).Success?
  {
    OneByOneAt(keys, work, |keys|);
    assert keys[..|keys|] == keys && keys[|keys|..] == [];
    var statuses := Final(keys, work, |keys|);
    if keys != [] {
      assert keys[0] in keys;
      assert forall k :: k in keys ==> statuses[k] == StateOf(work(k));
    }
  }

  /** Under `stop` what was started is a prefix: it has its outcomes, and everything after it is skipped. */
  lemma {:induction false} StopRunsAPrefix(keys: seq<Key>, work: Key -> Outcome, n: nat)
    requires n <= |keys| && Distinct(keys)
    ensures var statuses := Final(keys, work, n);
            && statuses.Keys == (set k | k in keys)
            && (forall i :: 0 <= i < n ==> statuses[keys[i]] == StateOf(work(keys[i])))
            && (forall i :: n <= i < |keys| ==> statuses[keys[i]].status == Skipped)
  {
    OneByOneAt(keys, work, n);
    SkipRestAt(OneByOne(keys, work, n), keys[n..]);
    forall i | 0 <= i < |keys|
      ensures keys[i] in keys[..n] <==> i < n
      ensures keys[i] in keys[n..] <==> i >= n
    {
      if i < n { assert keys[..n][i] == keys[i]; } else { assert keys[n..][i - n] == keys[i]; }
    }
  }

  /** Exit status 0 under `stop`: every item ran and succeeded. Needs distinct keys. */
  lemma {:induction false} StopExitsZeroIffAllSucceed(keys: seq<Key>, work: Key -> Outcome, n: nat)
    requires n <= |keys| && Distinct(keys)
    requires n < |keys| ==> exists i :: 0 <= i < n && work(keys[i]).Failure?
    ensures ExitsWithZero(Final(keys, work, n), Stop) <==> forall k :: k in keys ==> work(k).Success?
    ensures ExitsWithZero(Final(keys, work, n), Stop) ==> n == |keys|
  {
    var statuses := Final(keys, work, n);
    StopRunsAPrefix(keys, work, n);
    if i :| 0 <= i < n && work(keys[i]).Failure? {
      assert statuses[keys[i]].status == Failed && keys[i] in keys;
    } else {
      assert n == |keys|;
    }
  }

  /** What a run under `stop` may have started: everything, or a prefix with a failure in it. */
  ghost predicate MayStopAt(keys: seq<Key>, work: Key -> Outcome, n: nat) {
    n <= |keys| && (n < |keys| ==> exists i :: 0 <= i < n && work(keys[i]).Failure?)
  }

  ghost predicate AllSucceed(keys: seq<Key>, work: Key -> Outcome) {
    forall k :: k in keys ==> work(k).Success?
  }

  /** Without distinct keys it is false: a key that is listed again after it failed is skipped the second
      time, which hides the failure, and the run one at a time, which stops right after it, exits 0. */
  lemma {:induction false} RepeatedKeyHidesFailure(keys: seq<Key>, i: nat, j: nat, work: Key -> Outcome)
    requires i < j < |keys| && keys[i] == keys[j] && keys[i] !in keys[..i]
    requires forall k :: k in keys ==> (work(k).Failure? <==> k == keys[i])
    ensures FirstStop(keys, work) == i + 1 && !AllSucceed(keys, work)
    ensures ExitsWithZero(Final(keys, work, FirstStop(keys, work)), Stop)
  {
    forall m | 0 <= m < i
      ensures work(keys[m]).Success?
    {
      assert keys[m] in keys && keys[m] in keys[..i];
    }
    assert keys[i] in keys;
    CarefulIsFirstStop(keys, work, i + 1);
    OneByOneAt(keys, work, i + 1);
    SkipRestAt(OneByOne(keys, work, i + 1), keys[i + 1..]);
    assert keys[i + 1..][j - i - 1] == keys[i];
  }

  /** For the runs one at a time, exit status 0 means that every item succeeded, whatever the items do,
      exactly when the keys are distinct; and then it does for every limit and completion order. */
  lemma {:induction false} ExitZeroIsHonestExactly(keys: seq<Key>)
    ensures (forall work {:trigger AllSucceed(keys, work)} ::
               ExitsWithZero(Final(keys, work, FirstStop(keys, work)), Stop) ==> AllSucceed(keys, work)) <==> Distinct(keys)
    ensures Distinct(keys) ==> forall work, n: nat {:trigger MayStopAt(keys, work, n)} ::
              MayStopAt(keys, work, n) && ExitsWithZero(Final(keys, work, n), Stop) ==> AllSucceed(keys, work)
  {
    if Distinct(keys) {
      forall work, n: nat | MayStopAt(keys, work, n) && ExitsWithZero(Final(keys, work, n), Stop)
        ensures AllSucceed(keys, work)
      {
        StopExitsZeroIffAllSucceed(keys, work, n);
      }
      forall work
        ensures MayStopAt(keys, work, FirstStop(keys, work))
      {
      }
    } else {
      var later, j :| 0 <= later < j < |keys| && keys[later] == keys[j];
      var i := FirstOccurrence(keys, later);
      var work := k => if k == keys[i] then Failure("") else Success;
      RepeatedKeyHidesFailure(keys, i, j, work);
      assert !AllSucceed(keys, work);
    }
  }

  lemma {:induction false} FirstOccurrence(keys: seq<Key>, i: nat) returns (f: nat)
    requires i < |keys|
    ensures f <= i && keys[f] == keys[i] && keys[f] !in keys[..f]
  {
    f := i;
    if keys[i] in keys[..i] {
      var earlier :| 0 <= earlier < i && keys[earlier] == keys[i];
      f := FirstOccurrence(keys, earlier);
    }
  }

  // ----- the index -------------------------------------------------------------------------------

  /** The keys of a dictionary filled in this order: first occurrences. */
  function FirstOccurrences(keys: seq<Key>): seq<Key> {
    if keys == [] then []
    else
      var front, last := FirstOccurrences(keys[..|keys| - 1]), keys[|keys| - 1];
      if last in keys[..|keys| - 1] then front else front + [last]
  }

  lemma {:induction false} OccurrencesAreDistinct(keys: seq<Key>)
    ensures Distinct(FirstOccurrences(keys))
    ensures forall k :: k in FirstOccurrences(keys) <==> k in keys
    ensures Distinct(keys) ==> FirstOccurrences(keys) == keys
  {
    if keys != [] {
      var front, last := keys[..|keys| - 1], keys[|keys| - 1];
      OccurrencesAreDistinct(front);
      assert keys == front + [last];
      if last in front {
        var i :| 0 <= i < |front| && front[i] == last;
        assert keys[i] == keys[|keys| - 1];
      }
    }
  }
}
