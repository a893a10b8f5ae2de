/** The share that one run has in a history of the cluster, as long as it has the store to itself: what the
    methods of a scheduler do between two points where others may step in. */
module RunPaths {
  import opened SlicePlan
  import opened SchedulerCore
  import opened Cluster
  import opened SharedLocks
  import opened IsoTime
  import P = JobPhases
  import S = LockStore

  /** The steps lead run `r` from store `a` to store `b`, where it is `r'`. */
  ghost predicate Path(a: S.Store, r: Run, steps: seq<Step>, b: S.Store, r': Run) {
    && (forall t | t in steps :: t.Of?)
    && Possible(State(a, [r]), steps) && After(State(a, [r]), steps) == State(b, [r'])
  }

  lemma {:induction false} NoPath(a: S.Store, r: Run)
    ensures Path(a, r, [], a, r)
  {
  }

  lemma {:induction false} PathConcat(a: S.Store, r: Run, x: seq<Step>, b: S.Store, r': Run, y: seq<Step>, c: S.Store, r'': Run)
    requires Path(a, r, x, b, r') && Path(b, r', y, c, r'')
    ensures Path(a, r, x + y, c, r'')
  {
    Chained(State(a, [r]), x, y);
  }

  /** One step of the run. */
  lemma {:induction false} OneStep(a: S.Store, r: Run, action: Action, c: S.Call)
    requires WellTyped(r) && Able(r, action)
    requires OpOf(r, action).Some? ==> c.op == OpOf(r, action).value && S.Enabled(a, c)
    ensures
      var calls := OpOf(r, action).Some?;
      Path(a, r, [Of(0, action, c)], if calls then S.Next(a, c) else a, React(r, action, if calls then S.Step(a, c).1 else S.Swept))
  {
    var s, t := State(a, [r]), Of(0, action, c);
    assert Enabled(s, t) && [t][1..] == [];
    assert Next(s, t).runs == [React(r, action, OutcomeOf(s, t))];
    assert Possible(Next(s, t), []);
  }

  // ---- what was decided on the way ----

  /** What the loop decided to do. Going on with what was begun is no decision. */
  ghost function Decisions(steps: seq<Step>): set<Action> {
    set t | t in steps && t.Of? && !t.action.Proceed? :: t.action
  }

  lemma {:induction false} DecisionsConcat(x: seq<Step>, y: seq<Step>)
    ensures Decisions(x + y) == Decisions(x) + Decisions(y)
  {
    assert forall t :: t in x + y <==> t in x || t in y;
  }

  lemma {:induction false} DecisionsOne(action: Action, c: S.Call)
    ensures Decisions([Of(0, action, c)]) == if action.Proceed? then {} else {action}
  {
    var t := Of(0, action, c);
    assert t in [t];
    assert forall u :: u in [t] <==> u == t;
  }

  /** A path on which the loop made exactly these decisions. */
  ghost predicate Leg(a: S.Store, r: Run, steps: seq<Step>, b: S.Store, r': Run, decided: set<Action>) {
    Path(a, r, steps, b, r') && Decisions(steps) == decided
  }

  lemma {:induction false} NoLeg(a: S.Store, r: Run)
    ensures Leg(a, r, [], a, r, {})
  {
  }

  lemma {:induction false} LegConcat(a: S.Store, r: Run, x: seq<Step>, b: S.Store, r': Run, y: seq<Step>, c: S.Store, r'': Run,
                                     before: set<Action>, more: set<Action>)
    requires Leg(a, r, x, b, r', before) && Leg(b, r', y, c, r'', more)
    ensures Leg(a, r, x + y, c, r'', before + more)
  {
    PathConcat(a, r, x, b, r', y, c, r'');
    DecisionsConcat(x, y);
  }

  /** One more store operation. */
  lemma {:induction false} Extend(a: S.Store, r: Run, steps: seq<Step>, b: S.Store, r': Run, decided: set<Action>, action: Action, c: S.Call)
    requires Leg(a, r, steps, b, r', decided) && WellTyped(r') && Able(r', action)
    requires OpOf(r', action).Some? && c.op == OpOf(r', action).value && S.Enabled(b, c)
    ensures Leg(a, r, steps + [Of(0, action, c)], S.Next(b, c), React(r', action, S.Step(b, c).1),
                decided + if action.Proceed? then {} else {action})
  {
    OneStep(b, r', action, c);
    DecisionsOne(action, c);
    LegConcat(a, r, steps, b, r', [Of(0, action, c)], S.Next(b, c), React(r', action, S.Step(b, c).1),
              decided, if action.Proceed? then {} else {action});
  }

  /** A step that performs no store operation. */
  function Quietly(action: Action): Step {
    Of(0, action, S.Call(0, S.Op.ExpireStale, []))
  }

  lemma {:induction false} QuietLeg(a: S.Store, r: Run, action: Action)
    requires WellTyped(r) && (action.Done? || action.Propagate?) && Able(r, action)
    ensures Leg(a, r, [Quietly(action)], a, React(r, action, S.Swept), {action})
  {
    OneStep(a, r, action, S.Call(0, S.Op.ExpireStale, []));
    DecisionsOne(action, S.Call(0, S.Op.ExpireStale, []));
  }

  /** The run was left by an exception, and executes what `r` executes. */
  ghost predicate Crashed(r: Run, end: Run) {
    SameRun(r, end) && end.activity.Halted? && Executing(end) == Executing(r)
  }

  lemma {:induction false} StoppedCrashed(r: Run)
    ensures Crashed(r, Stopped(r))
  {
    assert Executing(Stopped(r)) == Executing(r);
  }

  lemma {:induction false} AtRest(r: Run)
    requires r.activity.Idle? && r.gone == {}
    ensures Executing(r) == r.core.running
  {
  }

  // ---- heartbeats ----

  /** The heartbeats of everything the running slices hold. */
  ghost predicate AllBeats(r: Run, decided: set<Action>) {
    forall a :: a in decided <==> a.Beat? && a.job in r.core.running && a.job in r.acquired && a.k < |r.acquired[a.job]|
  }

  ghost function BeatsUpTo(j: string, n: nat): set<Action> {
    set k: nat | k < n :: Beat(j, k)
  }

  lemma {:induction false} BeatLeg(a: S.Store, r: Run, steps: seq<Step>, b: S.Store, j: string, i: nat, c: S.Call) returns (end: Run)
    requires WellTyped(r) && Able(r, Beat(j, i)) && Leg(a, r, steps, b, r, BeatsUpTo(j, i)) && S.Enabled(b, c)
    requires c.op == S.Op.Heartbeat(r.acquired[j][i].name, r.Me(j), r.cfg.lockTtl, "scheduler-heartbeat")
    ensures
      var steps' := steps + [Of(0, Beat(j, i), c)];
      if S.Step(b, c).1.Raised() then Path(a, r, steps', S.Next(b, c), end) && Crashed(r, end)
      else Leg(a, r, steps', S.Next(b, c), r, BeatsUpTo(j, i + 1))
  {
    Extend(a, r, steps, b, r, BeatsUpTo(j, i), Beat(j, i), c);
    StoppedCrashed(r);
    end := Stopped(r);
    assert BeatsUpTo(j, i) + {Beat(j, i)} == BeatsUpTo(j, i + 1);
  }

  /** The heartbeats of what the slices in `beaten` hold. */
  ghost predicate BeatingLeg(a: S.Store, r: Run, steps: seq<Step>, b: S.Store, beaten: set<string>) {
    && Path(a, r, steps, b, r)
    && forall d :: d in Decisions(steps) <==> d.Beat? && d.job in beaten && d.job in r.acquired && d.k < |r.acquired[d.job]|
  }

  lemma {:induction false} MoreBeats(a: S.Store, r: Run, steps: seq<Step>, b: S.Store, beaten: set<string>, j: string,
                                     more: seq<Step>, c: S.Store, end: Run, ok: bool)
    requires BeatingLeg(a, r, steps, b, beaten) && j in r.acquired && Path(b, r, more, c, end)
    requires ok ==> end == r && Decisions(more) == BeatsUpTo(j, |r.acquired[j]|)
    ensures Path(a, r, steps + more, c, end)
    ensures ok ==> BeatingLeg(a, r, steps + more, c, beaten + {j})
  {
    PathConcat(a, r, steps, b, r, more, c, end);
    DecisionsConcat(steps, more);
  }

  // ---- taking the locks of a slice ----

  /** `r` is at rest and may try slice `j`. */
  ghost predicate MayTry(r: Run, j: string) {
    WellTyped(r) && Able(r, TryJob(j))
  }

  /** The run once `i` of the requests have been granted. */
  ghost function TakingAt(r: Run, j: string, requests: seq<Request>, i: nat): Run
    requires i <= |requests| && MayTry(r, j)
  {
    if i < |requests| then r.(activity := Taking(j, requests[..i], requests[i..])) else Started(r, j, requests)
  }

  /** The way there. */
  ghost predicate TakingLeg(a: S.Store, r: Run, steps: seq<Step>, b: S.Store, j: string, requests: seq<Request>, i: nat) {
    i <= |requests| && MayTry(r, j) && Leg(a, r, steps, b, TakingAt(r, j, requests, i), {TryJob(j)})
  }

  lemma {:induction false} SweepLeg(a: S.Store, r: Run, j: string, c: S.Call)
    requires MayTry(r, j) && c.op.ExpireStale? && S.Enabled(a, c)
    ensures TakingLeg(a, r, [Of(0, TryJob(j), c)], S.Next(a, c), j, GlobalLockRequests(r.plan[j]), 0)
  {
    OneStep(a, r, TryJob(j), c);
    DecisionsOne(TryJob(j), c);
    var q := GlobalLockRequests(r.plan[j]);
    assert q[..0] == [] && q[0..] == q;
  }

  lemma {:induction false} TakenNext(r: Run, j: string, requests: seq<Request>, i: nat)
    requires i < |requests| && MayTry(r, j)
    ensures Granted(TakingAt(r, j, requests, i)) == TakingAt(r, j, requests, i + 1)
  {
    assert requests[i..][1..] == requests[i + 1..];
    if i + 1 < |requests| {
      assert requests[..i + 1] == requests[..i] + [requests[i]];
    } else {
      assert requests[..i] + requests[i..] == requests;
    }
  }

  /** The run that gives back the first `i` requests. */
  function Refused(r: Run, j: string, requests: seq<Request>, i: nat): Run
    requires i <= |requests|
  {
    r.(activity := RollingBack(j, requests[..i]))
  }

  /** The answer `o` to request number `i` of a slice. */
  lemma {:induction false} AcquireLeg(a: S.Store, r: Run, steps: seq<Step>, b: S.Store, j: string, requests: seq<Request>, i: nat, c: S.Call)
    returns (end: Run)
    requires i < |requests| && TakingLeg(a, r, steps, b, j, requests, i) && S.Enabled(b, c)
    requires var q := requests[i];
             c.op == S.Op.Acquire(q.name, q.scope, q.repo, r.Me(j), r.cfg.lockTtl, "scheduler-acquire")
    ensures
      var o, steps', b' := S.Step(b, c).1, steps + [Of(0, Proceed, c)], S.Next(b, c);
      if o.Raised() then Leg(a, r, steps', b', end, {TryJob(j)}) && Crashed(r, end)
      else if o.Grants() then TakingLeg(a, r, steps', b', j, requests, i + 1)
      else Returns(Refused(r, j, requests, i), j, "rollback-partial-acquire")
           && Leg(a, r, steps', b', Left(Refused(r, j, requests, i), requests[..i]), {TryJob(j)})
  {
    var at := TakingAt(r, j, requests, i);
    Extend(a, r, steps, b, at, {TryJob(j)}, Proceed, c);
    TakenNext(r, j, requests, i);
    StoppedCrashed(at);
    end := Stopped(at);
    assert {TryJob(j)} + {} == {TryJob(j)};
  }

  // ---- a whole attempt ----

  /** `i` of the requests have been granted, as the calls, the table and the path of the run see it. */
  ghost predicate Attempting(before: S.Store, s: S.Store, calls: seq<S.Call>, r: Run, steps: seq<Step>, j: string,
                             requests: seq<Request>, i: nat, smooth: bool, hi: int)
  {
    && i <= |requests| && Leads(before, calls, s)
    && (smooth ==> Partial(before, s, r.Me(j), NamesOf(requests[..i]), {}, hi))
    && (MayTry(r, j) ==> TakingLeg(before, r, steps, s, j, requests, i))
  }

  lemma {:induction false} AttemptBegins(before: S.Store, r: Run, j: string, smooth: bool, hi: int, c: S.Call)
    requires c.op.ExpireStale? && S.Enabled(before, c) && j in r.plan && (smooth ==> c.now <= hi)
    ensures Attempting(before, S.Next(before, c), [c], r, [Of(0, TryJob(j), c)], j, GlobalLockRequests(r.plan[j]), 0, smooth, hi)
  {
    var requests := GlobalLockRequests(r.plan[j]);
    assert requests[..0] == [] && NamesOf([]) == {};
    CallLeads(before, c);
    if smooth {
      SweepStep(before, before, r.Me(j), {}, {}, hi, c);
    }
    if MayTry(r, j) {
      SweepLeg(before, r, j, c);
    }
  }

  lemma {:induction false} AttemptNext(before: S.Store, s: S.Store, calls: seq<S.Call>, r: Run, steps: seq<Step>, j: string,
                                       requests: seq<Request>, i: nat, smooth: bool, hi: int, c: S.Call)
    returns (end: Run)
    requires i < |requests| && Attempting(before, s, calls, r, steps, j, requests, i, smooth, hi) && S.Enabled(s, c)
    requires var q := requests[i];
             c.op == S.Op.Acquire(q.name, q.scope, q.repo, r.Me(j), r.cfg.lockTtl, "scheduler-acquire")
    requires smooth ==> NoneHeld(before, r.Me(j)) && c.now <= hi < c.now + LeaseSeconds(r.cfg.lockTtl) <= LastInstant()
    ensures
      var o, s', calls', steps' := S.Step(s, c).1, S.Next(s, c), calls + [c], steps + [Of(0, Proceed, c)];
      && Leads(before, calls', s')
      && if o.Raised() then !smooth && (MayTry(r, j) ==> Leg(before, r, steps', s', end, {TryJob(j)}) && Crashed(r, end))
         else if o.Grants() then Attempting(before, s', calls', r, steps', j, requests, i + 1, smooth, hi)
         else (smooth ==> Partial(before, s', r.Me(j), NamesOf(requests[..i]), {}, hi))
              && (MayTry(r, j) ==> RefusedLeg(before, r, steps', s', j, requests, i))
  {
    NamesSnoc(requests, i);
    LeadsSnoc(before, calls, s, c);
    if smooth {
      GrantStep(before, s, r.Me(j), NamesOf(requests[..i]), hi, c);
    }
    end := r;
    if MayTry(r, j) {
      end := AcquireLeg(before, r, steps, s, j, requests, i, c);
    }
  }

  /** The way to the rollback of the first `i` requests. */
  ghost predicate RefusedLeg(a: S.Store, r: Run, steps: seq<Step>, b: S.Store, j: string, requests: seq<Request>, i: nat) {
    && i <= |requests| && Returns(Refused(r, j, requests, i), j, "rollback-partial-acquire")
    && Leg(a, r, steps, b, Left(Refused(r, j, requests, i), requests[..i]), {TryJob(j)})
  }

  lemma {:induction false} RolledBack(a: S.Store, r: Run, steps: seq<Step>, b: S.Store, j: string, requests: seq<Request>, i: nat,
                                      more: seq<Step>, c: S.Store, end: Run)
    requires MayTry(r, j) ==> RefusedLeg(a, r, steps, b, j, requests, i)
    requires MayTry(r, j) ==> Leg(b, Left(Refused(r, j, requests, i), requests[..i]), more, c, end, {})
    ensures MayTry(r, j) ==> Leg(a, r, steps + more, c, end, {TryJob(j)})
    ensures MayTry(r, j) ==> Left(Refused(r, j, requests, i), []) == r && Executing(Refused(r, j, requests, i)) == Executing(r)
  {
    if MayTry(r, j) {
      LegConcat(a, r, steps, b, Left(Refused(r, j, requests, i), requests[..i]), more, c, end, {TryJob(j)}, {});
    }
  }

  lemma {:induction false} AttemptSucceeds(before: S.Store, s: S.Store, calls: seq<S.Call>, r: Run, steps: seq<Step>, j: string,
                                           requests: seq<Request>, smooth: bool, hi: int)
    returns (end: Run)
    requires Attempting(before, s, calls, r, steps, j, requests, |requests|, smooth, hi)
    ensures smooth ==> Partial(before, s, r.Me(j), NamesOf(requests), {}, hi)
    ensures MayTry(r, j) ==> end == Started(r, j, requests) && Leg(before, r, steps, s, end, {TryJob(j)})
  {
    assert requests[..|requests|] == requests;
    end := if MayTry(r, j) then Started(r, j, requests) else r;
  }

  // ---- which slices are tried ----

  /** The loop asks for the locks of slice `j`. */
  ghost predicate Tries(plan: Plan, cfg: Config, c: Core, j: string)
    requires c.phases.Keys == plan.Keys && j in plan
  {
    c.phases[j].status == P.Pending && Gate(plan, cfg, c, j)
  }

  ghost function Attempted(plan: Plan, cfg: Config, c: Core, j: string): set<Action>
    requires c.phases.Keys == plan.Keys && j in plan
  {
    if Tries(plan, cfg, c, j) then {TryJob(j)} else {}
  }

  lemma {:induction false} CountsGrow(m: map<string, int>, keys: seq<string>, a: string)
    ensures Count(AddAll(m, keys), a) >= Count(m, a)
    decreases keys
  {
    if keys != [] {
      CountsGrow(m, keys[..|keys| - 1], a);
    }
  }

  /** Starting a slice opens no gate. */
  lemma {:induction false} TriesNarrow(plan: Plan, cfg: Config, c: Core, k: string, j: string)
    requires c.phases.Keys == plan.Keys && k in plan && j in plan && c.phases[k].status == P.Pending
    requires Tries(plan, cfg, Began(plan, c, k), j)
    ensures Tries(plan, cfg, c, j)
  {
    forall a ensures Count(AddAll(c.byHotArea, plan[k].hotAreas), a) >= Count(c.byHotArea, a) {
      CountsGrow(c.byHotArea, plan[k].hotAreas, a);
    }
    var c' := Began(plan, c, k);
    forall p | P.IsParent(DepsOf(plan), p, j) ensures c.phases[p].status == P.Passed {
      assert c'.phases[p].status == P.Passed;
    }
  }

  /** The first `i` slices in name order were tried, or are not to be tried any more. */
  ghost predicate Covered(plan: Plan, cfg: Config, c: Core, names: seq<string>, i: nat, decided: set<Action>) {
    && c.phases.Keys == plan.Keys && i <= |names| && (forall j | j in names :: j in plan)
    && (forall a | a in decided :: a.TryJob?)
    && forall k | 0 <= k < i :: TryJob(names[k]) in decided || !Tries(plan, cfg, c, names[k])
  }

  lemma {:induction false} CoveredNext(plan: Plan, cfg: Config, c: Core, c': Core, names: seq<string>, i: nat, decided: set<Action>)
    requires i < |names| && Covered(plan, cfg, c, names, i, decided)
    requires c' == c || (c.phases[names[i]].status == P.Pending && c' == Began(plan, c, names[i]))
    ensures Covered(plan, cfg, c', names, i + 1, decided + Attempted(plan, cfg, c, names[i]))
  {
    forall k | 0 <= k < i + 1 && Tries(plan, cfg, c', names[k]) ensures TryJob(names[k]) in decided + Attempted(plan, cfg, c, names[i]) {
      if c' != c {
        TriesNarrow(plan, cfg, c, names[i], names[k]);
      }
    }
  }

  // ---- what one pass decides ----

  /** The results that the futures in `done` hand over. */
  ghost function Results(phases: P.Phases, done: set<string>, codes: P.Codes): set<Action>
    requires done <= phases.Keys
  {
    set j | j in done :: Done(j, codes(j, phases[j].attempt))
  }

  /** The futures in `done` were running in `r`; all but those in `todo` have been finalized. */
  ghost predicate GatheringLeg(a: S.Store, r: Run, steps: seq<Step>, b: S.Store, r': Run, done: set<string>, todo: set<string>, codes: P.Codes) {
    && todo <= done <= r.core.running && done <= r.core.phases.Keys && r'.core.running == r.core.running - (done - todo)
    && (forall j | j in todo :: j in r'.core.phases && r'.core.phases[j] == r.core.phases[j])
    && Leg(a, r, steps, b, r', Results(r.core.phases, done - todo, codes))
  }

  lemma {:induction false} NothingGathered(a: S.Store, r: Run, done: set<string>, codes: P.Codes)
    requires done <= r.core.running && done <= r.core.phases.Keys
    ensures GatheringLeg(a, r, [], a, r, done, done, codes)
  {
    NoLeg(a, r);
    assert done - done == {};
    assert Results(r.core.phases, {}, codes) == {};
  }

  lemma {:induction false} AllGathered(a: S.Store, r: Run, steps: seq<Step>, b: S.Store, r': Run, done: set<string>, codes: P.Codes)
    requires GatheringLeg(a, r, steps, b, r', done, {}, codes)
    ensures Leg(a, r, steps, b, r', Results(r.core.phases, done, codes)) && r'.core.running == r.core.running - done
  {
    assert done - {} == done;
  }

  lemma {:induction false} Gathered(a: S.Store, r: Run, steps: seq<Step>, b: S.Store, r': Run, done: set<string>, todo: set<string>, codes: P.Codes,
                                    j: string, more: seq<Step>, c: S.Store, r'': Run)
    requires GatheringLeg(a, r, steps, b, r', done, todo, codes) && j in todo && j in r'.plan
    requires Leg(b, r', more, c, r'', {Done(j, codes(j, r'.core.phases[j].attempt))})
    requires r''.core == Finalized(r'.plan, r'.cfg, r'.core, j, codes(j, r'.core.phases[j].attempt))
    ensures GatheringLeg(a, r, steps + more, c, r'', done, todo - {j}, codes)
  {
    var results := Results(r.core.phases, done - todo, codes);
    LegConcat(a, r, steps, b, r', more, c, r'', results, {Done(j, codes(j, r'.core.phases[j].attempt))});
    assert done - (todo - {j}) == (done - todo) + {j};
    assert Results(r.core.phases, (done - todo) + {j}, codes) == results + {Done(j, codes(j, r.core.phases[j].attempt))};
  }

  /** After the heartbeats: the results of finished slices, one propagation, and an attempt at every slice
      that is to be tried at the end. */
  ghost predicate RoundDecides(decided: set<Action>, results: set<Action>, r': Run) {
    && r'.core.phases.Keys == r'.plan.Keys
    && (forall a :: a in results <==> a.Done? && a in decided)
    && Propagate in decided && (forall a | a in decided :: a.Done? || a.Propagate? || a.TryJob?)
    && forall j | j in r'.plan && Tries(r'.plan, r'.cfg, r'.core, j) :: TryJob(j) in decided
  }

  lemma {:induction false} RoundDecided(results: set<Action>, tries: set<Action>, r': Run)
    requires (forall a | a in results :: a.Done?) && Lists(r'.plan, r'.names)
    requires Covered(r'.plan, r'.cfg, r'.core, r'.names, |r'.names|, tries)
    ensures RoundDecides(results + {Propagate} + tries, results, r')
  {
  }

  /** One pass from `r` to `r'` beats all that `r` holds and decides nothing but that and the above. */
  ghost predicate PassDecides(decided: set<Action>, r: Run, results: set<Action>, r': Run) {
    AllBeats(r, (set a | a in decided && a.Beat?)) && RoundDecides((set a | a in decided && !a.Beat?), results, r')
  }

  lemma {:induction false} AllDecided(x: seq<Step>, y: seq<Step>, r: Run, results: set<Action>, r': Run)
    requires AllBeats(r, Decisions(x)) && RoundDecides(Decisions(y), results, r')
    ensures PassDecides(Decisions(x + y), r, results, r')
  {
    DecisionsConcat(x, y);
    assert (set a | a in Decisions(x + y) && a.Beat?) == Decisions(x);
    assert (set a | a in Decisions(x + y) && !a.Beat?) == Decisions(y);
  }

  // ---- giving locks back ----

  /** `cur` gives back locks of slice `j`, and its releases carry these details. */
  ghost predicate Returns(cur: Run, j: string, details: string) {
    && WellTyped(cur) && cur.activity.GivesBack() && cur.activity.job == j
    && details == if cur.activity.RollingBack? then "rollback-partial-acquire" else "slice-finished"
  }

  lemma {:induction false} ReleaseLeg(a: S.Store, r: Run, steps: seq<Step>, b: S.Store, cur: Run, j: string, details: string,
                                      requests: seq<Request>, i: nat, c: S.Call)
    returns (end: Run)
    requires Returns(cur, j, details) && i < |requests| && Leg(a, r, steps, b, Left(cur, requests[i..]), {}) && S.Enabled(b, c)
    requires c.op == S.Op.Release(requests[i].name, cur.Me(j), details)
    ensures
      var o, steps' := S.Step(b, c).1, steps + [Of(0, Proceed, c)];
      if o.Raised() then Leg(a, r, steps', S.Next(b, c), end, {}) && Crashed(cur, end)
      else Leg(a, r, steps', S.Next(b, c), Left(cur, requests[i + 1..]), {})
  {
    var at := Left(cur, requests[i..]);
    assert requests[i..][1..] == requests[i + 1..];
    Extend(a, r, steps, b, at, {}, Proceed, c);
    StoppedCrashed(at);
    end := Stopped(at);
  }

  /** A history is a legal sequence of store operations. */
  lemma {:induction false} HistoryLeads(s: State, steps: seq<Step>)
    requires Possible(s, steps)
    ensures Leads(s.store, StoreCalls(s, steps), After(s, steps).store)
    decreases steps
  {
    if steps != [] {
      var s', rest := Next(s, steps[0]), StoreCalls(Next(s, steps[0]), steps[1..]);
      HistoryLeads(s', steps[1..]);
      if Calls(s, steps[0]) {
        CallLeads(s.store, steps[0].call);
        LeadsConcat(s.store, [steps[0].call], s'.store, rest, After(s', steps[1..]).store);
      } else {
        assert s'.store == s.store && [] + rest == rest;
      }
    }
  }

  lemma {:induction false} CallLeads(store: S.Store, c: S.Call)
    requires S.Enabled(store, c)
    ensures Leads(store, [c], S.Next(store, c))
  {
    LeadsSnoc(store, [], store, c);
    assert [] + [c] == [c];
  }

  function Relabeled(steps: seq<Step>, i: nat): seq<Step> {
    seq(|steps|, k requires 0 <= k < |steps| => match steps[k] case Of(_, a, c) => Of(i, a, c) case Stranger(c) => Stranger(c))
  }

  /** A path of run `i` is a piece of a history of the whole cluster, in which nothing else changes: the
      passes of several schedulers over one store, in any order, make up such a history. */
  lemma {:induction false} PathLifts(s: State, i: nat, steps: seq<Step>, b: S.Store, r': Run)
    requires i < |s.runs| && Path(s.store, s.runs[i], steps, b, r')
    ensures Possible(s, Relabeled(steps, i)) && After(s, Relabeled(steps, i)) == State(b, s.runs[i := r'])
    decreases steps
  {
    if steps == [] {
      assert s.runs[i := s.runs[i]] == s.runs;
    } else {
      StepLifts(s, i, steps[0]);
      var t := Of(i, steps[0].action, steps[0].call);
      var s', q := Next(s, t), Next(State(s.store, [s.runs[i]]), steps[0]);
      assert q == State(s'.store, [s'.runs[i]]);
      PathLifts(s', i, steps[1..], b, r');
      StepThen(s, t, Relabeled(steps[1..], i));
      assert Relabeled(steps, i) == [t] + Relabeled(steps[1..], i);
    }
  }

  lemma {:induction false} StepLifts(s: State, i: nat, t: Step)
    requires i < |s.runs| && t.Of? && Enabled(State(s.store, [s.runs[i]]), t)
    ensures
      var u, q := Of(i, t.action, t.call), Next(State(s.store, [s.runs[i]]), t);
      Enabled(s, u) && Next(s, u) == State(q.store, s.runs[i := q.runs[0]]) && |q.runs| == 1
  {
  }
}
