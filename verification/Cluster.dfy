/** Several scheduler runs over one lock store. Each run performs its store operations one at a time, and
    the operations of different runs, of crashed and resumed runs and of strangers interleave in any
    order. */
module Cluster {
  import opened Wrappers
  import opened SlicePlan
  import opened JobPhases
  import opened SchedulerCore
  import R = SchedulerRuns
  import S = LockStore

  // ---- one run ----

  /** Where the loop of a run stands between two store operations. */
  datatype Activity =
    | Idle
    | Taking(job: string, granted: seq<Request>, todo: seq<Request>)
    | RollingBack(job: string, todo: seq<Request>)
    | Releasing(job: string, rc: int, todo: seq<Request>)
    | Halted
  {
    predicate Busy() { Taking? || RollingBack? || Releasing? }

    predicate GivesBack() { RollingBack? || Releasing? }
  }

  /** `gone` are the slices of a halted run that have ended since: the exception leaves the loop, but the
      executor still waits for its futures. */
  datatype Run = Run(
    id: string, feature: string, plan: Plan, cfg: Config, names: seq<string>,
    core: Core, acquired: map<string, seq<Request>>, activity: Activity, gone: set<string>)
  {
    function Me(j: string): (o: S.Owner)
      ensures o.runId == id && o.feature == feature && o.slice == j
    {
      S.Owner(id, feature, j)
    }
  }

  /** The slices whose work is going on. A slice whose locks are being released has finished. */
  function Executing(r: Run): set<string> {
    r.core.running - r.gone - if r.activity.Releasing? then {r.activity.job} else {}
  }

  datatype Action =
    | Beat(job: string, k: nat)
    | Done(job: string, rc: int)
    | Propagate
    | TryJob(job: string)
    | Proceed
    | Halt
    | SliceEnds(job: string)
    | Restart

  ghost predicate Able(r: Run, a: Action)
    requires r.core.phases.Keys == r.plan.Keys
  {
    match a
    case Beat(j, k) => r.activity.Idle? && j in r.core.running && j in r.acquired && k < |r.acquired[j]|
    case Done(j, _) => r.activity.Idle? && j in r.core.running && j in r.plan && j in r.acquired
    case Propagate => r.activity.Idle?
    case TryJob(j) => r.activity.Idle? && j in r.plan && r.core.phases[j].status == Pending && Gate(r.plan, r.cfg, r.core, j)
    case Proceed => r.activity.Busy() && r.activity.todo != []
    case Halt => true
    case SliceEnds(j) => r.activity.Halted? && j in Executing(r)
    case Restart => r.activity.Halted? && Executing(r) == {}
  }

  /** The store operation that an action performs. */
  ghost function OpOf(r: Run, a: Action): Option<S.Op>
    requires r.core.phases.Keys == r.plan.Keys && Able(r, a)
  {
    match a
    case Beat(j, k) => Some(S.Op.Heartbeat(r.acquired[j][k].name, r.Me(j), r.cfg.lockTtl, "scheduler-heartbeat"))
    case TryJob(_) => Some(S.Op.ExpireStale)
    case Proceed =>
      (match r.activity
       case Taking(j, _, todo) =>
         Some(S.Op.Acquire(todo[0].name, todo[0].scope, todo[0].repo, r.Me(j), r.cfg.lockTtl, "scheduler-acquire"))
       case RollingBack(j, todo) => Some(S.Op.Release(todo[0].name, r.Me(j), "rollback-partial-acquire"))
       case Releasing(j, _, todo) => Some(S.Op.Release(todo[0].name, r.Me(j), "slice-finished")))
    case _ => None
  }

  /** One more request is granted; with the last one the slice starts. */
  function Granted(r: Run): Run
    requires r.activity.Taking? && r.activity.todo != [] && r.activity.job in r.plan && r.activity.job in r.core.phases
  {
    var Taking(j, granted, todo) := r.activity;
    if |todo| == 1 then Started(r, j, granted + todo)
    else r.(activity := Taking(j, granted + [todo[0]], todo[1..]))
  }

  function Started(r: Run, j: string, all: seq<Request>): Run
    requires j in r.plan && j in r.core.phases
  {
    r.(core := Began(r.plan, r.core, j), acquired := r.acquired[j := all], activity := Idle)
  }

  /** `todo` is left to release; after the last one a rolled back slice waits again, and the return code
      of a finished one is recorded. */
  function Left(r: Run, todo: seq<Request>): Run
    requires r.activity.GivesBack() && r.activity.job in r.plan && r.activity.job in r.core.phases
  {
    match r.activity
    case RollingBack(j, _) => r.(activity := if todo == [] then Idle else RollingBack(j, todo))
    case Releasing(j, rc, _) =>
      if todo == [] then r.(core := Finalized(r.plan, r.cfg, r.core, j, rc), acquired := r.acquired[j := []], activity := Idle)
      else r.(activity := Releasing(j, rc, todo))
  }

  /** The loop is left by an exception; what is executing goes on. */
  function Stopped(r: Run): Run {
    r.(activity := Halted, gone := r.core.running - Executing(r))
  }

  /** A resumed run: the plan from the beginning, under the identity from before. */
  function Resumed(r: Run): Run {
    r.(core := Fresh(r.plan), acquired := map[], activity := Idle, gone := {})
  }

  ghost predicate WellTyped(r: Run) {
    && WellFormed(r.plan) && Lists(r.plan, r.names) && r.core.phases.Keys == r.plan.Keys
    && (r.activity.Busy() ==> r.activity.job in r.plan)
  }

  /** The run after an action whose store operation had outcome `o`. An operation that raises ends the
      run, and its leases stay in the store. */
  ghost function React(r: Run, a: Action, o: S.Outcome): Run
    requires WellTyped(r) && Able(r, a)
  {
    if OpOf(r, a).Some? && o.Raised() then Stopped(r)
    else
      match a
      case Beat(_, _) => r
      case Done(j, rc) => Left(r.(activity := Releasing(j, rc, r.acquired[j])), r.acquired[j])
      case Propagate => r.(core := PassBlocked(r.plan, r.core, r.names))
      case TryJob(j) => r.(activity := Taking(j, [], GlobalLockRequests(r.plan[j])))
      case Proceed =>
        if r.activity.GivesBack() then Left(r, r.activity.todo[1..])
        else if o.Grants() then Granted(r)
        else Left(r.(activity := RollingBack(r.activity.job, r.activity.granted)), r.activity.granted)
      case Halt => Stopped(r)
      case SliceEnds(j) => r.(gone := r.gone + {j})
      case Restart => Resumed(r)
  }

  // ---- the cluster ----

  datatype State = State(store: S.Store, runs: seq<Run>)

  /** Step of run `i`, or a call by someone who is not one of the runs. */
  datatype Step = Of(i: nat, action: Action, call: S.Call) | Stranger(call: S.Call)

  /** No two runs share an owner: runs of one id and feature have no slice name in common. */
  ghost predicate Identities(runs: seq<Run>) {
    forall i, k, j | 0 <= i < k < |runs| && j in runs[i].plan && j in runs[k].plan :: runs[i].Me(j) != runs[k].Me(j)
  }

  /** The call does not act for slice of the run. */
  ghost predicate NotFor(r: Run, op: S.Op) {
    op.ExpireStale? || forall j | j in r.plan :: op.owner != r.Me(j)
  }

  ghost predicate Enabled(s: State, t: Step)
  {
    match t
    case Of(i, a, c) =>
      && i < |s.runs| && WellTyped(s.runs[i]) && Able(s.runs[i], a)
      && (OpOf(s.runs[i], a).Some? ==> c.op == OpOf(s.runs[i], a).value && S.Enabled(s.store, c))
    case Stranger(c) => (forall i | 0 <= i < |s.runs| :: NotFor(s.runs[i], c.op)) && S.Enabled(s.store, c)
  }

  /** The step performs a store operation. */
  ghost predicate Calls(s: State, t: Step)
    requires Enabled(s, t)
  {
    t.Of? ==> OpOf(s.runs[t.i], t.action).Some?
  }

  /** The outcome that the step hands to its run. */
  ghost function OutcomeOf(s: State, t: Step): S.Outcome
    requires Enabled(s, t)
  {
    if Calls(s, t) then S.Step(s.store, t.call).1 else S.Swept
  }

  ghost function StoreAfter(s: State, t: Step): S.Store
    requires Enabled(s, t)
  {
    if Calls(s, t) then S.Next(s.store, t.call) else s.store
  }

  ghost function Next(s: State, t: Step): (s': State)
    requires Enabled(s, t)
    ensures |s'.runs| == |s.runs|
  {
    State(StoreAfter(s, t), if t.Of? then s.runs[t.i := React(s.runs[t.i], t.action, OutcomeOf(s, t))] else s.runs)
  }

  ghost predicate Possible(s: State, steps: seq<Step>)
    decreases steps
  {
    steps == [] || (Enabled(s, steps[0]) && Possible(Next(s, steps[0]), steps[1..]))
  }

  ghost function After(s: State, steps: seq<Step>): (s': State)
    requires Possible(s, steps)
    ensures |s'.runs| == |s.runs|
    decreases steps
  {
    if steps == [] then s else After(Next(s, steps[0]), steps[1..])
  }

  /** The calls of a history, in order. */
  ghost function StoreCalls(s: State, steps: seq<Step>): seq<S.Call>
    requires Possible(s, steps)
    decreases steps
  {
    if steps == [] then []
    else (if Calls(s, steps[0]) then [steps[0].call] else []) + StoreCalls(Next(s, steps[0]), steps[1..])
  }

  // ---- leases in use ----

  /** Slice `j` of the run relies on lock `n`: it executes with it, or is about to. */
  ghost predicate Keeps(r: Run, j: string, n: string) {
    || (j in Executing(r) && j in r.acquired && exists q :: q in r.acquired[j] && q.name == n)
    || (r.activity.Taking? && r.activity.job == j && exists q :: q in r.activity.granted && q.name == n)
  }

  /** Slice `j` of the run is about to release lock `n`. */
  ghost predicate Frees(r: Run, j: string, n: string) {
    r.activity.GivesBack() && r.activity.job == j && exists q :: q in r.activity.todo && q.name == n
  }

  /** Every lease in use is heartbeated in time: none has lapsed when a store operation reads the clock. */
  ghost predicate Timely(s: State, now: int) {
    forall i, j, n | 0 <= i < |s.runs| && Keeps(s.runs[i], j, n) && n in s.store.rows :: now < s.store.rows[n].expiresAt
  }

  ghost predicate TimelyThroughout(s: State, steps: seq<Step>)
    requires Possible(s, steps)
    decreases steps
  {
    steps == [] || ((Calls(s, steps[0]) ==> Timely(s, steps[0].call.now)) && TimelyThroughout(Next(s, steps[0]), steps[1..]))
  }

  // ---- histories one after the other ----

  lemma {:induction false} StepThen(s: State, t: Step, rest: seq<Step>)
    requires Enabled(s, t) && Possible(Next(s, t), rest)
    ensures Possible(s, [t] + rest) && After(s, [t] + rest) == After(Next(s, t), rest)
    ensures TimelyThroughout(s, [t] + rest) <==> (Calls(s, t) ==> Timely(s, t.call.now)) && TimelyThroughout(Next(s, t), rest)
  {
    assert ([t] + rest)[1..] == rest;
  }

  lemma {:induction false} FirstApart<T>(a: seq<T>, b: seq<T>)
    requires a != []
    ensures [a[0]] + (a[1..] + b) == a + b
  {
  }

  lemma {:induction false} Chained(s: State, a: seq<Step>, b: seq<Step>)
    requires Possible(s, a) && Possible(After(s, a), b)
    ensures Possible(s, a + b) && After(s, a + b) == After(After(s, a), b)
    decreases a
  {
    if a == [] {
      assert a + b == b;
    } else {
      var rest, s' := a[1..] + b, Next(s, a[0]);
      Chained(s', a[1..], b);
      StepThen(s, a[0], rest);
      FirstApart(a, b);
    }
  }

  lemma {:induction false} TimelyChained(s: State, a: seq<Step>, b: seq<Step>)
    requires Possible(s, a) && Possible(After(s, a), b) && Possible(s, a + b)
    requires TimelyThroughout(s, a) && TimelyThroughout(After(s, a), b)
    ensures TimelyThroughout(s, a + b)
    decreases a
  {
    if a == [] {
      assert a + b == b;
    } else {
      var rest, s' := a[1..] + b, Next(s, a[0]);
      Chained(s', a[1..], b);
      TimelyChained(s', a[1..], b);
      StepThen(s, a[0], rest);
      FirstApart(a, b);
    }
  }

  lemma {:induction false} Concatenated(s: State, a: seq<Step>, b: seq<Step>)
    requires Possible(s, a) && Possible(After(s, a), b)
    ensures Possible(s, a + b) && After(s, a + b) == After(After(s, a), b)
    ensures TimelyThroughout(s, a) && TimelyThroughout(After(s, a), b) ==> TimelyThroughout(s, a + b)
  {
    Chained(s, a, b);
    if TimelyThroughout(s, a) && TimelyThroughout(After(s, a), b) {
      TimelyChained(s, a, b);
    }
  }

  // ---- the invariants ----

  /** A running slice has acquired what it asks for. */
  ghost predicate Equipped(r: Run) {
    && r.core.running <= r.acquired.Keys
    && (forall j | j in r.core.running && j in r.plan && j in r.acquired :: r.acquired[j] == GlobalLockRequests(r.plan[j]))
  }

  ghost predicate ActivityInvariant(r: Run)
    requires WellTyped(r)
  {
    match r.activity
    case Taking(j, granted, todo) =>
      && r.core.phases[j].status == Pending && Gate(r.plan, r.cfg, r.core, j)
      && todo != [] && granted + todo == GlobalLockRequests(r.plan[j])
    case RollingBack(j, todo) => todo != [] && j !in r.core.running
    case Releasing(j, _, todo) => todo != [] && j in r.core.running
    case _ => true
  }

  ghost predicate RunInvariant(r: Run) {
    && WellTyped(r) && Consistent(r.plan, r.cfg, r.core) && Equipped(r) && ActivityInvariant(r)
    && (r.gone != {} ==> r.activity.Halted?)
  }

  ghost predicate RunsInvariant(runs: seq<Run>) {
    Identities(runs) && forall i | 0 <= i < |runs| :: RunInvariant(runs[i])
  }

  /** Leases in use are in the store. */
  ghost predicate InUse(store: S.Store, r: Run) {
    forall j, n | Keeps(r, j, n) :: S.Holds(store, n, r.Me(j))
  }

  /** A run that has not halted owns no other rows. */
  ghost predicate OwnsNoOthers(store: S.Store, r: Run) {
    !r.activity.Halted? ==>
      forall j, n | j in r.plan && S.Holds(store, n, r.Me(j)) :: Keeps(r, j, n) || Frees(r, j, n)
  }

  // ---- the steps of one run ----

  lemma {:induction false} ActivityChanged(r: Run, next: Activity)
    requires RunInvariant(r) && !r.activity.Halted?
    requires next.Busy() ==> next.job in r.plan
    requires ActivityInvariant(r.(activity := next))
    ensures RunInvariant(r.(activity := next))
  {
  }

  lemma {:induction false} StoppedInvariant(r: Run)
    requires RunInvariant(r)
    ensures RunInvariant(Stopped(r))
  {
  }

  lemma {:induction false} ResumedInvariant(r: Run)
    requires RunInvariant(r)
    ensures RunInvariant(Resumed(r))
  {
    FreshConsistent(r.plan, r.cfg);
  }

  lemma {:induction false} PropagateInvariant(r: Run)
    requires RunInvariant(r) && Able(r, Propagate)
    ensures RunInvariant(r.(core := PassBlocked(r.plan, r.core, r.names)))
  {
    PassConsistent(r.plan, r.cfg, r.core, r.names);
  }

  lemma {:induction false} TryInvariant(r: Run, j: string)
    requires RunInvariant(r) && Able(r, TryJob(j))
    ensures RunInvariant(r.(activity := Taking(j, [], GlobalLockRequests(r.plan[j]))))
  {
    ActivityChanged(r, Taking(j, [], GlobalLockRequests(r.plan[j])));
  }

  lemma {:induction false} DoneInvariant(r: Run, j: string, rc: int)
    requires RunInvariant(r) && Able(r, Done(j, rc))
    ensures React(r, Done(j, rc), S.Swept) == r.(activity := Releasing(j, rc, r.acquired[j]))
    ensures RunInvariant(r.(activity := Releasing(j, rc, r.acquired[j])))
  {
    assert r.acquired[j] == GlobalLockRequests(r.plan[j]);
    ActivityChanged(r, Releasing(j, rc, r.acquired[j]));
  }

  lemma {:induction false} RecordedEquipped(r: Run, r': Run, j: string)
    requires Equipped(r) && j in r.core.running
    requires r'.plan == r.plan && r'.core.running == r.core.running - {j} && r'.acquired == r.acquired[j := []]
    ensures Equipped(r')
  {
  }

  lemma {:induction false} RecordedInvariant(r: Run)
    requires RunInvariant(r) && r.activity.Releasing?
    ensures RunInvariant(Left(r, []))
  {
    var Releasing(j, rc, _) := r.activity;
    FinalizeConsistent(r.plan, r.cfg, r.core, j, rc);
    RecordedEquipped(r, Left(r, []), j);
  }

  lemma {:induction false} LeftInvariant(r: Run, todo: seq<Request>)
    requires RunInvariant(r) && r.activity.GivesBack()
    ensures RunInvariant(Left(r, todo))
  {
    if r.activity.RollingBack? {
      ActivityChanged(r, if todo == [] then Idle else RollingBack(r.activity.job, todo));
    } else if todo == [] {
      RecordedInvariant(r);
    } else {
      ActivityChanged(r, Releasing(r.activity.job, r.activity.rc, todo));
    }
  }

  lemma {:induction false} RefusedInvariant(r: Run)
    requires RunInvariant(r) && r.activity.Taking?
    ensures RunInvariant(Left(r.(activity := RollingBack(r.activity.job, r.activity.granted)), r.activity.granted))
  {
    var Taking(j, granted, _) := r.activity;
    assert j !in r.core.running;
    ActivityChanged(r, if granted == [] then Idle else RollingBack(j, granted));
  }

  lemma {:induction false} MoveFirst(granted: seq<Request>, todo: seq<Request>)
    requires todo != []
    ensures (granted + [todo[0]]) + todo[1..] == granted + todo
  {
    assert todo == [todo[0]] + todo[1..];
  }

  lemma {:induction false} TakenInvariant(r: Run, j: string, granted: seq<Request>, todo: seq<Request>)
    requires RunInvariant(r) && r.activity == Taking(j, granted, todo) && |todo| > 1
    ensures RunInvariant(r.(activity := Taking(j, granted + [todo[0]], todo[1..])))
  {
    MoveFirst(granted, todo);
    ActivityChanged(r, Taking(j, granted + [todo[0]], todo[1..]));
  }

  lemma {:induction false} StartEquipped(r: Run, r': Run, j: string, all: seq<Request>)
    requires Equipped(r) && j in r.plan && all == GlobalLockRequests(r.plan[j])
    requires r'.plan == r.plan && r'.core.running == r.core.running + {j} && r'.acquired == r.acquired[j := all]
    ensures Equipped(r')
  {
  }

  lemma {:induction false} IdleInvariant(r: Run)
    requires WellTyped(r) && Consistent(r.plan, r.cfg, r.core) && Equipped(r) && r.activity.Idle? && r.gone == {}
    ensures RunInvariant(r)
  {
  }

  lemma {:induction false} StartTyped(r: Run, j: string, all: seq<Request>)
    requires WellTyped(r) && j in r.plan
    ensures WellTyped(Started(r, j, all))
  {
  }

  lemma {:induction false} StartInvariant(r: Run, j: string, all: seq<Request>)
    requires RunInvariant(r) && !r.activity.Halted?
    requires j in r.plan && r.core.phases[j].status == Pending && Gate(r.plan, r.cfg, r.core, j)
    requires all == GlobalLockRequests(r.plan[j])
    ensures RunInvariant(Started(r, j, all))
  {
    BeginConsistent(r.plan, r.cfg, r.core, j);
    StartEquipped(r, Started(r, j, all), j, all);
    StartTyped(r, j, all);
    IdleInvariant(Started(r, j, all));
  }

  lemma {:induction false} GrantedInvariant(r: Run)
    requires RunInvariant(r) && r.activity.Taking?
    ensures RunInvariant(Granted(r))
  {
    var Taking(j, granted, todo) := r.activity;
    if |todo| == 1 {
      StartInvariant(r, j, granted + todo);
    } else {
      TakenInvariant(r, j, granted, todo);
    }
  }

  lemma {:induction false} ProceedInvariant(r: Run, o: S.Outcome)
    requires RunInvariant(r) && Able(r, Proceed) && !o.Raised()
    ensures RunInvariant(React(r, Proceed, o))
  {
    if r.activity.GivesBack() {
      LeftInvariant(r, r.activity.todo[1..]);
    } else if o.Grants() {
      GrantedInvariant(r);
    } else {
      RefusedInvariant(r);
    }
  }

  lemma {:induction false} LoopInvariant(r: Run, a: Action, o: S.Outcome)
    requires RunInvariant(r) && Able(r, a) && (a.Beat? || a.Done? || a.Propagate? || a.TryJob?)
    requires OpOf(r, a).Some? ==> !o.Raised()
    ensures RunInvariant(React(r, a, o))
  {
    match a
    case Beat(_, _) =>
    case Done(j, rc) => DoneInvariant(r, j, rc);
    case Propagate => PropagateInvariant(r);
    case TryJob(j) => TryInvariant(r, j);
  }

  lemma {:induction false} EndInvariant(r: Run, a: Action, o: S.Outcome)
    requires RunInvariant(r) && Able(r, a)
    requires a.Halt? || a.SliceEnds? || a.Restart? || (OpOf(r, a).Some? && o.Raised())
    ensures RunInvariant(React(r, a, o))
  {
    StoppedInvariant(r);
    ResumedInvariant(r);
  }

  lemma {:induction false} ReactInvariant(r: Run, a: Action, o: S.Outcome)
    requires RunInvariant(r) && Able(r, a)
    ensures RunInvariant(React(r, a, o))
  {
    if a.Halt? || a.SliceEnds? || a.Restart? || (OpOf(r, a).Some? && o.Raised()) {
      EndInvariant(r, a, o);
    } else if a.Proceed? {
      ProceedInvariant(r, o);
    } else {
      LoopInvariant(r, a, o);
    }
  }

  /** What a run never changes. */
  predicate SameRun(r: Run, r': Run) {
    r'.id == r.id && r'.feature == r.feature && r'.plan == r.plan && r'.cfg == r.cfg && r'.names == r.names
  }

  lemma {:induction false} ProceedSame(r: Run, o: S.Outcome)
    requires WellTyped(r) && Able(r, Proceed)
    ensures SameRun(r, React(r, Proceed, o))
  {
    if o.Raised() {
      assert SameRun(r, Stopped(r));
    } else if r.activity.GivesBack() {
      assert SameRun(r, Left(r, r.activity.todo[1..]));
    } else if o.Grants() {
      assert SameRun(r, Granted(r));
    } else {
      assert SameRun(r, Left(r.(activity := RollingBack(r.activity.job, r.activity.granted)), r.activity.granted));
    }
  }

  lemma {:induction false} ReactSame(r: Run, a: Action, o: S.Outcome)
    requires WellTyped(r) && Able(r, a)
    ensures SameRun(r, React(r, a, o))
  {
    if a.Proceed? {
      ProceedSame(r, o);
    }
  }

  lemma {:induction false} IdentitiesKept(runs: seq<Run>, i: nat, r': Run)
    requires Identities(runs) && i < |runs| && SameRun(runs[i], r')
    ensures Identities(runs[i := r'])
  {
  }

  lemma {:induction false} StepRuns(s: State, t: Step)
    requires RunsInvariant(s.runs) && Enabled(s, t)
    ensures RunsInvariant(Next(s, t).runs)
  {
    if t.Of? {
      var r' := React(s.runs[t.i], t.action, OutcomeOf(s, t));
      ReactInvariant(s.runs[t.i], t.action, OutcomeOf(s, t));
      ReactSame(s.runs[t.i], t.action, OutcomeOf(s, t));
      IdentitiesKept(s.runs, t.i, r');
      var runs' := s.runs[t.i := r'];
      forall k | 0 <= k < |runs'| ensures RunInvariant(runs'[k]) {
      }
    }
  }

  /** At every point of every run of the cluster, timely or not, each run keeps the invariant of the
      scheduler core and has acquired what its running slices ask for. */
  lemma {:induction false} RunsConsistent(s: State, steps: seq<Step>)
    requires RunsInvariant(s.runs) && Possible(s, steps)
    ensures RunsInvariant(After(s, steps).runs)
    decreases steps
  {
    if steps != [] {
      StepRuns(s, steps[0]);
      RunsConsistent(Next(s, steps[0]), steps[1..]);
    }
  }

  // ---- what a store operation does to the leases of one owner ----

  lemma {:induction false} LeaseKept(store: S.Store, c: S.Call, n: string, o: S.Owner)
    requires S.Enabled(store, c) && S.Holds(store, n, o) && c.now < store.rows[n].expiresAt
    requires c.op.Release? ==> !S.Addresses(c.op, n, o)
    ensures S.Holds(S.Next(store, c), n, o)
  {
    S.OwnershipStep(store, c, n, o);
  }

  lemma {:induction false} LeaseGained(store: S.Store, c: S.Call, n: string, o: S.Owner)
    requires S.Enabled(store, c) && S.Holds(S.Next(store, c), n, o)
    ensures S.Holds(store, n, o) || (c.op.Acquire? && S.Addresses(c.op, n, o) && S.Step(store, c).1.Grants())
  {
    S.OwnershipStep(store, c, n, o);
  }

  ghost predicate RunTimely(store: S.Store, r: Run, now: int) {
    forall j, n | Keeps(r, j, n) && n in store.rows :: now < store.rows[n].expiresAt
  }

  lemma {:induction false} KeepsInPlan(r: Run, j: string, n: string)
    requires RunInvariant(r) && (Keeps(r, j, n) || Frees(r, j, n))
    ensures j in r.plan
  {
    assert r.core.running == InStatus(r.core.phases, Running);
  }

  /** A call that releases nothing the run keeps leaves all it keeps in the store. */
  lemma {:induction false} CallKeeps(store: S.Store, c: S.Call, r: Run)
    requires S.Enabled(store, c) && InUse(store, r) && RunTimely(store, r, c.now)
    requires c.op.Release? ==> forall j, n | Keeps(r, j, n) :: !S.Addresses(c.op, n, r.Me(j))
    ensures InUse(S.Next(store, c), r)
  {
    forall j, n | Keeps(r, j, n) ensures S.Holds(S.Next(store, c), n, r.Me(j)) {
      LeaseKept(store, c, n, r.Me(j));
    }
  }

  /** A call that grants nothing to the run makes it own nothing new. */
  lemma {:induction false} CallOwns(store: S.Store, c: S.Call, r: Run)
    requires S.Enabled(store, c) && OwnsNoOthers(store, r)
    requires c.op.Acquire? && S.Step(store, c).1.Grants() ==> NotFor(r, c.op)
    ensures OwnsNoOthers(S.Next(store, c), r)
  {
    if !r.activity.Halted? {
      forall j, n | j in r.plan && S.Holds(S.Next(store, c), n, r.Me(j)) ensures Keeps(r, j, n) || Frees(r, j, n) {
        LeaseGained(store, c, n, r.Me(j));
      }
    }
  }

  lemma {:induction false} OthersKeep(store: S.Store, c: S.Call, r: Run)
    requires S.Enabled(store, c) && RunInvariant(r) && InUse(store, r) && RunTimely(store, r, c.now) && NotFor(r, c.op)
    ensures InUse(S.Next(store, c), r)
  {
    if c.op.Release? {
      forall j, n | Keeps(r, j, n) ensures !S.Addresses(c.op, n, r.Me(j)) {
        KeepsInPlan(r, j, n);
      }
    }
    CallKeeps(store, c, r);
  }

  // ---- what an action does to the locks that its run keeps ----

  /** `r'` relies on nothing that `r` does not rely on. */
  ghost predicate KeepsLess(r: Run, r': Run) {
    r'.id == r.id && r'.feature == r.feature && forall j, n | Keeps(r', j, n) :: Keeps(r, j, n)
  }

  /** All that `r` relies on or is about to release, `r'` relies on or is about to release. */
  ghost predicate OwesMore(r: Run, r': Run) {
    && r'.id == r.id && r'.feature == r.feature && r'.plan == r.plan
    && forall j, n | Keeps(r, j, n) || Frees(r, j, n) :: Keeps(r', j, n) || Frees(r', j, n)
  }

  lemma {:induction false} LessInUse(store: S.Store, r: Run, r': Run)
    requires InUse(store, r) && KeepsLess(r, r')
    ensures InUse(store, r')
  {
    forall j, n | Keeps(r', j, n) ensures S.Holds(store, n, r'.Me(j)) {
      assert Keeps(r, j, n) && r'.Me(j) == r.Me(j);
    }
  }

  lemma {:induction false} MoreOwned(store: S.Store, r: Run, r': Run)
    requires OwnsNoOthers(store, r) && OwesMore(r, r') && !r.activity.Halted?
    ensures OwnsNoOthers(store, r')
  {
    forall j, n | j in r'.plan && S.Holds(store, n, r'.Me(j)) ensures Keeps(r', j, n) || Frees(r', j, n) {
      assert r'.Me(j) == r.Me(j) && (Keeps(r, j, n) || Frees(r, j, n));
    }
  }

  lemma {:induction false} StoppedKeeps(r: Run)
    requires RunInvariant(r)
    ensures Executing(Stopped(r)) == Executing(r) && KeepsLess(r, Stopped(r))
  {
    assert Executing(Stopped(r)) == Executing(r);
  }

  lemma {:induction false} TryKeeps(r: Run, j: string, todo: seq<Request>)
    requires r.activity.Idle?
    ensures KeepsLess(r, r.(activity := Taking(j, [], todo))) && OwesMore(r, r.(activity := Taking(j, [], todo)))
  {
    var r' := r.(activity := Taking(j, [], todo));
    forall k, n ensures Keeps(r', k, n) == Keeps(r, k, n) && !Frees(r, k, n) {
    }
  }

  lemma {:induction false} DoneKeeps(r: Run, j: string, rc: int)
    requires r.activity.Idle? && j in r.acquired
    ensures var r' := r.(activity := Releasing(j, rc, r.acquired[j])); KeepsLess(r, r') && OwesMore(r, r')
  {
    var r' := r.(activity := Releasing(j, rc, r.acquired[j]));
    forall k, n ensures (Keeps(r', k, n) ==> Keeps(r, k, n)) && (Keeps(r, k, n) ==> Keeps(r', k, n) || Frees(r', k, n)) && !Frees(r, k, n) {
    }
  }

  lemma {:induction false} PropagateKeeps(r: Run, core: Core)
    requires core.running == r.core.running
    ensures KeepsLess(r, r.(core := core)) && OwesMore(r, r.(core := core))
  {
    var r' := r.(core := core);
    forall k, n ensures Keeps(r', k, n) == Keeps(r, k, n) && Frees(r', k, n) == Frees(r, k, n) {
    }
  }

  lemma {:induction false} EndsKeeps(r: Run, j: string)
    ensures KeepsLess(r, r.(gone := r.gone + {j})) && KeepsLess(r, Resumed(r))
  {
    var r' := r.(gone := r.gone + {j});
    forall k, n ensures Keeps(r', k, n) ==> Keeps(r, k, n) {
    }
    forall k, n ensures !Keeps(Resumed(r), k, n) {
    }
  }

  /** A refused request turns the leases taken so far into leases to release. */
  lemma {:induction false} RefusedKeeps(r: Run)
    requires r.activity.Taking? && r.activity.job in r.plan && r.activity.job in r.core.phases && r.activity.job !in r.core.running
    ensures
      var r' := Left(r.(activity := RollingBack(r.activity.job, r.activity.granted)), r.activity.granted);
      KeepsLess(r, r') && OwesMore(r, r')
  {
    var r' := Left(r.(activity := RollingBack(r.activity.job, r.activity.granted)), r.activity.granted);
    forall k, n ensures (Keeps(r', k, n) ==> Keeps(r, k, n)) && (Keeps(r, k, n) ==> Keeps(r', k, n) || Frees(r', k, n)) && !Frees(r, k, n) {
    }
  }

  lemma {:induction false} LeftKeeps(r: Run, todo: seq<Request>)
    requires r.activity.GivesBack() && r.activity.job in r.plan && r.activity.job in r.core.phases
    requires r.activity.RollingBack? ==> r.activity.job !in r.core.running
    ensures KeepsLess(r, Left(r, todo))
    ensures forall j, n | Keeps(r, j, n) :: Keeps(Left(r, todo), j, n) && j != r.activity.job
    ensures forall n :: Frees(Left(r, todo), r.activity.job, n) <==> exists q :: q in todo && q.name == n
  {
    var r' := Left(r, todo);
    forall j, n ensures (Keeps(r', j, n) <==> Keeps(r, j, n)) && (Keeps(r, j, n) ==> j != r.activity.job) {
    }
  }

  /** What the run relies on after a grant: what it relied on before, and the lock just granted. */
  lemma {:induction false} GrantedKeeps(r: Run, j: string, n: string)
    requires r.activity.Taking? && r.activity.todo != [] && r.activity.job in r.plan && r.activity.job in r.core.phases
    requires r.activity.job !in r.core.running && r.gone == {}
    ensures Keeps(Granted(r), j, n) <==> Keeps(r, j, n) || (j == r.activity.job && n == r.activity.todo[0].name)
    ensures !Frees(Granted(r), j, n) && !Frees(r, j, n)
  {
    var Taking(job, granted, todo) := r.activity;
    if |todo| == 1 {
      assert todo == [todo[0]];
    }
    assert forall q :: q in granted + [todo[0]] <==> q in granted || q == todo[0];
  }

  // ---- the leases of the run that steps ----

  ghost predicate ActsFor(r: Run, a: Action, c: S.Call)
    requires WellTyped(r) && Able(r, a)
  {
    OpOf(r, a).Some? && c.op == OpOf(r, a).value
  }

  lemma {:induction false} TakingFacts(r: Run)
    requires RunInvariant(r) && r.activity.Taking?
    ensures r.activity.todo != [] && r.activity.job in r.core.phases && r.activity.job !in r.core.running && r.gone == {}
  {
  }

  lemma {:induction false} GrantedInUse(store: S.Store, c: S.Call, r: Run)
    requires S.Enabled(store, c) && InUse(store, r) && RunTimely(store, r, c.now)
    requires r.activity.Taking? && r.activity.todo != [] && r.activity.job in r.plan && r.activity.job in r.core.phases
    requires r.activity.job !in r.core.running && r.gone == {}
    requires c.op.Acquire? && S.Addresses(c.op, r.activity.todo[0].name, r.Me(r.activity.job)) && S.Step(store, c).1.Grants()
    ensures InUse(S.Next(store, c), Granted(r))
  {
    var r' := Granted(r);
    CallKeeps(store, c, r);
    forall j, n | Keeps(r', j, n) ensures S.Holds(S.Next(store, c), n, r'.Me(j)) {
      GrantedKeeps(r, j, n);
    }
  }

  lemma {:induction false} GrantedOwns(store: S.Store, c: S.Call, r: Run)
    requires S.Enabled(store, c) && RunInvariant(r) && OwnsNoOthers(store, r) && r.activity.Taking?
    requires c.op.Acquire? && S.Addresses(c.op, r.activity.todo[0].name, r.Me(r.activity.job)) && S.Step(store, c).1.Grants()
    ensures OwnsNoOthers(S.Next(store, c), Granted(r))
  {
    TakingFacts(r);
    var r' := Granted(r);
    forall j, n | j in r'.plan && S.Holds(S.Next(store, c), n, r'.Me(j)) ensures Keeps(r', j, n) {
      GrantedKeeps(r, j, n);
      LeaseGained(store, c, n, r.Me(j));
    }
  }

  lemma {:induction false} FreedInUse(store: S.Store, c: S.Call, r: Run)
    requires S.Enabled(store, c) && RunInvariant(r) && InUse(store, r) && RunTimely(store, r, c.now) && r.activity.GivesBack()
    requires c.op.Release? && c.op.owner == r.Me(r.activity.job)
    ensures InUse(S.Next(store, c), Left(r, r.activity.todo[1..]))
  {
    var todo := r.activity.todo[1..];
    LeftKeeps(r, todo);
    forall j, n | Keeps(r, j, n) ensures !S.Addresses(c.op, n, r.Me(j)) {
      assert j != r.activity.job;
    }
    CallKeeps(store, c, r);
    LessInUse(S.Next(store, c), r, Left(r, todo));
  }

  lemma {:induction false} FreedOwns(store: S.Store, c: S.Call, r: Run)
    requires S.Enabled(store, c) && RunInvariant(r) && OwnsNoOthers(store, r) && r.activity.GivesBack()
    requires c.op.Release? && S.Addresses(c.op, r.activity.todo[0].name, r.Me(r.activity.job)) && !S.Step(store, c).1.Raised()
    ensures OwnsNoOthers(S.Next(store, c), Left(r, r.activity.todo[1..]))
  {
    var job, todo := r.activity.job, r.activity.todo;
    var r' := Left(r, todo[1..]);
    LeftKeeps(r, todo[1..]);
    forall j, n | j in r'.plan && S.Holds(S.Next(store, c), n, r'.Me(j)) ensures Keeps(r', j, n) || Frees(r', j, n) {
      LeaseGained(store, c, n, r.Me(j));
      assert Keeps(r, j, n) || Frees(r, j, n);
      if !Keeps(r, j, n) {
        assert j == job && n != todo[0].name;
        assert todo == [todo[0]] + todo[1..];
      }
    }
  }

  lemma {:induction false} ProceedInUse(store: S.Store, c: S.Call, r: Run)
    requires RunInvariant(r) && InUse(store, r) && Able(r, Proceed) && RunTimely(store, r, c.now)
    requires ActsFor(r, Proceed, c) && S.Enabled(store, c) && !S.Step(store, c).1.Raised()
    ensures InUse(S.Next(store, c), React(r, Proceed, S.Step(store, c).1))
  {
    if r.activity.GivesBack() {
      FreedInUse(store, c, r);
    } else if S.Step(store, c).1.Grants() {
      TakingFacts(r);
      GrantedInUse(store, c, r);
    } else {
      TakingFacts(r);
      CallKeeps(store, c, r);
      RefusedKeeps(r);
      LessInUse(S.Next(store, c), r, Left(r.(activity := RollingBack(r.activity.job, r.activity.granted)), r.activity.granted));
    }
  }

  lemma {:induction false} ProceedOwns(store: S.Store, c: S.Call, r: Run)
    requires RunInvariant(r) && OwnsNoOthers(store, r) && Able(r, Proceed)
    requires ActsFor(r, Proceed, c) && S.Enabled(store, c) && !S.Step(store, c).1.Raised()
    ensures OwnsNoOthers(S.Next(store, c), React(r, Proceed, S.Step(store, c).1))
  {
    if r.activity.GivesBack() {
      FreedOwns(store, c, r);
    } else if S.Step(store, c).1.Grants() {
      GrantedOwns(store, c, r);
    } else {
      TakingFacts(r);
      CallOwns(store, c, r);
      RefusedKeeps(r);
      MoreOwned(S.Next(store, c), r, Left(r.(activity := RollingBack(r.activity.job, r.activity.granted)), r.activity.granted));
    }
  }

  lemma {:induction false} CallInUse(store: S.Store, c: S.Call, r: Run, a: Action)
    requires RunInvariant(r) && InUse(store, r) && Able(r, a) && RunTimely(store, r, c.now)
    requires ActsFor(r, a, c) && S.Enabled(store, c)
    ensures InUse(S.Next(store, c), React(r, a, S.Step(store, c).1))
  {
    if S.Step(store, c).1.Raised() {
      S.OwnershipStep(store, c, "", r.Me(""));
      StoppedKeeps(r);
      LessInUse(store, r, Stopped(r));
    } else if a.Beat? {
      CallKeeps(store, c, r);
    } else if a.TryJob? {
      CallKeeps(store, c, r);
      TryKeeps(r, a.job, GlobalLockRequests(r.plan[a.job]));
      LessInUse(S.Next(store, c), r, React(r, a, S.Step(store, c).1));
    } else {
      ProceedInUse(store, c, r);
    }
  }

  lemma {:induction false} CallOwned(store: S.Store, c: S.Call, r: Run, a: Action)
    requires RunInvariant(r) && OwnsNoOthers(store, r) && Able(r, a)
    requires ActsFor(r, a, c) && S.Enabled(store, c)
    ensures OwnsNoOthers(S.Next(store, c), React(r, a, S.Step(store, c).1))
  {
    if !S.Step(store, c).1.Raised() {
      if a.Proceed? {
        ProceedOwns(store, c, r);
      } else {
        CallOwns(store, c, r);
        if a.TryJob? {
          TryKeeps(r, a.job, GlobalLockRequests(r.plan[a.job]));
          MoreOwned(S.Next(store, c), r, React(r, a, S.Step(store, c).1));
        }
      }
    }
  }

  lemma {:induction false} QuietInUse(store: S.Store, r: Run, a: Action)
    requires RunInvariant(r) && InUse(store, r) && Able(r, a) && OpOf(r, a).None?
    ensures InUse(store, React(r, a, S.Swept))
  {
    match a {
      case Done(j, rc) => DoneInvariant(r, j, rc); DoneKeeps(r, j, rc);
      case Propagate => PropagateKeeps(r, PassBlocked(r.plan, r.core, r.names));
      case Halt => StoppedKeeps(r);
      case SliceEnds(j) => EndsKeeps(r, j);
      case Restart => EndsKeeps(r, "");
    }
    LessInUse(store, r, React(r, a, S.Swept));
  }

  lemma {:induction false} QuietOwned(store: S.Store, r: Run, a: Action)
    requires RunInvariant(r) && OwnsNoOthers(store, r) && Able(r, a) && OpOf(r, a).None? && !a.Restart?
    ensures OwnsNoOthers(store, React(r, a, S.Swept))
  {
    match a {
      case Done(j, rc) =>
        DoneInvariant(r, j, rc);
        DoneKeeps(r, j, rc);
        MoreOwned(store, r, React(r, a, S.Swept));
      case Propagate =>
        PropagateKeeps(r, PassBlocked(r.plan, r.core, r.names));
        MoreOwned(store, r, React(r, a, S.Swept));
      case _ =>
    }
  }

  lemma {:induction false} OpOwner(r: Run, a: Action)
    requires RunInvariant(r) && Able(r, a) && OpOf(r, a).Some?
    ensures OpOf(r, a).value.ExpireStale? || exists j :: j in r.plan && OpOf(r, a).value.owner == r.Me(j)
  {
    assert r.core.running == InStatus(r.core.phases, Running);
  }

  /** The call of a step is not for any run but the one that steps. */
  lemma {:induction false} StepNotFor(s: State, t: Step, k: nat)
    requires RunsInvariant(s.runs) && Enabled(s, t) && Calls(s, t) && k < |s.runs| && (t.Of? ==> k != t.i)
    ensures NotFor(s.runs[k], t.call.op)
  {
    if t.Of? && !t.call.op.ExpireStale? {
      OpOwner(s.runs[t.i], t.action);
    }
  }

  ghost predicate AllInUse(s: State) {
    forall i | 0 <= i < |s.runs| :: InUse(s.store, s.runs[i])
  }

  lemma {:induction false} StepInUse(s: State, t: Step, k: nat)
    requires RunsInvariant(s.runs) && AllInUse(s) && Enabled(s, t) && (Calls(s, t) ==> Timely(s, t.call.now)) && k < |s.runs|
    ensures InUse(Next(s, t).store, Next(s, t).runs[k])
  {
    var r := s.runs[k];
    if t.Of? && t.i == k {
      if Calls(s, t) {
        CallInUse(s.store, t.call, r, t.action);
      } else {
        QuietInUse(s.store, r, t.action);
      }
    } else if Calls(s, t) {
      StepNotFor(s, t, k);
      OthersKeep(s.store, t.call, r);
    }
  }

  lemma {:induction false} StepOwned(s: State, t: Step, k: nat)
    requires RunsInvariant(s.runs) && Enabled(s, t) && k < |s.runs| && OwnsNoOthers(s.store, s.runs[k])
    requires !(t.Of? && t.i == k && t.action.Restart?)
    ensures OwnsNoOthers(Next(s, t).store, Next(s, t).runs[k])
  {
    var r := s.runs[k];
    if t.Of? && t.i == k {
      if Calls(s, t) {
        CallOwned(s.store, t.call, r, t.action);
      } else {
        QuietOwned(s.store, r, t.action);
      }
    } else if Calls(s, t) {
      StepNotFor(s, t, k);
      CallOwns(s.store, t.call, r);
    }
  }

  // ---- mutual exclusion across runs ----

  ghost predicate FreshRun(r: Run) {
    WellTyped(r) && r.core == Fresh(r.plan) && r.acquired == map[] && r.activity == Idle && r.gone == {}
  }

  /** Fresh runs, no two of which share an owner. The store may hold anything, leases of theirs included:
      a resumed run finds what it left behind. */
  ghost predicate Initially(s: State) {
    Identities(s.runs) && forall i | 0 <= i < |s.runs| :: FreshRun(s.runs[i])
  }

  lemma {:induction false} FreshRunInvariant(store: S.Store, r: Run)
    requires FreshRun(r)
    ensures RunInvariant(r) && InUse(store, r)
  {
    FreshConsistent(r.plan, r.cfg);
  }

  lemma {:induction false} InitialInvariant(s: State)
    requires Initially(s)
    ensures RunsInvariant(s.runs) && AllInUse(s)
  {
    forall i | 0 <= i < |s.runs| ensures RunInvariant(s.runs[i]) && InUse(s.store, s.runs[i]) {
      FreshRunInvariant(s.store, s.runs[i]);
    }
  }

  /** Every store operation of every run keeps the leases in use in the store. */
  lemma {:induction false} StepInvariant(s: State, t: Step)
    requires RunsInvariant(s.runs) && AllInUse(s) && Enabled(s, t) && (Calls(s, t) ==> Timely(s, t.call.now))
    ensures RunsInvariant(Next(s, t).runs) && AllInUse(Next(s, t))
  {
    StepRuns(s, t);
    forall k | 0 <= k < |s.runs| ensures InUse(Next(s, t).store, Next(s, t).runs[k]) {
      StepInUse(s, t, k);
    }
  }

  lemma {:induction false} InvariantAfter(s: State, steps: seq<Step>)
    requires RunsInvariant(s.runs) && AllInUse(s) && Possible(s, steps) && TimelyThroughout(s, steps)
    ensures RunsInvariant(After(s, steps).runs) && AllInUse(After(s, steps))
    decreases steps
  {
    if steps != [] {
      StepInvariant(s, steps[0]);
      InvariantAfter(Next(s, steps[0]), steps[1..]);
    }
  }

  lemma {:induction false} ExecutingHolds(store: S.Store, r: Run, j: string, n: string)
    requires RunInvariant(r) && InUse(store, r) && j in Executing(r) && j in r.plan && Asks(r.plan[j], n)
    ensures S.Holds(store, n, r.Me(j))
  {
    var q :| q in GlobalLockRequests(r.plan[j]) && q.name == n;
    assert r.acquired[j] == GlobalLockRequests(r.plan[j]);
    assert Keeps(r, j, n);
  }

  lemma {:induction false} ExclusiveNow(s: State, i: nat, j: string, k: nat, l: string)
    requires RunsInvariant(s.runs) && AllInUse(s) && i < |s.runs| && k < |s.runs|
    requires j in Executing(s.runs[i]) && j in s.runs[i].plan && l in Executing(s.runs[k]) && l in s.runs[k].plan
    requires Compete(s.runs[i].plan[j], s.runs[k].plan[l])
    ensures i == k && j == l
  {
    CompeteExactly(s.runs[i].plan[j], s.runs[k].plan[l]);
    var n :| Asks(s.runs[i].plan[j], n) && Asks(s.runs[k].plan[l], n);
    ExecutingHolds(s.store, s.runs[i], j, n);
    ExecutingHolds(s.store, s.runs[k], l, n);
    assert s.runs[i].Me(j) == s.runs[k].Me(l);
  }

  /** Mutual exclusion. Over any store, any number of runs that share no owner, interleaved in any order
      with each other and with strangers, halted anywhere, with slices that outlive their loop, and
      resumed, never execute two slices that compete for a lock, as long as no lease in use lapses. So
      two whole-repo slices of one repo never execute together, even when the capacity of the repo is
      larger than one. */
  lemma {:induction false} MutualExclusion(s: State, steps: seq<Step>, i: nat, j: string, k: nat, l: string)
    requires Initially(s) && Possible(s, steps) && TimelyThroughout(s, steps)
    requires i < |s.runs| && k < |s.runs|
    requires var r := After(s, steps).runs[i]; j in Executing(r) && j in r.plan
    requires var r := After(s, steps).runs[k]; l in Executing(r) && l in r.plan
    requires Compete(After(s, steps).runs[i].plan[j], After(s, steps).runs[k].plan[l])
    ensures i == k && j == l
  {
    InitialInvariant(s);
    InvariantAfter(s, steps);
    ExclusiveNow(After(s, steps), i, j, k, l);
  }

  // ---- no leaks ----

  ghost predicate NeverResumes(steps: seq<Step>, i: nat) {
    forall t | t in steps :: !(t.Of? && t.i == i && t.action.Restart?)
  }

  lemma {:induction false} OwnedAfter(s: State, steps: seq<Step>, i: nat)
    requires RunsInvariant(s.runs) && Possible(s, steps) && i < |s.runs| && OwnsNoOthers(s.store, s.runs[i]) && NeverResumes(steps, i)
    ensures RunsInvariant(After(s, steps).runs) && OwnsNoOthers(After(s, steps).store, After(s, steps).runs[i])
    decreases steps
  {
    if steps != [] {
      assert steps[0] in steps && forall t | t in steps[1..] :: t in steps;
      StepRuns(s, steps[0]);
      StepOwned(s, steps[0], i);
      OwnedAfter(Next(s, steps[0]), steps[1..], i);
    }
  }

  /** No leaks, timely or not: a run that owned nothing at first, and was neither halted nor resumed, owns
      a row only for a slice that executes with it or that its loop is dealing with; with no slice
      running and the loop at rest it owns none. */
  lemma {:induction false} NoLeakedLeases(s: State, steps: seq<Step>, i: nat, j: string, n: string)
    requires Initially(s) && Possible(s, steps) && i < |s.runs| && NeverResumes(steps, i)
    requires forall l, m | l in s.runs[i].plan :: !S.Holds(s.store, m, s.runs[i].Me(l))
    requires !After(s, steps).runs[i].activity.Halted?
    requires j in After(s, steps).runs[i].plan && S.Holds(After(s, steps).store, n, After(s, steps).runs[i].Me(j))
    ensures
      var r := After(s, steps).runs[i];
      || (j in Executing(r) && Asks(r.plan[j], n))
      || (!r.activity.Idle? && r.activity.job == j)
  {
    InitialInvariant(s);
    OwnedAfter(s, steps, i);
    var r := After(s, steps).runs[i];
    assert Keeps(r, j, n) || Frees(r, j, n);
    if j in Executing(r) && j in r.acquired && exists q :: q in r.acquired[j] && q.name == n {
      assert r.acquired[j] == GlobalLockRequests(r.plan[j]);
    }
  }

  // ---- each run by itself ----

  /** The move of the scheduler core that an action with outcome `o` makes, if any. */
  ghost function MoveOf(r: Run, a: Action, o: S.Outcome): Option<Move> {
    match a
    case Propagate => Some(BlockPass)
    case Proceed =>
      if o.Raised() || !r.activity.Busy() || |r.activity.todo| != 1 then None
      else if r.activity.Taking? && o.Grants() then Some(Begin(r.activity.job))
      else if r.activity.Releasing? then Some(Finalize(r.activity.job, r.activity.rc))
      else None
    case _ => None
  }

  lemma {:induction false} ProceedMoves(r: Run, o: S.Outcome)
    requires WellTyped(r) && ActivityInvariant(r) && Able(r, Proceed)
    ensures
      match MoveOf(r, Proceed, o)
      case None => React(r, Proceed, o).core == r.core
      case Some(m) => MoveEnabled(r.plan, r.cfg, r.core, m) && React(r, Proceed, o).core == Apply(r.plan, r.cfg, r.names, r.core, m)
  {
    if !o.Raised() {
      if r.activity.Releasing? {
        RecordMoves(r, r.activity.todo[1..]);
      }
    }
  }

  lemma {:induction false} RecordMoves(r: Run, todo: seq<Request>)
    requires WellTyped(r) && r.activity.Releasing? && r.activity.job in r.core.running
    ensures
      var m := Finalize(r.activity.job, r.activity.rc);
      if todo == [] then MoveEnabled(r.plan, r.cfg, r.core, m) && Left(r, todo).core == Apply(r.plan, r.cfg, r.names, r.core, m)
      else Left(r, todo).core == r.core
  {
  }

  /** What a step other than a restart does to the core of a run is nothing or one legal move. */
  lemma {:induction false} CoreMoves(r: Run, a: Action, o: S.Outcome)
    requires RunInvariant(r) && Able(r, a) && !a.Restart?
    ensures
      match MoveOf(r, a, o)
      case None => React(r, a, o).core == r.core
      case Some(m) => MoveEnabled(r.plan, r.cfg, r.core, m) && React(r, a, o).core == Apply(r.plan, r.cfg, r.names, r.core, m)
  {
    if a.Proceed? {
      ProceedMoves(r, o);
    } else if a.Done? {
      DoneInvariant(r, a.job, a.rc);
    }
  }

  /** The return codes that run `i` records are those of `codes`. */
  ghost predicate Obeys(s: State, steps: seq<Step>, i: nat, codes: Codes)
    requires Possible(s, steps)
    decreases steps
  {
    steps == [] ||
    (&& (steps[0].Of? && steps[0].i == i ==>
           match MoveOf(s.runs[i], steps[0].action, OutcomeOf(s, steps[0]))
           case Some(m) => R.ObeysCore(s.runs[i].core, m, codes)
           case None => true)
     && Obeys(Next(s, steps[0]), steps[1..], i, codes))
  }

  /** The core of the run is reached by the legal run `moves` from the fresh core. */
  ghost predicate ReachedBy(r: Run, moves: seq<Move>)
    requires WellTyped(r)
  {
    R.LegalRun(r.plan, r.cfg, r.names, Fresh(r.plan), moves) && R.RunFrom(r.plan, r.cfg, r.names, Fresh(r.plan), moves) == r.core
  }

  ghost predicate FollowedBy(r: Run, moves: seq<Move>, codes: Codes)
    requires WellTyped(r) && ReachedBy(r, moves)
  {
    R.RunFollows(r.plan, r.cfg, r.names, Fresh(r.plan), moves, codes)
  }

  lemma {:induction false} MoveReached(r: Run, r': Run, m: Move, moves: seq<Move>)
    requires WellTyped(r) && WellTyped(r') && SameRun(r, r') && ReachedBy(r, moves)
    requires MoveEnabled(r.plan, r.cfg, r.core, m) && r'.core == Apply(r.plan, r.cfg, r.names, r.core, m)
    ensures ReachedBy(r', moves + [m])
    ensures forall codes: Codes | FollowedBy(r, moves, codes) && R.ObeysCore(r.core, m, codes) :: FollowedBy(r', moves + [m], codes)
  {
    R.CoreExtended(r.plan, r.cfg, r.names, Fresh(r.plan), moves, m);
  }

  lemma {:induction false} SameReached(r: Run, r': Run, moves: seq<Move>)
    requires WellTyped(r) && WellTyped(r') && SameRun(r, r') && ReachedBy(r, moves) && r'.core == r.core
    ensures ReachedBy(r', moves) && forall codes: Codes | FollowedBy(r, moves, codes) :: FollowedBy(r', moves, codes)
  {
  }

  lemma {:induction false} StepReached(r: Run, a: Action, o: S.Outcome, moves: seq<Move>) returns (moves': seq<Move>)
    requires RunInvariant(r) && Able(r, a) && ReachedBy(r, moves)
    ensures var r' := React(r, a, o);
            && WellTyped(r') && ReachedBy(r', moves')
            && forall codes: Codes | FollowedBy(r, moves, codes)
                                     && (MoveOf(r, a, o).Some? ==> R.ObeysCore(r.core, MoveOf(r, a, o).value, codes)) ::
                 FollowedBy(r', moves', codes)
  {
    ReactInvariant(r, a, o);
    ReactSame(r, a, o);
    if a.Restart? {
      moves' := [];
    } else {
      CoreMoves(r, a, o);
      match MoveOf(r, a, o)
      case None =>
        SameReached(r, React(r, a, o), moves);
        moves' := moves;
      case Some(m) =>
        MoveReached(r, React(r, a, o), m, moves);
        moves' := moves + [m];
    }
  }

  /** The core of each run, since it was last resumed, went through a legal run of the scheduler core. */
  lemma {:induction false} CoreRun(s: State, steps: seq<Step>, i: nat, moves: seq<Move>) returns (moves': seq<Move>)
    requires RunsInvariant(s.runs) && Possible(s, steps) && i < |s.runs| && ReachedBy(s.runs[i], moves)
    ensures
      var r, r' := s.runs[i], After(s, steps).runs[i];
      && WellTyped(r') && SameRun(r, r') && ReachedBy(r', moves')
      && forall codes: Codes | Obeys(s, steps, i, codes) && FollowedBy(r, moves, codes) :: FollowedBy(r', moves', codes)
    decreases steps
  {
    if steps == [] {
      moves' := moves;
    } else {
      var t := steps[0];
      StepRuns(s, t);
      var mid := moves;
      if t.Of? && t.i == i {
        mid := StepReached(s.runs[i], t.action, OutcomeOf(s, t), moves);
        ReactSame(s.runs[i], t.action, OutcomeOf(s, t));
      }
      moves' := CoreRun(Next(s, t), steps[1..], i, mid);
    }
  }

  lemma {:induction false} EndedRun(r: Run, mine: seq<Move>, cfg: Config, moves: seq<Move>, codes: Codes)
    requires WellTyped(r) && ReachedBy(r, mine) && FollowedBy(r, mine, codes) && cfg.maxRetries == r.cfg.maxRetries && Ended(r.core.phases)
    requires R.LegalRun(r.plan, cfg, r.names, Fresh(r.plan), moves) && R.RunFollows(r.plan, cfg, r.names, Fresh(r.plan), moves, codes)
    requires Ended(R.RunFrom(r.plan, cfg, r.names, Fresh(r.plan), moves).phases)
    ensures r.core.phases == R.RunFrom(r.plan, cfg, r.names, Fresh(r.plan), moves).phases
    ensures R.Decided(r.plan, r.cfg, codes, r.core.phases)
  {
    R.SameOutcome(r.plan, r.cfg, cfg, r.names, mine, moves, codes);
  }

  /** A run in the cluster that ends gives each slice what the plan, the retry budget and the return codes
      decide. */
  lemma {:induction false} ClusterDecided(s: State, steps: seq<Step>, i: nat, codes: Codes)
    requires Initially(s) && Possible(s, steps) && i < |s.runs| && Obeys(s, steps, i, codes)
    ensures Ended(After(s, steps).runs[i].core.phases) ==>
              R.Decided(s.runs[i].plan, s.runs[i].cfg, codes, After(s, steps).runs[i].core.phases)
  {
    InitialInvariant(s);
    var mine := CoreRun(s, steps, i, []);
    assert FollowedBy(s.runs[i], [], codes);
    var r := After(s, steps).runs[i];
    if Ended(r.core.phases) {
      EndedRun(r, mine, r.cfg, mine, codes);
    }
  }

  /** Schedule independence across lock modes: a run in the cluster that ends gives each slice the status
      that any other run of the same plan and retry budget with the same return codes gives it, which is
      the one that the plan, the budget and the codes decide. */
  lemma {:induction false} ClusterOutcome(s: State, steps: seq<Step>, i: nat, cfg: Config, moves: seq<Move>, codes: Codes)
    requires Initially(s) && Possible(s, steps) && i < |s.runs| && Obeys(s, steps, i, codes)
    requires var r := s.runs[i];
             && cfg.maxRetries == r.cfg.maxRetries
             && R.LegalRun(r.plan, cfg, r.names, Fresh(r.plan), moves)
             && R.RunFollows(r.plan, cfg, r.names, Fresh(r.plan), moves, codes)
             && Ended(R.RunFrom(r.plan, cfg, r.names, Fresh(r.plan), moves).phases)
    ensures Ended(After(s, steps).runs[i].core.phases) ==>
              && After(s, steps).runs[i].core.phases == R.RunFrom(s.runs[i].plan, cfg, s.runs[i].names, Fresh(s.runs[i].plan), moves).phases
              && R.Decided(s.runs[i].plan, s.runs[i].cfg, codes, After(s, steps).runs[i].core.phases)
  {
    InitialInvariant(s);
    var mine := CoreRun(s, steps, i, []);
    assert FollowedBy(s.runs[i], [], codes);
    if Ended(After(s, steps).runs[i].core.phases) {
      EndedRun(After(s, steps).runs[i], mine, cfg, moves, codes);
    }
  }
}
