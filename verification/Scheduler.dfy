/** `run_slice_scheduler` as an object: its dictionaries, counters and closures. Every method states the
    new state by the functions of SchedulerCore, LocalLocks and LockStore. */
module Scheduler {
  import opened Text
  import opened SlicePlan
  import opened JobPhases
  import opened SchedulerCore
  import opened SchedulerRuns
  import opened LockBackend
  import L = LocalLocks
  import S = LockStore
  import opened SharedLocks
  import opened RunPaths
  import C = Cluster

  /** What an attempt to take the shared locks of a slice came to. */
  datatype Acquisition = Got | Wait(lock: string) | Raised

  ghost predicate IsNameOrder(plan: Plan, names: seq<string>) {
    Ascending(names) && SchedulerCore.Lists(plan, names)
  }

  /** `sorted(jobs)` */
  method SortedNames(plan: Plan) returns (names: seq<string>)
    ensures IsNameOrder(plan, names)
  {
    names := [];
    var pending := plan.Keys;
    while pending != {}
      invariant Ascending(names) && pending <= plan.Keys
      invariant forall j :: j in names <==> j in plan && j !in pending
      decreases |pending|
    {
      var j :| j in pending;
      names := InsertSorted(j, names);
      pending := pending - {j};
    }
  }

  ghost predicate IsOverlapGraph(plan: Plan, pairs: set<(string, string)>) {
    forall l, r :: (l, r) in pairs <==> l in plan && r in plan && Less(l, r) && Overlap(plan[l], plan[r])
  }

  /** The preflight overlap graph: pairs of slices, in name order, that share an owned target. */
  method OverlapPairs(plan: Plan, names: seq<string>) returns (pairs: set<(string, string)>)
    requires IsNameOrder(plan, names)
    ensures IsOverlapGraph(plan, pairs)
  {
    pairs := {};
    for i := 0 to |names|
      invariant forall l, r :: (l, r) in pairs <==> l in names[..i] && OverlapsLater(plan, l, r)
    {
      var more := OverlapsOf(plan, names, i);
      pairs := pairs + more;
      assert names[..i + 1] == names[..i] + [names[i]];
    }
    assert names[..|names|] == names;
  }

  ghost predicate OverlapsLater(plan: Plan, l: string, r: string) {
    l in plan && r in plan && Less(l, r) && Overlap(plan[l], plan[r])
  }

  method OverlapsOf(plan: Plan, names: seq<string>, i: nat) returns (pairs: set<(string, string)>)
    requires IsNameOrder(plan, names) && i < |names|
    ensures forall l, r :: (l, r) in pairs <==> l == names[i] && OverlapsLater(plan, l, r)
  {
    pairs := {};
    LaterInOrder(plan, names, i);
    for k := i + 1 to |names|
      invariant forall l, r :: (l, r) in pairs <==> l == names[i] && r in names[i + 1..k] && Overlap(plan[l], plan[r])
    {
      if Overlap(plan[names[i]], plan[names[k]]) {
        pairs := pairs + {(names[i], names[k])};
      }
      assert names[i + 1..k + 1] == names[i + 1..k] + [names[k]];
    }
    assert names[i + 1..|names|] == names[i + 1..];
  }

  /** The names after position `i` are the later names. */
  lemma {:induction false} LaterInOrder(plan: Plan, names: seq<string>, i: nat)
    requires IsNameOrder(plan, names) && i < |names|
    ensures forall r :: r in names[i + 1..] <==> r in plan && Less(names[i], r)
  {
    forall r | r in plan && Less(names[i], r) ensures r in names[i + 1..] {
      var k :| 0 <= k < |names| && names[k] == r;
      LessIrreflexive(r);
      if k < i {
        LessAsymmetric(names[k], names[i]);
      }
      assert names[i + 1..][k - i - 1] == r;
    }
  }

  class SliceScheduler {
    const plan: Plan
    const cfg: Config
    const feature: string
    const runId: string
    const backend: GlobalLockBackend?
    const names: seq<string>
    const overlaps: set<(string, string)>

    var phases: Phases
    var running: set<string>
    var byRepo: map<string, int>
    var byHotArea: map<string, int>
    var completed: int
    var failed: bool
    var dlq: seq<DeadLetter>
    var table: map<string, L.Lease>
    var events: seq<L.LockEvent>
    var acquired: map<string, seq<Request>>

    /** The moves made so far, without a backend and with one. */
    ghost var run: seq<LocalMove>
    ghost var coreRun: seq<Move>

    function State(): Core
      reads this
    {
      Core(phases, running, byRepo, byHotArea, completed, failed, dlq)
    }

    function Locks(): L.Locks
      reads this
    {
      L.Locks(table, events)
    }

    /** This scheduler as one of the runs of a cluster, between two passes. */
    function AsRun(): C.Run
      reads this
    {
      C.Run(runId, feature, plan, cfg, names, State(), acquired, C.Idle, {})
    }

    function Now(): Local
      reads this
    {
      Local(State(), Locks())
    }

    /** What never changes. */
    ghost predicate Prepared() {
      WellFormed(plan) && IsNameOrder(plan, names) && IsOverlapGraph(plan, overlaps)
    }

    /** Without a backend, the fields are what the moves so far lead to. */
    ghost predicate Valid()
      reads this
    {
      && Prepared()
      && backend == null
      && LegalLocal(plan, cfg, names, FreshLocal(plan), run)
      && LocalFrom(plan, cfg, names, FreshLocal(plan), run) == Now()
      && phases.Keys == plan.Keys
    }

    /** With a backend, the shared part of the state is what its moves lead to, and every running slice
        has acquired all it asks for. */
    ghost predicate ValidGlobal()
      reads this
    {
      && Prepared()
      && backend != null
      && LegalRun(plan, cfg, names, Fresh(plan), coreRun)
      && RunFrom(plan, cfg, names, Fresh(plan), coreRun) == State()
      && phases.Keys == plan.Keys
      && C.Equipped(AsRun())
    }

    /** The return codes among the moves `r` are those of `codes`. */
    ghost predicate Obeys(r: seq<LocalMove>, codes: Codes)
      requires Prepared() && LegalLocal(plan, cfg, names, FreshLocal(plan), r)
    {
      LocalObeys(plan, cfg, names, FreshLocal(plan), r, codes)
    }

    lemma Reached()
      requires Valid()
      ensures LocalInvariant(plan, cfg, Now()) && running <= plan.Keys && running == InStatus(phases, Running)
    {
      FreshLocalInvariant(plan, cfg);
      LocalRunInvariant(plan, cfg, names, FreshLocal(plan), run);
    }

    constructor (feature: string, runId: string, payloads: seq<Payload>, cfg: Config, backend: GlobalLockBackend?)
      ensures Prepared() && plan == JobsOf(payloads) && this.cfg == cfg && this.backend == backend
      ensures Now() == FreshLocal(plan) && acquired == map[]
      ensures if backend == null then Valid() && run == [] else ValidGlobal() && coreRun == [] && C.FreshRun(AsRun())
    {
      var jobs := BuildJobs(payloads);
      var sorted := SortedNames(jobs);
      var pairs := OverlapPairs(jobs, sorted);
      this.plan, this.cfg, this.feature, this.runId, this.backend := jobs, cfg, feature, runId, backend;
      this.names, this.overlaps := sorted, pairs;
      phases := Initial(DepsOf(jobs));
      running, byRepo, byHotArea, completed, failed, dlq := {}, map[], map[], 0, false, [];
      table, events, acquired, run, coreRun := map[], [], map[], [], [];
    }

    function Me(j: string): (o: S.Owner)
      ensures o.runId == runId && o.feature == feature && o.slice == j
    {
      S.Owner(runId, feature, j)
    }

    // ---- dependencies ----

    /** `_mark_dependency_blocked` */
    method MarkDependencyBlocked() returns (count: nat)
      requires phases.Keys == plan.Keys && forall j | j in names :: j in plan
      modifies this`phases
      ensures forall j | j in Blocks(DepsOf(plan), old(phases), names) :: j in plan
      ensures phases == SetBlocked(old(phases), Blocks(DepsOf(plan), old(phases), names))
      ensures count == |Blocks(DepsOf(plan), old(phases), names)|
    {
      ghost var deps, before := DepsOf(plan), phases;
      count := 0;
      BlocksMember(deps, before, names);
      BlockingStart(deps, before, names);
      for i := 0 to |names|
        invariant Blocking(deps, before, names, i, count, phases)
      {
        count := BlockNext(i, count, before);
      }
      BlockingDone(deps, before, names, count, phases);
    }

    method BlockNext(i: nat, count: nat, ghost before: Phases) returns (count': nat)
      requires i < |names| && before.Keys == plan.Keys && forall j | j in names :: j in plan
      requires Blocking(DepsOf(plan), before, names, i, count, phases)
      modifies this`phases
      ensures Blocking(DepsOf(plan), before, names, i + 1, count', phases)
    {
      BlockingStep(DepsOf(plan), before, names, i, count, phases);
      var blocked := BlockOne(names[i]);
      count' := if blocked then count + 1 else count;
    }

    method BlockOne(j: string) returns (blocked: bool)
      requires j in plan && phases.Keys == plan.Keys
      modifies this`phases
      ensures blocked == (old(phases)[j].status == Pending && ParentBad(DepsOf(plan), old(phases), j))
      ensures phases == if blocked then old(phases)[j := old(phases)[j].(status := Blocked)] else old(phases)
    {
      if phases[j].status != Pending {
        return false;
      }
      blocked := HasBadParent(j);
      if blocked {
        phases := phases[j := phases[j].(status := Blocked)];
      }
    }

    /** Blocking and the totals that follow it. */
    method PropagateFailures()
      requires phases.Keys == plan.Keys && IsNameOrder(plan, names)
      modifies this`phases, this`completed, this`failed
      ensures State() == PassBlocked(plan, old(State()), names)
    {
      var blocked := MarkDependencyBlocked();
      if blocked > 0 {
        completed := completed + blocked;
        failed := true;
      }
    }

    method HasBadParent(j: string) returns (bad: bool)
      requires j in plan && phases.Keys == plan.Keys
      ensures bad == ParentBad(DepsOf(plan), phases, j)
    {
      var deps := plan[j].dependsOn;
      for i := 0 to |deps|
        invariant forall k | 0 <= k < i :: deps[k] in plan ==> !phases[deps[k]].status.Bad()
      {
        if deps[i] in phases && phases[deps[i]].status.Bad() {
          assert IsParent(DepsOf(plan), deps[i], j);
          return true;
        }
      }
      return false;
    }

    // ---- the gate ----

    /** The part of `_can_run` before the locks. */
    method GateOpen(j: string) returns (open: bool)
      requires Prepared() && phases.Keys == plan.Keys && running <= plan.Keys && j in plan
      ensures open == Gate(plan, cfg, State(), j)
    {
      var deps := plan[j].dependsOn;
      for i := 0 to |deps|
        invariant forall k | 0 <= k < i :: deps[k] in plan ==> phases[deps[k]].status == Passed
      {
        if deps[i] in phases && phases[deps[i]].status != Passed {
          assert IsParent(DepsOf(plan), deps[i], j);
          return false;
        }
      }
      if Count(byRepo, plan[j].repo) >= cfg.perRepo {
        return false;
      }
      var areas := plan[j].hotAreas;
      for i := 0 to |areas|
        invariant forall k | 0 <= k < i :: Count(byHotArea, areas[k]) < cfg.perHotArea
      {
        if Count(byHotArea, areas[i]) >= cfg.perHotArea {
          return false;
        }
      }
      open := forall p | p in overlaps :: !(p.0 == j && p.1 in running) && !(p.1 == j && p.0 in running);
      OverlapsMatch(j);
    }

    lemma OverlapsMatch(j: string)
      requires Prepared() && running <= plan.Keys && j in plan
      ensures (forall p | p in overlaps :: !(p.0 == j && p.1 in running) && !(p.1 == j && p.0 in running))
              <==> (forall r | r in running && r in plan && r != j :: !Overlap(plan[j], plan[r]))
    {
      forall r | r in running && r != j
        ensures Overlap(plan[j], plan[r]) <==> (j, r) in overlaps || (r, j) in overlaps
      {
        OverlapSymmetric(plan[j], plan[r]);
        LessTotal(j, r);
      }
      LessIrreflexive(j);
    }

    // ---- locks in memory ----

    /** `_heartbeat_running_locks` */
    method BeatTable(now: real)
      modifies this`table
      ensures Locks() == L.Beat(old(Locks()), running, now, cfg.lockTtl)
    {
      var pending := table.Keys;
      while pending != {}
        invariant pending <= table.Keys == old(table).Keys
        invariant forall k | k in table ::
                    table[k] == if k !in pending && old(table)[k].owner in running
                                then L.Renewed(old(table)[k], now, cfg.lockTtl) else old(table)[k]
        decreases |pending|
      {
        var k :| k in pending;
        if table[k].owner in running {
          table := table[k := L.Renewed(table[k], now, cfg.lockTtl)];
        }
        pending := pending - {k};
      }
    }

    /** The sweep that precedes an acquire: lapsed leases of running slices are renewed, others removed. */
    method SweepTable(now: real) returns (ghost order: seq<string>)
      modifies this`table, this`events
      ensures Enumerates(order, L.Orphans(old(table), running, now))
      ensures Locks() == L.Swept(old(Locks()), running, now, cfg.lockTtl, order)
    {
      ghost var before := Locks();
      ghost var renewed := L.RenewLapsed(table, running, now, cfg.lockTtl);
      ghost var orphans := L.Orphans(table, running, now);
      var pending := table.Keys;
      order := [];
      while pending != {}
        invariant L.Removing(before, renewed, orphans, L.Expired, pending, order, Locks())
        decreases |pending|
      {
        var k :| k in pending;
        order := SweepVisit(k, now, before, pending, order);
        pending := pending - {k};
      }
      L.Removed(before, renewed, orphans, L.Expired, order, Locks());
    }

    method SweepVisit(k: string, now: real, ghost before: L.Locks, ghost pending: set<string>, ghost order: seq<string>)
      returns (ghost order': seq<string>)
      requires k in pending
      requires L.Removing(before, L.RenewLapsed(before.table, running, now, cfg.lockTtl), L.Orphans(before.table, running, now), L.Expired,
                          pending, order, Locks())
      modifies this`table, this`events
      ensures L.Removing(before, L.RenewLapsed(before.table, running, now, cfg.lockTtl), L.Orphans(before.table, running, now), L.Expired,
                         pending - {k}, order', Locks())
    {
      ghost var renewed := L.RenewLapsed(before.table, running, now, cfg.lockTtl);
      ghost var orphans := L.Orphans(before.table, running, now);
      L.VisitOne(before, renewed, orphans, L.Expired, pending, order, Locks(), k);
      SweepOne(k, now);
      order' := if k in orphans then order + [k] else order;
    }

    method SweepOne(k: string, now: real)
      requires k in table
      modifies this`table, this`events
      ensures Locks() ==
              if old(table)[k].expires <= now && old(table)[k].owner !in running
              then L.Log(old(Locks()).(table := old(table) - {k}), L.Expired, k, old(table)[k].owner)
              else if old(table)[k].expires <= now
              then old(Locks()).(table := old(table)[k := L.Renewed(old(table)[k], now, cfg.lockTtl)])
              else old(Locks()).(table := old(table)[k := old(table)[k]])
    {
      if table[k].expires <= now {
        if table[k].owner in running {
          table := table[k := L.Renewed(table[k], now, cfg.lockTtl)];
        } else {
          events := events + [L.LockEvent(L.Expired, k, table[k].owner)];
          table := table - {k};
        }
      } else {
        assert table[k := table[k]] == table;
      }
    }

    /** `_acquire_locks` without a backend. */
    method AcquireLocal(j: string, now: real) returns (ok: bool, ghost order: seq<string>)
      requires j in plan
      modifies this`table, this`events
      ensures Enumerates(order, L.Orphans(old(table), running, now))
      ensures (Locks(), ok) == L.Acquire(old(Locks()), running, plan[j].semanticLocks, j, now, cfg.lockTtl, order)
    {
      order := SweepTable(now);
      var locks := plan[j].semanticLocks;
      var held := CheckFree(j);
      if held < |locks| {
        events := events + [L.LockEvent(L.Denied, locks[held], j)];
        return false, order;
      }
      ghost var swept := Locks();
      for k := 0 to |locks|
        invariant Locks() == L.TakeAll(swept, locks[..k], j, now + cfg.lockTtl as real)
      {
        assert locks[..k + 1][..k] == locks[..k];
        table := table[locks[k] := L.Lease(j, "slice-execution", now + cfg.lockTtl as real)];
        events := events + [L.LockEvent(L.Acquired, locks[k], j)];
      }
      assert locks[..|locks|] == locks;
      ok := true;
    }

    /** The first of the slice's locks that another slice holds. */
    method CheckFree(j: string) returns (i: nat)
      requires j in plan
      ensures i == L.FirstHeld(table, plan[j].semanticLocks, j)
    {
      var locks := plan[j].semanticLocks;
      i := 0;
      while i < |locks| && !(locks[i] in table && table[locks[i]].owner != j)
        invariant i <= |locks|
        invariant forall k | 0 <= k < i :: !L.HeldByOther(table, locks[k], j)
      {
        i := i + 1;
      }
      ghost var first := L.FirstHeld(table, locks, j);
      if first < i {
        assert false;
      }
    }

    /** `_release_locks` without a backend. */
    method ReleaseLocal(j: string) returns (ghost order: seq<string>)
      modifies this`table, this`events
      ensures Enumerates(order, L.OwnedBy(old(table), j))
      ensures Locks() == L.Release(old(Locks()), j, order)
    {
      ghost var before := Locks();
      ghost var mine := L.OwnedBy(table, j);
      var pending := table.Keys;
      order := [];
      while pending != {}
        invariant L.Removing(before, before.table, mine, L.Released, pending, order, Locks())
        decreases |pending|
      {
        var k :| k in pending;
        L.VisitOne(before, before.table, mine, L.Released, pending, order, Locks(), k);
        ReleaseOne(k, j);
        order := if k in mine then order + [k] else order;
        pending := pending - {k};
      }
      L.Removed(before, before.table, mine, L.Released, order, Locks());
    }

    method ReleaseOne(k: string, j: string)
      requires k in table
      modifies this`table, this`events
      ensures Locks() ==
              if old(table)[k].owner == j
              then L.Log(old(Locks()).(table := old(table) - {k}), L.Released, k, j)
              else old(Locks()).(table := old(table)[k := old(table)[k]])
    {
      if table[k].owner == j {
        events := events + [L.LockEvent(L.Released, k, j)];
        table := table - {k};
      } else {
        assert table[k := table[k]] == table;
      }
    }

    // ---- finishing and starting ----

    method LowerAreas(j: string)
      requires j in plan
      modifies this`byHotArea
      ensures byHotArea == SubAll(old(byHotArea), plan[j].hotAreas)
    {
      var areas := plan[j].hotAreas;
      for i := 0 to |areas|
        invariant byHotArea == SubAll(old(byHotArea), areas[..i])
      {
        assert areas[..i + 1][..i] == areas[..i];
        byHotArea := Sub(byHotArea, areas[i]);
      }
      assert areas[..|areas|] == areas;
    }

    method RaiseAreas(j: string)
      requires j in plan
      modifies this`byHotArea
      ensures byHotArea == AddAll(old(byHotArea), plan[j].hotAreas)
    {
      var areas := plan[j].hotAreas;
      for i := 0 to |areas|
        invariant byHotArea == AddAll(old(byHotArea), areas[..i])
      {
        assert areas[..i + 1][..i] == areas[..i];
        byHotArea := Add(byHotArea, areas[i]);
      }
      assert areas[..|areas|] == areas;
    }

    /** A future is done: first the slice stops counting as running. */
    method LowerCounters(j: string)
      requires j in plan
      modifies this`running, this`byRepo, this`byHotArea
      ensures State() == Lowered(plan, old(State()), j)
    {
      running := running - {j};
      byRepo := Sub(byRepo, plan[j].repo);
      LowerAreas(j);
    }

    /** Then, after its locks are released, its return code is recorded. */
    method RecordResult(j: string, rc: int, ghost before: Core)
      requires j in plan && j in phases && State() == Lowered(plan, before, j)
      modifies this`phases, this`completed, this`failed, this`dlq
      ensures State() == Finalized(plan, cfg, before, j, rc)
    {
      if rc == 0 {
        phases := phases[j := phases[j].(status := Passed)];
        completed := completed + 1;
      } else if phases[j].attempt >= cfg.maxRetries + 1 {
        phases := phases[j := phases[j].(status := Failed)];
        dlq := dlq + [DeadLetter(j, rc, phases[j].attempt)];
        completed := completed + 1;
        failed := true;
      } else {
        phases := phases[j := phases[j].(status := Pending)];
      }
    }

    method StartCore(j: string)
      requires j in plan && j in phases
      modifies this`phases, this`running, this`byRepo, this`byHotArea
      ensures State() == Began(plan, old(State()), j)
    {
      phases := phases[j := Phase(Running, phases[j].attempt + 1)];
      running := running + {j};
      byRepo := Add(byRepo, plan[j].repo);
      RaiseAreas(j);
    }

    // ---- the loop body without a backend, as moves of SchedulerRuns ----

    ghost method Advance(m: LocalMove, before: Local)
      requires Prepared() && backend == null && LegalLocal(plan, cfg, names, FreshLocal(plan), run)
      requires before == LocalFrom(plan, cfg, names, FreshLocal(plan), run) && LocalEnabled(plan, before, m)
      requires Now() == LocalNext(plan, cfg, names, before, m)
      modifies this`run
      ensures run == old(run) + [m] && Valid()
      ensures Progress(cfg, names, before.core.phases, phases)
      ensures forall codes: Codes | Obeys(old(run), codes) && ObeysMove(plan, before, m, codes) :: Obeys(run, codes)
    {
      RunExtended(plan, cfg, names, run, before, m);
      run := run + [m];
    }

    method HeartbeatLocal(now: real)
      requires Valid()
      modifies this`table, this`run
      ensures Valid() && run == old(run) + [LocalMove.Heartbeat(now)]
      ensures forall codes: Codes | Obeys(old(run), codes) :: Obeys(run, codes)
    {
      ghost var before := Now();
      BeatTable(now);
      Advance(LocalMove.Heartbeat(now), before);
    }

    /** A finished slice: its locks are released, its counters lowered and its return code recorded. */
    method CollectLocal(j: string, rc: int) returns (ghost order: seq<string>)
      requires Valid() && j in running && j in plan
      modifies this
      ensures Valid() && run == old(run) + [Collect(j, rc, order)]
      ensures State() == Finalized(plan, cfg, old(State()), j, rc) && Progress(cfg, names, old(phases), phases)
      ensures forall codes: Codes | Obeys(old(run), codes) && rc == codes(j, old(phases)[j].attempt) :: Obeys(run, codes)
    {
      ghost var before := Now();
      LowerCounters(j);
      order := ReleaseLocal(j);
      RecordResult(j, rc, before.core);
      Advance(Collect(j, rc, order), before);
    }

    method PropagateLocal()
      requires Valid()
      modifies this
      ensures Valid() && run == old(run) + [Propagate]
      ensures State() == PassBlocked(plan, old(State()), names) && table == old(table)
      ensures Progress(cfg, names, old(phases), phases)
      ensures forall codes: Codes | Obeys(old(run), codes) :: Obeys(run, codes)
    {
      ghost var before := Now();
      PropagateFailures();
      Advance(Propagate, before);
    }

    /** `_can_run` followed by the start of the slice. */
    method StartIfPossible(j: string, now: real) returns (ok: bool, ghost order: seq<string>)
      requires Prepared() && phases.Keys == plan.Keys && running <= plan.Keys && L.Exact(plan, running, table)
      requires j in plan && phases[j].status == Pending
      modifies this`table, this`events, this`phases, this`running, this`byRepo, this`byHotArea
      ensures LocalEnabled(plan, old(Now()), Try(j, now, order))
      ensures Now() == LocalNext(plan, cfg, names, old(Now()), Try(j, now, order))
      ensures ok <==> State() != old(State())
    {
      var open := GateOpen(j);
      if !open {
        L.ExpiryListed(plan, Locks(), running, now);
        return false, [];
      }
      ok, order := AcquireLocal(j, now);
      if ok {
        StartCore(j);
      }
    }

    method TryStartLocal(j: string, now: real) returns (ok: bool, ghost order: seq<string>)
      requires Valid() && j in plan && phases[j].status == Pending
      modifies this
      ensures Valid() && run == old(run) + [Try(j, now, order)]
      ensures State() == if ok then Began(plan, old(State()), j) else old(State())
      ensures ok <==> Startable(plan, cfg, old(Now()), j)
      ensures !ok ==> L.Owners(table) == L.Owners(old(table))
      ensures Progress(cfg, names, old(phases), phases)
      ensures forall codes: Codes | Obeys(old(run), codes) :: Obeys(run, codes)
    {
      ghost var before := Now();
      Reached();
      ok, order := StartIfPossible(j, now);
      TryOutcome(plan, cfg, names, before, j, now, order);
      Advance(Try(j, now, order), before);
    }

    /** Pending slices are tried in name order. A pass that starts nothing leaves no startable slice. */
    method SchedulePass(clock: string -> real, ghost codes: Codes) returns (started: seq<string>, ghost tried: seq<LocalMove>)
      requires Valid()
      modifies this
      ensures Valid() && (Obeys(old(run), codes) ==> Obeys(run, codes))
      ensures run == old(run) + tried && TryAll(tried, Awaiting(old(phases), names), clock)
      ensures forall j | j in names && phases[j].status == Pending :: j in Awaiting(old(phases), names)
      ensures started == [] ==>
                State() == old(State()) && NoneStartable(plan, cfg, names, old(Now()), |names|)
      ensures started != [] ==> Measure(Limit(cfg), phases, names) < Measure(Limit(cfg), old(phases), names)
    {
      ghost var before, run0 := Now(), run;
      started, tried := [], [];
      NoneTried(names, phases, clock);
      assert run == run0 + [];
      for i := 0 to |names|
        invariant Valid() && (Obeys(run0, codes) ==> Obeys(run, codes))
        invariant run == run0 + tried && Trying(names, i, before.core.phases, phases, tried, clock)
        invariant started == [] ==> State() == before.core && L.Owners(table) == L.Owners(before.locks.table)
        invariant started == [] ==> NoneStartable(plan, cfg, names, before, i)
        invariant started != [] ==> Measure(Limit(cfg), phases, names) < Measure(Limit(cfg), before.core.phases, names)
      {
        started, tried := TryAt(i, clock, started, before, run0, tried, codes);
      }
      AllTried(names, before.core.phases, phases, tried, clock);
    }

    method TryAt(i: nat, clock: string -> real, started: seq<string>, ghost before: Local, ghost run0: seq<LocalMove>,
                 ghost tried: seq<LocalMove>, ghost codes: Codes)
      returns (started': seq<string>, ghost tried': seq<LocalMove>)
      requires Valid() && i < |names| && run == run0 + tried && Trying(names, i, before.core.phases, phases, tried, clock)
      requires before.core.phases.Keys == plan.Keys && (started == [] ==> NoneStartable(plan, cfg, names, before, i))
      requires started == [] ==> State() == before.core && L.Owners(table) == L.Owners(before.locks.table)
      modifies this
      ensures Valid() && (Obeys(old(run), codes) ==> Obeys(run, codes))
      ensures run == run0 + tried' && Trying(names, i + 1, before.core.phases, phases, tried', clock)
      ensures started <= started'
      ensures started' == [] ==> State() == before.core && L.Owners(table) == L.Owners(before.locks.table)
      ensures started' == [] ==> NoneStartable(plan, cfg, names, before, i + 1)
      ensures started' == started ==> phases == old(phases)
      ensures started' != started ==> Measure(Limit(cfg), phases, names) < Measure(Limit(cfg), old(phases), names)
    {
      ghost var moves, here := [], phases;
      AscendingDistinct(names);
      started', moves := TryNext(names[i], clock(names[i]), started, before, codes);
      TryingNext(names, i, before.core.phases, here, tried, clock, phases, moves);
      Appended(run0, tried, moves);
      tried' := tried + moves;
    }

    method TryNext(j: string, now: real, started: seq<string>, ghost before: Local, ghost codes: Codes)
      returns (started': seq<string>, ghost moves: seq<LocalMove>)
      requires Valid() && j in plan && before.core.phases.Keys == plan.Keys
      requires started == [] ==> State() == before.core && L.Owners(table) == L.Owners(before.locks.table)
      modifies this
      ensures Valid() && (Obeys(old(run), codes) ==> Obeys(run, codes))
      ensures run == old(run) + moves && OnlyAt(old(phases), phases, j)
      ensures if old(phases)[j].status == Pending then |moves| == 1 && moves[0].Try? && moves[0].job == j && moves[0].now == now
              else moves == [] && phases == old(phases)
      ensures started <= started'
      ensures started' == [] ==> State() == before.core && L.Owners(table) == L.Owners(before.locks.table)
      ensures started' == [] && before.core.phases[j].status == Pending ==> !Startable(plan, cfg, before, j)
      ensures started' == started ==> phases == old(phases)
      ensures started' != started ==> Measure(Limit(cfg), phases, names) < Measure(Limit(cfg), old(phases), names)
    {
      started', moves := started, [];
      BeganOnlyAt(plan, State(), j);
      assert run == run + [];
      Reached();
      if j in running || phases[j].status != Pending {
        assert j in running ==> phases[j].status == Running;
        return;
      }
      ghost var here := Now();
      var ok, order := TryStartLocal(j, now);
      moves := [Try(j, now, order)];
      if ok {
        StartStrict(plan, cfg, names, here.core, j);
        started' := started + [j];
      } else if started == [] {
        SameStartable(plan, cfg, before, here, j);
      }
    }

    /** Every future that is done is collected; the return code of a slice is that of its current attempt. */
    method CollectDone(done: set<string>, codes: Codes) returns (ghost collected: seq<LocalMove>)
      requires Valid() && done <= running
      modifies this
      ensures Valid() && (Obeys(old(run), codes) ==> Obeys(run, codes))
      ensures run == old(run) + collected && CollectAll(collected, done, codes, old(phases))
      ensures done == {} ==> State() == old(State())
      ensures done != {} ==> Measure(Limit(cfg), phases, names) < Measure(Limit(cfg), old(phases), names)
    {
      ghost var state0, run0, phases0, before := State(), run, phases, Measure(Limit(cfg), phases, names);
      Reached();
      collected := [];
      NothingCollected(done, phases, running, codes);
      assert run == run0 + [];
      var todo := done;
      while todo != {}
        invariant Valid() && (Obeys(run0, codes) ==> Obeys(run, codes))
        invariant run == run0 + collected && Collecting(done, todo, phases0, phases, running, collected, codes)
        invariant todo == done ==> State() == state0
        invariant todo != done ==> Measure(Limit(cfg), phases, names) < before
        decreases todo
      {
        var j :| j in todo;
        collected := CollectAt(j, codes, done, todo, phases0, run0, collected);
        todo := todo - {j};
      }
      AllCollected(done, phases0, phases, running, collected, codes);
    }

    method CollectAt(j: string, codes: Codes, ghost done: set<string>, ghost todo: set<string>, ghost phases0: Phases,
                     ghost run0: seq<LocalMove>, ghost collected: seq<LocalMove>)
      returns (ghost collected': seq<LocalMove>)
      requires Valid() && j in todo && run == run0 + collected && Collecting(done, todo, phases0, phases, running, collected, codes)
      modifies this
      ensures Valid() && (Obeys(old(run), codes) ==> Obeys(run, codes))
      ensures run == run0 + collected' && Collecting(done, todo - {j}, phases0, phases, running, collected', codes)
      ensures Measure(Limit(cfg), phases, names) < Measure(Limit(cfg), old(phases), names)
    {
      ghost var here, active := phases, running;
      ghost var m := CollectOne(j, codes);
      CollectingNext(done, todo, phases0, here, active, collected, codes, phases, m);
      Appended(run0, collected, [m]);
      collected' := collected + [m];
    }

    method CollectOne(j: string, codes: Codes) returns (ghost m: LocalMove)
      requires Valid() && j in running
      modifies this
      ensures Valid() && (Obeys(old(run), codes) ==> Obeys(run, codes))
      ensures running == old(running) - {j} && j in old(phases)
      ensures run == old(run) + [m] && m.Collect? && m.job == j && m.rc == codes(j, old(phases)[j].attempt)
      ensures OnlyAt(old(phases), phases, j)
      ensures Measure(Limit(cfg), phases, names) < Measure(Limit(cfg), old(phases), names)
    {
      Reached();
      ghost var c := State();
      var rc := codes(j, phases[j].attempt);
      var order := CollectLocal(j, rc);
      m := Collect(j, rc, order);
      FinishStrict(plan, cfg, names, c, j, rc);
    }

    /** One pass of the main loop: one heartbeat, the results of exactly the finished futures, one propagation
        of failures, and then every slice that waits is tried, in name order. As the run is legal, no other
        slice is tried. */
    method Tick(done: set<string>, codes: Codes, now: real, clock: string -> real)
      returns (ghost collected: seq<LocalMove>, ghost waiting: seq<string>, ghost tried: seq<LocalMove>)
      requires Valid() && done <= running
      modifies this
      ensures Valid() && (Obeys(old(run), codes) ==> Obeys(run, codes))
      ensures run == old(run) + [LocalMove.Heartbeat(now)] + collected + [Propagate] + tried
      ensures CollectAll(collected, done, codes, old(phases)) && TryAll(tried, waiting, clock)
      ensures Ascending(waiting) && forall j | j in plan && phases[j].status == Pending :: j in waiting
      ensures Measure(Limit(cfg), phases, names) < Measure(Limit(cfg), old(phases), names)
              || (done == {} && phases == old(phases)
                  && (old(running) == {} ==> old(Ended(phases)) || !Acyclic(DepsOf(plan)) || !Capable(plan, cfg)))
    {
      HeartbeatLocal(now);
      collected := CollectDone(done, codes);
      ghost var state := State();
      PropagateLocal();
      ghost var idle := Now();
      Reached();
      waiting := Awaiting(phases, names);
      AwaitingOrder(phases, names);
      var started;
      started, tried := SchedulePass(clock, codes);
      if Measure(Limit(cfg), phases, names) >= Measure(Limit(cfg), old(phases), names) {
        SameBlocking(plan, cfg, names, state);
        if old(running) == {} && !old(Ended(phases)) && Acyclic(DepsOf(plan)) && Capable(plan, cfg) {
          IdleRoundMoves(plan, cfg, names, idle);
        }
      }
    }

    /** The whole scheduler without a backend. Attempt `a` of slice `j` is still going for `polls(j, a)`
        polls and then returns `codes(j, a)`; the clock may read anything. The loop ends, and the final
        statuses are the one solution of the outcome equations. */
    method Run(codes: Codes, polls: (string, nat) -> nat, clock: (nat, string) -> real) returns (passed: bool)
      requires Valid() && run == []
      requires Acyclic(DepsOf(plan)) && Capable(plan, cfg)
      modifies this
      ensures Valid() && Obeys(run, codes)
      ensures completed == |plan| && Ended(phases) && running == {} && table == map[]
      ensures IsOutcome(DepsOf(plan), Limit(cfg), codes, Statuses(phases)) && Decided(plan, cfg, codes, phases)
      ensures WithinBudget(cfg, State()) && LettersTrue(State(), codes)
      ensures passed <==> forall j | j in plan :: phases[j].status == Passed
    {
      var futures: map<string, nat>, n: nat := map[], 0;
      assert State() == Fresh(plan);
      while completed < |plan|
        invariant Valid() && Obeys(run, codes) && futures.Keys == running
        decreases Measure(Limit(cfg), phases, names), Waiting(names, futures)
      {
        futures := Poll(futures, codes, polls, clock(n, ""), j => clock(n, j));
        n := n + 1;
      }
      Reached();
      CompletedIffEnded(plan, State());
      LocalOutcome(plan, cfg, names, run, codes);
      LocalBudget(plan, cfg, names, run);
      EndedIdle(plan, cfg, Now());
      passed := !failed;
    }

    /** One pass of the loop together with what the executor does until the next one. Either the measure
        goes down, or something was running and everything that runs is nearer to its end. */
    method Poll(futures: map<string, nat>, codes: Codes, polls: (string, nat) -> nat, now: real, clock: string -> real)
      returns (futures': map<string, nat>)
      requires Valid() && Obeys(run, codes) && futures.Keys == running && completed < |plan|
      requires Acyclic(DepsOf(plan)) && Capable(plan, cfg)
      modifies this
      ensures Valid() && Obeys(run, codes) && futures'.Keys == running
      ensures Measure(Limit(cfg), phases, names) < Measure(Limit(cfg), old(phases), names)
              || (Measure(Limit(cfg), phases, names) == Measure(Limit(cfg), old(phases), names)
                  && Waiting(names, futures') < Waiting(names, futures))
    {
      ghost var before := State();
      Reached();
      CompletedIffEnded(plan, before);
      var done := set j | j in futures && futures[j] == 0;
      ghost var collected, waiting, tried := Tick(done, codes, now, clock);
      Reached();
      futures' := NextFutures(futures, done, running, phases, polls);
      if Measure(Limit(cfg), phases, names) >= Measure(Limit(cfg), before.phases, names) {
        RunningPending(plan, names, running);
        assert forall j | j in futures :: j !in done;
        WaitingDecreases(names, futures, futures');
      }
    }

    static function NextFutures(futures: map<string, nat>, done: set<string>, running: set<string>, phases: Phases,
                                polls: (string, nat) -> nat): (r: map<string, nat>)
      requires running <= phases.Keys
      ensures r.Keys == running
      ensures forall j | j in running && j in futures && j !in done && futures[j] > 0 :: r[j] < futures[j]
    {
      map j | j in running ::
        if j in futures && j !in done && futures[j] > 0 then futures[j] - 1 else polls(j, phases[j].attempt)
    }

    // ---- locks in the shared store ----

    /** The backend branch of `_acquire_locks`. With prompt clock readings, and a slice that holds nothing
        yet, it is all or nothing: either the slice holds every lock it asks for, or the rows are those
        from before up to leases that had lapsed. */
    method AcquireGlobal(j: string, clock: nat -> int, ghost lo: int, ghost hi: int)
      returns (r: Acquisition, ghost calls: seq<S.Call>, ghost steps: seq<C.Step>, ghost end: C.Run)
      requires backend != null && j in plan
      modifies this`acquired, backend
      ensures Leads(old(backend.Tables()), calls, backend.Tables())
      ensures acquired == if r.Got? then old(acquired)[j := GlobalLockRequests(plan[j])] else old(acquired)
      ensures Prompt(clock, lo, hi, cfg.lockTtl) && NoneHeld(old(backend.Tables()), Me(j)) ==>
                match r
                case Got => Partial(old(backend.Tables()), backend.Tables(), Me(j), NamesOf(GlobalLockRequests(plan[j])), {}, hi)
                case Wait(lock) => Asks(plan[j], lock) && OnlyLapsed(old(backend.Tables()), backend.Tables(), hi)
                case Raised => false
      ensures MayTry(old(AsRun()), j) ==>
                && Leg(old(backend.Tables()), old(AsRun()), steps, backend.Tables(), end, {C.TryJob(j)})
                && match r
                   case Got => end == C.Started(old(AsRun()), j, GlobalLockRequests(plan[j]))
                   case Wait(_) => end == old(AsRun())
                   case Raised => Crashed(old(AsRun()), end)
    {
      ghost var before, first := backend.Tables(), AsRun();
      ghost var smooth := Prompt(clock, lo, hi, cfg.lockTtl) && NoneHeld(before, Me(j));
      var expired := backend.ExpireStale(clock(0));
      ghost var sweep := S.Call(clock(0), S.Op.ExpireStale, expired);
      calls, steps, end := [sweep], [C.Of(0, C.TryJob(j), sweep)], first;
      AttemptBegins(before, first, j, smooth, hi, sweep);
      var requests := ComputeGlobalLockRequests(plan[j]);
      for i := 0 to |requests|
        invariant Attempting(before, backend.Tables(), calls, first, steps, j, requests, i, smooth, hi) && acquired == old(acquired)
      {
        ghost var store := backend.Tables();
        var q := requests[i];
        var outcome, c := backend.Acquire(q.name, q.scope, q.repo, Me(j), cfg.lockTtl, "scheduler-acquire", clock(i + 1));
        end := AttemptNext(before, store, calls, first, steps, j, requests, i, smooth, hi, c);
        calls, steps := calls + [c], steps + [C.Of(0, C.Proceed, c)];
        if outcome.Raised() {
          return Raised, calls, steps, end;
        }
        if !outcome.Grants() {
          var ok;
          ghost var mid, more := backend.Tables(), [];
          ok, calls, more, end := ReleaseRequests(j, requests[..i], "rollback-partial-acquire", clock, i + 2, before, calls, smooth, hi,
                                                  Refused(first, j, requests, i));
          RolledBack(before, first, steps, mid, j, requests, i, more, backend.Tables(), end);
          return if ok then Wait(q.name) else Raised, calls, steps + more, end;
        }
      }
      end := AttemptSucceeds(before, backend.Tables(), calls, first, steps, j, requests, smooth, hi);
      acquired := acquired[j := requests];
      r := Got;
    }

    /** Releasing one lock after the other; a release that raises ends it. */
    method ReleaseRequests(j: string, requests: seq<Request>, details: string, clock: nat -> int, n: nat,
                           ghost before: S.Store, ghost calls: seq<S.Call>, ghost smooth: bool, ghost hi: int, ghost cur: C.Run)
      returns (ok: bool, ghost calls': seq<S.Call>, ghost steps: seq<C.Step>, ghost end: C.Run)
      requires backend != null && Leads(before, calls, backend.Tables())
      requires smooth ==> Partial(before, backend.Tables(), Me(j), NamesOf(requests), {}, hi)
      modifies backend
      ensures Leads(before, calls', backend.Tables())
      ensures smooth ==> ok && OnlyLapsed(before, backend.Tables(), hi)
      ensures ok ==> Without(old(backend.Tables()), backend.Tables(), Me(j), NamesOf(requests))
      ensures Returns(cur, j, details) && cur.Me(j) == Me(j) ==>
                && Leg(old(backend.Tables()), C.Left(cur, requests), steps, backend.Tables(), end, {})
                && if ok then end == C.Left(cur, []) else Crashed(cur, end)
    {
      ghost var me, start := Me(j), backend.Tables();
      ghost var known := Returns(cur, j, details) && cur.Me(j) == me;
      calls', steps, end := calls, [], cur;
      AllGivenBack(before, start, me, requests, hi);
      assert requests[0..] == requests;
      for i := 0 to |requests|
        invariant Leads(before, calls', backend.Tables())
        invariant smooth ==> GivenBack(before, backend.Tables(), me, requests, i, hi)
        invariant Without(start, backend.Tables(), me, NamesOf(requests[..i]))
        invariant known ==> Leg(start, C.Left(cur, requests), steps, backend.Tables(), C.Left(cur, requests[i..]), {})
      {
        ghost var store := backend.Tables();
        var outcome, c := backend.Release(requests[i].name, Me(j), details, clock(n + i));
        LeadsSnoc(before, calls', store, c);
        calls' := calls' + [c];
        if smooth {
          GiveBack(before, store, me, requests, i, hi, c);
        }
        if known {
          end := ReleaseLeg(start, C.Left(cur, requests), steps, store, cur, j, details, requests, i, c);
        }
        steps := steps + [C.Of(0, C.Proceed, c)];
        if outcome.Raised() {
          return false, calls', steps, end;
        }
        NamesSnoc(requests, i);
        WithoutSnoc(start, store, me, NamesOf(requests[..i]), c);
      }
      assert requests[..|requests|] == requests && requests[|requests|..] == [];
      AllGivenBack(before, backend.Tables(), me, requests, hi);
      ok := true;
      if known {
        end := C.Left(cur, []);
      }
    }

    /** The backend branch of `_release_locks`: exactly the rows of the slice go. */
    method ReleaseGlobal(j: string, clock: nat -> int, ghost cur: C.Run)
      returns (ok: bool, ghost calls: seq<S.Call>, ghost steps: seq<C.Step>, ghost end: C.Run)
      requires backend != null && j in acquired
      modifies this`acquired, backend
      ensures Leads(old(backend.Tables()), calls, backend.Tables())
      ensures acquired == if ok then old(acquired)[j := []] else old(acquired)
      ensures ok ==> Without(old(backend.Tables()), backend.Tables(), Me(j), NamesOf(old(acquired)[j]))
      ensures Returns(cur, j, "slice-finished") && cur.Me(j) == Me(j) ==>
                && Leg(old(backend.Tables()), C.Left(cur, old(acquired)[j]), steps, backend.Tables(), end, {})
                && if ok then end == C.Left(cur, []) else Crashed(cur, end)
    {
      ok, calls, steps, end := ReleaseRequests(j, acquired[j], "slice-finished", clock, 0, backend.Tables(), [], false, 0, cur);
      if ok {
        acquired := acquired[j := []];
      }
    }

    /** The backend branch of `_heartbeat_running_locks`. If no heartbeat raises, every lease of every
        running slice was still held when the round began, whatever the clock did. */
    method HeartbeatGlobal(clock: nat -> int) returns (ok: bool, ghost calls: seq<S.Call>, ghost steps: seq<C.Step>, ghost end: C.Run)
      requires backend != null && running <= acquired.Keys
      modifies backend
      ensures Leads(old(backend.Tables()), calls, backend.Tables())
      ensures ok ==> forall j, q | j in running && q in acquired[j] :: S.Holds(old(backend.Tables()), q.name, Me(j))
      ensures C.WellTyped(AsRun()) ==>
                && Path(old(backend.Tables()), AsRun(), steps, backend.Tables(), end)
                && if ok then end == AsRun() && AllBeats(AsRun(), Decisions(steps)) else Crashed(AsRun(), end)
    {
      ghost var before, me := backend.Tables(), AsRun();
      calls, steps, end := [], [], me;
      var todo, n: nat := running, 0;
      while todo != {}
        invariant todo <= running && Beats(calls) && Leads(before, calls, backend.Tables())
        invariant forall j, q | j in running && j !in todo && q in acquired[j] :: S.Holds(before, q.name, Me(j))
        invariant C.WellTyped(me) ==> BeatingLeg(before, me, steps, backend.Tables(), running - todo)
        decreases |todo|
      {
        var j :| j in todo;
        ghost var mid, more := backend.Tables(), [];
        ok, n, calls, more, end := BeatSlice(j, clock, n, before, calls);
        if C.WellTyped(me) {
          MoreBeats(before, me, steps, mid, running - todo, j, more, backend.Tables(), end, ok);
        }
        steps := steps + more;
        if !ok {
          return;
        }
        todo := todo - {j};
      }
      ok, end := true, me;
    }

    method BeatSlice(j: string, clock: nat -> int, n: nat, ghost before: S.Store, ghost calls: seq<S.Call>)
      returns (ok: bool, n': nat, ghost calls': seq<S.Call>, ghost steps: seq<C.Step>, ghost end: C.Run)
      requires backend != null && j in running && j in acquired && Beats(calls) && Leads(before, calls, backend.Tables())
      modifies backend
      ensures Beats(calls') && Leads(before, calls', backend.Tables())
      ensures ok ==> forall q | q in acquired[j] :: S.Holds(before, q.name, Me(j))
      ensures C.WellTyped(AsRun()) ==>
                && Path(old(backend.Tables()), AsRun(), steps, backend.Tables(), end)
                && if ok then end == AsRun() && Decisions(steps) == BeatsUpTo(j, |acquired[j]|) else Crashed(AsRun(), end)
    {
      ghost var start, me := backend.Tables(), AsRun();
      var requests := acquired[j];
      n', calls', steps, end := n, calls, [], me;
      for i := 0 to |requests|
        invariant Beats(calls') && Leads(before, calls', backend.Tables())
        invariant forall k | 0 <= k < i :: S.Holds(before, requests[k].name, Me(j))
        invariant C.WellTyped(me) ==> Leg(start, me, steps, backend.Tables(), me, BeatsUpTo(j, i))
      {
        ghost var store := backend.Tables();
        var outcome, c := backend.Heartbeat(requests[i].name, Me(j), cfg.lockTtl, "scheduler-heartbeat", clock(n'));
        if outcome.Beat? {
          BeatMeansHeld(before, calls', store, c, requests[i].name, Me(j));
        }
        LeadsSnoc(before, calls', store, c);
        if C.WellTyped(me) {
          end := BeatLeg(start, me, steps, store, j, i, c);
        }
        calls', n', steps := calls' + [c], n' + 1, steps + [C.Of(0, C.Beat(j, i), c)];
        if outcome.Raised() {
          return false, n', calls', steps, end;
        }
      }
      ok := true;
      end := me;
    }

    // ---- the loop body with a backend ----

    ghost predicate ObeysGlobal(r: seq<Move>, codes: Codes)
      requires Prepared() && LegalRun(plan, cfg, names, Fresh(plan), r)
    {
      RunFollows(plan, cfg, names, Fresh(plan), r, codes)
    }

    lemma ReachedGlobal()
      requires ValidGlobal()
      ensures running <= plan.Keys
    {
      CoreReached(plan, cfg, names, coreRun);
    }

    lemma NotRunning(j: string)
      requires ValidGlobal() && j in phases && phases[j].status == Pending
      ensures j !in running && running <= plan.Keys
    {
      CoreReached(plan, cfg, names, coreRun);
    }

    lemma TypedRun()
      requires Prepared() && phases.Keys == plan.Keys
      ensures C.WellTyped(AsRun())
    {
    }

    /** Between two passes, what the cluster promises of a run holds. */
    lemma BetweenPasses()
      requires ValidGlobal()
      ensures C.RunInvariant(AsRun())
    {
      CoreReached(plan, cfg, names, coreRun);
    }

    /** What a scheduler with a backend has when it is done is what the plan, the retry budget and the
        return codes decide. */
    lemma EndedGlobal(codes: Codes)
      requires ValidGlobal() && ObeysGlobal(coreRun, codes)
      ensures WithinBudget(cfg, State()) && LettersTrue(State(), codes)
      ensures Ended(phases) ==> Decided(plan, cfg, codes, phases)
    {
      Budget(plan, cfg, names, coreRun);
      RunLetters(plan, cfg, names, Fresh(plan), coreRun, codes);
      SameOutcome(plan, cfg, cfg, names, coreRun, coreRun, codes);
    }

    ghost method AdvanceGlobal(m: Move, before: Core)
      requires Prepared() && backend != null && LegalRun(plan, cfg, names, Fresh(plan), coreRun)
      requires before == RunFrom(plan, cfg, names, Fresh(plan), coreRun) && before.phases.Keys == plan.Keys
      requires MoveEnabled(plan, cfg, before, m) && State() == Apply(plan, cfg, names, before, m)
      requires C.Equipped(AsRun())
      modifies this`coreRun
      ensures coreRun == old(coreRun) + [m] && ValidGlobal()
      ensures forall codes: Codes | ObeysGlobal(old(coreRun), codes) && ObeysCore(before, m, codes) :: ObeysGlobal(coreRun, codes)
    {
      CoreExtended(plan, cfg, names, Fresh(plan), coreRun, m);
      ApplyKeys(plan, cfg, names, before, m);
      coreRun := coreRun + [m];
    }

    /** A finished slice; a release that raises ends the run before the result is recorded. */
    method FinishGlobal(j: string, rc: int, clock: nat -> int) returns (ok: bool, ghost steps: seq<C.Step>, ghost end: C.Run)
      requires backend != null && C.WellTyped(AsRun()) && j in plan && j in running && j in acquired
      modifies this`phases, this`running, this`byRepo, this`byHotArea, this`completed, this`failed, this`dlq, this`acquired, backend
      ensures Leg(old(backend.Tables()), old(AsRun()), steps, backend.Tables(), end, {C.Done(j, rc)})
      ensures if ok then State() == Finalized(plan, cfg, old(State()), j, rc) && acquired == old(acquired)[j := []] && end == AsRun()
              else C.Executing(end) == running && end.activity.Halted?
    {
      ghost var before, start, first := State(), backend.Tables(), AsRun();
      ghost var cur, more := first.(activity := C.Releasing(j, rc, acquired[j])), [];
      LowerCounters(j);
      ghost var calls;
      ok, calls, more, end := ReleaseGlobal(j, clock, cur);
      QuietLeg(start, first, C.Done(j, rc));
      LegConcat(start, first, [Quietly(C.Done(j, rc))], start, C.Left(cur, cur.acquired[j]), more, backend.Tables(), end, {C.Done(j, rc)}, {});
      steps := [Quietly(C.Done(j, rc))] + more;
      if ok {
        RecordResult(j, rc, before);
      }
    }

    method CollectGlobal(j: string, codes: Codes, clock: nat -> int) returns (ok: bool, ghost steps: seq<C.Step>, ghost end: C.Run)
      requires ValidGlobal() && j in running && j in plan
      modifies this, backend
      ensures Leg(old(backend.Tables()), old(AsRun()), steps, backend.Tables(), end, {C.Done(j, codes(j, old(phases)[j].attempt))})
      ensures if ok then ValidGlobal() && end == AsRun() else C.Executing(end) == running && end.activity.Halted?
      ensures ok ==> State() == Finalized(plan, cfg, old(State()), j, codes(j, old(phases)[j].attempt))
      ensures ok ==> coreRun == old(coreRun) + [Finalize(j, codes(j, old(phases)[j].attempt))]
      ensures ok && ObeysGlobal(old(coreRun), codes) ==> ObeysGlobal(coreRun, codes)
    {
      ghost var before, first := State(), AsRun();
      TypedRun();
      var rc := codes(j, phases[j].attempt);
      ok, steps, end := FinishGlobal(j, rc, clock);
      if ok {
        C.RecordedEquipped(first, AsRun(), j);
        AdvanceGlobal(Finalize(j, rc), before);
      }
    }

    /** `_can_run` followed by the start of the slice. */
    method StartIfGranted(j: string, clock: nat -> int) returns (r: Acquisition, ghost steps: seq<C.Step>, ghost end: C.Run)
      requires Prepared() && backend != null && phases.Keys == plan.Keys && running <= plan.Keys && j in plan && phases[j].status == Pending
      modifies this`acquired, this`phases, this`running, this`byRepo, this`byHotArea, backend
      ensures if r.Got? then Gate(plan, cfg, old(State()), j) && State() == Began(plan, old(State()), j)
                             && acquired == old(acquired)[j := GlobalLockRequests(plan[j])]
              else State() == old(State()) && acquired == old(acquired)
      ensures Leg(old(backend.Tables()), old(AsRun()), steps, backend.Tables(), end, Attempted(plan, cfg, old(State()), j))
      ensures if r.Raised? then Crashed(old(AsRun()), end) else end == AsRun()
    {
      var open := GateOpen(j);
      if !open {
        NoLeg(backend.Tables(), AsRun());
        return Wait(""), [], AsRun();
      }
      r, steps, end := StartIfAcquired(j, clock);
    }

    method StartIfAcquired(j: string, clock: nat -> int) returns (r: Acquisition, ghost steps: seq<C.Step>, ghost end: C.Run)
      requires Prepared() && backend != null && phases.Keys == plan.Keys && MayTry(AsRun(), j)
      modifies this`acquired, this`phases, this`running, this`byRepo, this`byHotArea, backend
      ensures if r.Got? then State() == Began(plan, old(State()), j) && acquired == old(acquired)[j := GlobalLockRequests(plan[j])]
              else State() == old(State()) && acquired == old(acquired)
      ensures Leg(old(backend.Tables()), old(AsRun()), steps, backend.Tables(), end, {C.TryJob(j)})
      ensures if r.Raised? then Crashed(old(AsRun()), end) else end == AsRun()
    {
      ghost var calls;
      r, calls, steps, end := AcquireGlobal(j, clock, 0, 0);
      if r.Got? {
        StartCore(j);
      }
    }

    ghost method AdvanceBegin(j: string, first: C.Run, codes: Codes)
      requires Prepared() && backend != null && LegalRun(plan, cfg, names, Fresh(plan), coreRun)
      requires first.core == RunFrom(plan, cfg, names, Fresh(plan), coreRun) && first.core.phases.Keys == plan.Keys
      requires first.plan == plan && C.Equipped(first) && j in plan && first.core.phases[j].status == Pending && Gate(plan, cfg, first.core, j)
      requires State() == Began(plan, first.core, j) && acquired == first.acquired[j := GlobalLockRequests(plan[j])]
      modifies this`coreRun
      ensures ValidGlobal() && coreRun == old(coreRun) + [Begin(j)]
      ensures ObeysGlobal(old(coreRun), codes) ==> ObeysGlobal(coreRun, codes)
    {
      C.StartEquipped(first, AsRun(), j, GlobalLockRequests(plan[j]));
      AdvanceGlobal(Begin(j), first.core);
    }

    method TryStartGlobal(j: string, clock: nat -> int, ghost codes: Codes) returns (r: Acquisition, ghost steps: seq<C.Step>, ghost end: C.Run)
      requires ValidGlobal() && j in plan && phases[j].status == Pending && running <= plan.Keys
      modifies this, backend
      ensures ValidGlobal() && coreRun == old(coreRun) + if r.Got? then [Begin(j)] else []
      ensures State() == if r.Got? then Began(plan, old(State()), j) else old(State())
      ensures ObeysGlobal(old(coreRun), codes) ==> ObeysGlobal(coreRun, codes)
      ensures Leg(old(backend.Tables()), old(AsRun()), steps, backend.Tables(), end, Attempted(plan, cfg, old(State()), j))
      ensures if r.Raised? then C.Executing(end) == running && end.activity.Halted? else end == AsRun()
    {
      ghost var first := AsRun();
      r, steps, end := StartIfGranted(j, clock);
      if r.Got? {
        AdvanceBegin(j, first, codes);
      } else {
        AtRest(AsRun());
      }
    }

    method PropagateGlobal() returns (ghost steps: seq<C.Step>)
      requires ValidGlobal()
      modifies this`phases, this`completed, this`failed, this`coreRun
      ensures ValidGlobal() && coreRun == old(coreRun) + [BlockPass] && running == old(running)
      ensures forall codes: Codes | ObeysGlobal(old(coreRun), codes) :: ObeysGlobal(coreRun, codes)
      ensures forall store :: Leg(store, old(AsRun()), steps, store, AsRun(), {C.Propagate})
    {
      ghost var before, first := State(), AsRun();
      TypedRun();
      PropagateFailures();
      AdvanceGlobal(BlockPass, before);
      steps := [Quietly(C.Propagate)];
      forall store ensures Leg(store, first, steps, store, AsRun(), {C.Propagate}) {
        QuietLeg(store, first, C.Propagate);
      }
    }

    method CollectNextGlobal(j: string, codes: Codes, clock: (string, nat) -> int, ghost start: S.Store, ghost first: C.Run,
                             ghost steps: seq<C.Step>, ghost done: set<string>, ghost todo: set<string>)
      returns (ok: bool, ghost steps': seq<C.Step>, ghost end: C.Run)
      requires ValidGlobal() && j in todo && GatheringLeg(start, first, steps, backend.Tables(), AsRun(), done, todo, codes)
      modifies this, backend
      ensures if ok then ValidGlobal() && GatheringLeg(start, first, steps', backend.Tables(), AsRun(), done, todo - {j}, codes)
              else Path(start, first, steps', backend.Tables(), end) && C.Executing(end) == running && end.activity.Halted?
      ensures ok && ObeysGlobal(old(coreRun), codes) ==> ObeysGlobal(coreRun, codes)
    {
      ReachedGlobal();
      ghost var mid, here, more := backend.Tables(), AsRun(), [];
      ok, more, end := CollectGlobal(j, codes, (n: nat) => clock(j, n));
      steps' := steps + more;
      if ok {
        Gathered(start, first, steps, mid, here, done, todo, codes, j, more, backend.Tables(), end);
      } else {
        PathConcat(start, first, steps, mid, here, more, backend.Tables(), end);
      }
    }

    method CollectDoneGlobal(done: set<string>, codes: Codes, clock: (string, nat) -> int) returns (ok: bool, ghost steps: seq<C.Step>, ghost end: C.Run)
      requires ValidGlobal() && done <= running && done <= phases.Keys
      modifies this, backend
      ensures Path(old(backend.Tables()), old(AsRun()), steps, backend.Tables(), end)
      ensures if ok then ValidGlobal() && end == AsRun() && (ObeysGlobal(old(coreRun), codes) ==> ObeysGlobal(coreRun, codes))
              else C.Executing(end) == running && end.activity.Halted?
      ensures ok ==> Decisions(steps) == Results(old(phases), done, codes) && running == old(running) - done
    {
      ghost var start, first, run0 := backend.Tables(), AsRun(), coreRun;
      ok, steps, end := true, [], first;
      NothingGathered(start, first, done, codes);
      var todo := done;
      while todo != {}
        invariant ValidGlobal() && (ObeysGlobal(run0, codes) ==> ObeysGlobal(coreRun, codes))
        invariant GatheringLeg(start, first, steps, backend.Tables(), AsRun(), done, todo, codes)
        decreases todo
      {
        var j :| j in todo;
        ok, steps, end := CollectNextGlobal(j, codes, clock, start, first, steps, done, todo);
        if !ok {
          return;
        }
        todo := todo - {j};
      }
      AllGathered(start, first, steps, backend.Tables(), AsRun(), done, codes);
      ok, end := true, AsRun();
    }

    method TryNextGlobal(i: nat, clock: (string, nat) -> int, ghost codes: Codes, ghost start: S.Store, ghost first: C.Run,
                         ghost steps: seq<C.Step>)
      returns (ok: bool, ghost steps': seq<C.Step>, ghost end: C.Run)
      requires ValidGlobal() && i < |names| && Path(start, first, steps, backend.Tables(), AsRun())
      requires Covered(plan, cfg, State(), names, i, Decisions(steps))
      modifies this, backend
      ensures Path(start, first, steps', backend.Tables(), end)
      ensures if ok then ValidGlobal() && end == AsRun() && (ObeysGlobal(old(coreRun), codes) ==> ObeysGlobal(coreRun, codes))
              else C.Executing(end) == running && end.activity.Halted?
      ensures Covered(plan, cfg, State(), names, i + 1, Decisions(steps'))
    {
      ghost var mid, here, more := backend.Tables(), AsRun(), [];
      ok, more, end := TryOneGlobal(names[i], (n: nat) => clock(names[i], n), codes);
      LegConcat(start, first, steps, mid, here, more, backend.Tables(), end, Decisions(steps), Attempted(plan, cfg, old(State()), names[i]));
      CoveredNext(plan, cfg, old(State()), State(), names, i, Decisions(steps));
      steps' := steps + more;
    }

    method TryOneGlobal(j: string, clock: nat -> int, ghost codes: Codes) returns (ok: bool, ghost steps: seq<C.Step>, ghost end: C.Run)
      requires ValidGlobal() && j in plan
      modifies this, backend
      ensures Leg(old(backend.Tables()), old(AsRun()), steps, backend.Tables(), end, Attempted(plan, cfg, old(State()), j))
      ensures phases.Keys == plan.Keys
      ensures if ok then ValidGlobal() && end == AsRun() && (ObeysGlobal(old(coreRun), codes) ==> ObeysGlobal(coreRun, codes))
              else C.Executing(end) == running && end.activity.Halted?
      ensures State() == old(State()) || (old(phases)[j].status == Pending && State() == Began(plan, old(State()), j))
    {
      ok, steps, end := true, [], AsRun();
      NoLeg(backend.Tables(), AsRun());
      if phases[j].status == Pending {
        NotRunning(j);
      }
      if j !in running && phases[j].status == Pending {
        var r;
        r, steps, end := TryStartGlobal(j, clock, codes);
        ok := !r.Raised?;
      }
    }

    /** Pending slices are tried in name order. One that is still pending although its gate is open was
        tried, and its locks refused. */
    method SchedulePassGlobal(clock: (string, nat) -> int, ghost codes: Codes) returns (ok: bool, ghost steps: seq<C.Step>, ghost end: C.Run)
      requires ValidGlobal()
      modifies this, backend
      ensures Path(old(backend.Tables()), old(AsRun()), steps, backend.Tables(), end)
      ensures if ok then ValidGlobal() && end == AsRun() && (ObeysGlobal(old(coreRun), codes) ==> ObeysGlobal(coreRun, codes))
              else C.Executing(end) == running && end.activity.Halted?
      ensures ok ==> Covered(plan, cfg, State(), names, |names|, Decisions(steps))
    {
      ghost var start, first, run0 := backend.Tables(), AsRun(), coreRun;
      ok, steps, end := true, [], first;
      NoPath(start, first);
      for i := 0 to |names|
        invariant ValidGlobal() && (ObeysGlobal(run0, codes) ==> ObeysGlobal(coreRun, codes))
        invariant Path(start, first, steps, backend.Tables(), AsRun())
        invariant Covered(plan, cfg, State(), names, i, Decisions(steps))
      {
        ok, steps, end := TryNextGlobal(i, clock, codes, start, first, steps);
        if !ok {
          return;
        }
      }
      ok, end := true, AsRun();
    }

    /** One pass of the main loop with a backend is a path of the run that this scheduler is in a cluster:
        heartbeats of all that its running slices hold, the return codes of the futures that are done,
        one propagation, and an attempt at every pending slice whose gate is open. If the backend raises,
        the path ends with the run halted and the same slices executing. */
    method TickGlobal(done: set<string>, codes: Codes, beats: nat -> int, releases: (string, nat) -> int, tries: (string, nat) -> int)
      returns (ok: bool, ghost steps: seq<C.Step>, ghost end: C.Run)
      requires ValidGlobal() && done <= running
      modifies this, backend
      ensures Path(old(backend.Tables()), old(AsRun()), steps, backend.Tables(), end)
      ensures Leads(old(backend.Tables()), C.StoreCalls(C.State(old(backend.Tables()), [old(AsRun())]), steps), backend.Tables())
      ensures if ok then ValidGlobal() && end == AsRun() else end.activity.Halted? && C.Executing(end) == running
      ensures ok && ObeysGlobal(old(coreRun), codes) ==> ObeysGlobal(coreRun, codes)
      ensures ok ==> done <= old(phases).Keys && PassDecides(Decisions(steps), old(AsRun()), Results(old(phases), done, codes), AsRun())
    {
      ghost var start, first, calls := backend.Tables(), AsRun(), [];
      ReachedGlobal();
      TypedRun();
      ok, calls, steps, end := HeartbeatGlobal(beats);
      if ok {
        ghost var mid, more := backend.Tables(), [];
        ok, more, end := RoundGlobal(done, codes, releases, tries);
        PathConcat(start, first, steps, mid, first, more, backend.Tables(), end);
        if ok {
          AllDecided(steps, more, first, Results(first.core.phases, done, codes), AsRun());
        }
        steps := steps + more;
      }
      HistoryLeads(C.State(start, [first]), steps);
    }

    /** What follows the heartbeats. */
    method RoundGlobal(done: set<string>, codes: Codes, releases: (string, nat) -> int, tries: (string, nat) -> int)
      returns (ok: bool, ghost steps: seq<C.Step>, ghost end: C.Run)
      requires ValidGlobal() && done <= running && done <= phases.Keys
      modifies this, backend
      ensures Path(old(backend.Tables()), old(AsRun()), steps, backend.Tables(), end)
      ensures if ok then ValidGlobal() && end == AsRun() && (ObeysGlobal(old(coreRun), codes) ==> ObeysGlobal(coreRun, codes))
              else end.activity.Halted? && C.Executing(end) == running
      ensures ok ==> RoundDecides(Decisions(steps), Results(old(phases), done, codes), AsRun())
    {
      ghost var start, first := backend.Tables(), AsRun();
      ok, steps, end := CollectDoneGlobal(done, codes, releases);
      if !ok {
        return;
      }
      ghost var mid, here, more, collected := backend.Tables(), AsRun(), [], Decisions(steps);
      more := PropagateGlobal();
      assert Leg(mid, here, more, mid, AsRun(), {C.Propagate});
      LegConcat(start, first, steps, mid, here, more, mid, AsRun(), collected, {C.Propagate});
      steps, here := steps + more, AsRun();
      ok, more, end := SchedulePassGlobal(tries, codes);
      LegConcat(start, first, steps, mid, here, more, backend.Tables(), end, collected + {C.Propagate}, Decisions(more));
      if ok {
        RoundDecided(collected, Decisions(more), AsRun());
      }
      steps := steps + more;
    }
  }

  ghost predicate Beats(calls: seq<S.Call>) {
    forall c | c in calls :: c.op.Heartbeat?
  }
}
