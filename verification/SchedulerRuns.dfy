/** Whole runs of the scheduler: first of the part that both lock modes share, then with the in-memory
    lock table. A run is any sequence of moves; the polling loop of the source is one way to order them. */
module SchedulerRuns {
  import opened Text
  import opened SlicePlan
  import opened JobPhases
  import opened SchedulerCore
  import L = LocalLocks

  // ---- every move is a sequence of status changes ----

  ghost predicate Traced(plan: Plan, cfg: Config, ph: Phases, h: seq<Change>) {
    Legal(DepsOf(plan), Limit(cfg), h) && After(DepsOf(plan), Limit(cfg), h) == ph
  }

  ghost predicate Follows(plan: Plan, cfg: Config, codes: Codes, h: seq<Change>) {
    Legal(DepsOf(plan), Limit(cfg), h) && Obeys(DepsOf(plan), Limit(cfg), codes, h)
  }

  lemma {:induction false} TraceChange(plan: Plan, cfg: Config, ph: Phases, h: seq<Change>, ch: Change)
    requires ph.Keys == plan.Keys && Traced(plan, cfg, ph, h) && Enabled(DepsOf(plan), ph, ch)
    ensures Traced(plan, cfg, Next(DepsOf(plan), Limit(cfg), ph, ch), h + [ch])
    ensures forall codes: Codes | Follows(plan, cfg, codes, h) && (ch.Finish? ==> ch.rc == codes(ch.job, ph[ch.job].attempt)) ::
              Follows(plan, cfg, codes, h + [ch])
  {
    LegalSnoc(DepsOf(plan), Limit(cfg), h, ch);
  }

  lemma {:induction false} TraceBlocks(plan: Plan, cfg: Config, ph: Phases, h: seq<Change>, names: seq<string>) returns (h': seq<Change>)
    requires ph.Keys == plan.Keys && Traced(plan, cfg, ph, h) && forall j | j in names :: j in plan
    ensures forall j | j in Blocks(DepsOf(plan), ph, names) :: j in plan
    ensures Traced(plan, cfg, SetBlocked(ph, Blocks(DepsOf(plan), ph, names)), h')
    ensures forall codes: Codes | Follows(plan, cfg, codes, h) :: Follows(plan, cfg, codes, h')
    decreases names
  {
    var deps := DepsOf(plan);
    BlocksMember(deps, ph, names);
    if names == [] {
      assert SetBlocked(ph, []) == ph;
      h' := h;
    } else {
      var j, rest := names[0], names[1..];
      if ph[j].status == Pending && ParentBad(deps, ph, j) {
        var ph' := Next(deps, Limit(cfg), ph, Block(j));
        TraceChange(plan, cfg, ph, h, Block(j));
        h' := TraceBlocks(plan, cfg, ph', h + [Block(j)], rest);
        SetBlockedCons(ph, j, Blocks(deps, ph', rest));
      } else {
        h' := TraceBlocks(plan, cfg, ph, h, rest);
      }
    }
  }

  lemma {:induction false} TraceMove(plan: Plan, cfg: Config, names: seq<string>, c: Core, h: seq<Change>, m: Move) returns (h': seq<Change>)
    requires Lists(plan, names) && Consistent(plan, cfg, c) && Traced(plan, cfg, c.phases, h) && MoveEnabled(plan, cfg, c, m)
    ensures Traced(plan, cfg, Apply(plan, cfg, names, c, m).phases, h')
    ensures forall codes: Codes | Follows(plan, cfg, codes, h) && (m.Finalize? ==> m.rc == codes(m.job, c.phases[m.job].attempt)) ::
              Follows(plan, cfg, codes, h')
  {
    match m
    case Begin(j) =>
      TraceChange(plan, cfg, c.phases, h, Start(j));
      h' := h + [Start(j)];
    case Finalize(j, rc) => h' := TraceFinish(plan, cfg, c, h, j, rc);
    case BlockPass =>
      h' := TraceBlocks(plan, cfg, c.phases, h, names);
  }

  lemma {:induction false} TraceFinish(plan: Plan, cfg: Config, c: Core, h: seq<Change>, j: string, rc: int) returns (h': seq<Change>)
    requires c.phases.Keys == plan.Keys && Traced(plan, cfg, c.phases, h) && j in plan && c.phases[j].status == Running
    ensures Traced(plan, cfg, Finalized(plan, cfg, c, j, rc).phases, h')
    ensures forall codes: Codes | Follows(plan, cfg, codes, h) && rc == codes(j, c.phases[j].attempt) :: Follows(plan, cfg, codes, h')
  {
    TraceChange(plan, cfg, c.phases, h, Finish(j, rc));
    h' := h + [Finish(j, rc)];
  }

  // ---- runs of the shared part ----

  ghost predicate LegalRun(plan: Plan, cfg: Config, names: seq<string>, c: Core, moves: seq<Move>)
    requires Lists(plan, names)
    decreases moves
  {
    c.phases.Keys == plan.Keys
    && (moves == [] || (MoveEnabled(plan, cfg, c, moves[0]) && LegalRun(plan, cfg, names, Apply(plan, cfg, names, c, moves[0]), moves[1..])))
  }

  ghost function RunFrom(plan: Plan, cfg: Config, names: seq<string>, c: Core, moves: seq<Move>): Core
    requires Lists(plan, names) && LegalRun(plan, cfg, names, c, moves)
    decreases moves
  {
    if moves == [] then c else RunFrom(plan, cfg, names, Apply(plan, cfg, names, c, moves[0]), moves[1..])
  }

  /** Every return code of the run is the one `codes` gives for that slice and attempt. */
  ghost predicate RunFollows(plan: Plan, cfg: Config, names: seq<string>, c: Core, moves: seq<Move>, codes: Codes)
    requires Lists(plan, names) && LegalRun(plan, cfg, names, c, moves)
    decreases moves
  {
    moves == [] ||
    (&& (moves[0].Finalize? ==> moves[0].job in c.phases && moves[0].rc == codes(moves[0].job, c.phases[moves[0].job].attempt))
     && RunFollows(plan, cfg, names, Apply(plan, cfg, names, c, moves[0]), moves[1..], codes))
  }

  lemma {:induction false} MoveConsistent(plan: Plan, cfg: Config, names: seq<string>, c: Core, m: Move)
    requires WellFormed(plan) && Lists(plan, names) && Consistent(plan, cfg, c) && MoveEnabled(plan, cfg, c, m)
    ensures Consistent(plan, cfg, Apply(plan, cfg, names, c, m))
  {
    match m
    case Begin(j) => BeginConsistent(plan, cfg, c, j);
    case Finalize(j, rc) => FinalizeConsistent(plan, cfg, c, j, rc);
    case BlockPass => PassConsistent(plan, cfg, c, names);
  }

  lemma {:induction false} RunTraced(plan: Plan, cfg: Config, names: seq<string>, c: Core, h: seq<Change>, moves: seq<Move>) returns (h': seq<Change>)
    requires WellFormed(plan) && Lists(plan, names) && LegalRun(plan, cfg, names, c, moves)
    requires Consistent(plan, cfg, c) && Traced(plan, cfg, c.phases, h)
    ensures Consistent(plan, cfg, RunFrom(plan, cfg, names, c, moves))
    ensures Traced(plan, cfg, RunFrom(plan, cfg, names, c, moves).phases, h')
    ensures forall codes: Codes | Follows(plan, cfg, codes, h) && RunFollows(plan, cfg, names, c, moves, codes) ::
              Follows(plan, cfg, codes, h')
    decreases moves
  {
    if moves == [] {
      h' := h;
    } else {
      var mid := TraceMove(plan, cfg, names, c, h, moves[0]);
      MoveConsistent(plan, cfg, names, c, moves[0]);
      h' := RunTraced(plan, cfg, names, Apply(plan, cfg, names, c, moves[0]), mid, moves[1..]);
    }
  }

  /** In every reachable state the counters equal what runs and stay within capacity, no two running
      slices share an owned target, every slice that was ever started has only passed parents, and the
      totals, the failed flag and the dead-letter queue match the statuses; every blocked slice has a
      dependency path to a failed one. */
  lemma {:induction false} ReachableState(plan: Plan, cfg: Config, names: seq<string>, moves: seq<Move>)
    requires WellFormed(plan) && Lists(plan, names) && LegalRun(plan, cfg, names, Fresh(plan), moves)
    ensures
      var c := RunFrom(plan, cfg, names, Fresh(plan), moves);
      && Consistent(plan, cfg, c)
      && (forall j | j in plan && c.phases[j].attempt > 0 :: ParentsPassed(DepsOf(plan), c.phases, j))
      && (forall j | j in plan && c.phases[j].status == Blocked :: LeadsToFailed(DepsOf(plan), Statuses(c.phases), j))
  {
    FreshConsistent(plan, cfg);
    var h := RunTraced(plan, cfg, names, Fresh(plan), [], moves);
    var c := RunFrom(plan, cfg, names, Fresh(plan), moves);
    forall j | j in plan && c.phases[j].attempt > 0 ensures ParentsPassed(DepsOf(plan), c.phases, j) {
      StartedParentsPassed(DepsOf(plan), Limit(cfg), h, j);
    }
    forall j | j in plan && c.phases[j].status == Blocked ensures LeadsToFailed(DepsOf(plan), Statuses(c.phases), j) {
      BlockedReachesFailed(DepsOf(plan), Limit(cfg), h, j);
    }
  }

  lemma {:induction false} StartedParentsPassed(deps: Deps, limit: int, h: seq<Change>, j: string)
    requires Legal(deps, limit, h) && j in deps && After(deps, limit, h)[j].attempt > 0
    ensures ParentsPassed(deps, After(deps, limit, h), j)
    decreases |h|
  {
    var front, ch := h[..|h| - 1], h[|h| - 1];
    var ph := After(deps, limit, front);
    if ph[j].attempt > 0 {
      StartedParentsPassed(deps, limit, front, j);
    }
    TerminalKept(deps, limit, ph, ch, j);
  }

  // ---- what the retry budget and the return codes decide ----

  /** What the plan, the retry budget and the return codes decide about a slice. A slice is blocked iff a
      declared dependency that is a slice failed or is blocked, and then it was never tried. Otherwise it
      gets one attempt and `maxRetries` more: it passes with the first attempt that returns 0, and fails
      after the last if none does. */
  ghost predicate DecidedAt(plan: Plan, cfg: Config, codes: Codes, ph: Phases, j: string)
    requires j in plan && ph.Keys == plan.Keys
  {
    var last := if cfg.maxRetries >= 0 then cfg.maxRetries + 1 else 1;
    var stopped := exists d :: d in plan[j].dependsOn && d in plan && (ph[d].status == Failed || ph[d].status == Blocked);
    var Phase(status, a) := ph[j];
    && (status == Blocked <==> stopped)
    && (status == Passed <==> !stopped && exists b: nat :: 1 <= b <= last && codes(j, b) == 0)
    && (status == Failed <==> !stopped && forall b: nat | 1 <= b <= last :: codes(j, b) != 0)
    && (status == Blocked ==> a == 0)
    && (status == Passed ==> 1 <= a <= last && codes(j, a) == 0 && forall b: nat | 1 <= b < a :: codes(j, b) != 0)
    && (status == Failed ==> a == last)
  }

  ghost predicate Decided(plan: Plan, cfg: Config, codes: Codes, ph: Phases) {
    ph.Keys == plan.Keys && forall j | j in plan :: DecidedAt(plan, cfg, codes, ph, j)
  }

  lemma {:induction false} JustifiedDecides(plan: Plan, cfg: Config, codes: Codes, ph: Phases)
    requires ph.Keys == plan.Keys && Ended(ph) && Justified(DepsOf(plan), Limit(cfg), codes, ph)
    ensures Decided(plan, cfg, codes, ph)
  {
    forall j | j in plan ensures DecidedAt(plan, cfg, codes, ph, j) {
      JustifiedDecidesAt(plan, cfg, codes, ph, j);
    }
  }

  lemma {:induction false} JustifiedDecidesAt(plan: Plan, cfg: Config, codes: Codes, ph: Phases, j: string)
    requires ph.Keys == plan.Keys && Ended(ph) && j in plan && JustifiedAt(DepsOf(plan), Limit(cfg), codes, ph, j)
    ensures DecidedAt(plan, cfg, codes, ph, j)
  {
    var deps := DepsOf(plan);
    assert Attempts(Limit(cfg)) == if cfg.maxRetries >= 0 then cfg.maxRetries + 1 else 1;
    assert forall d :: IsParent(deps, d, j) <==> d in plan[j].dependsOn && d in plan;
    if d :| d in plan[j].dependsOn && d in plan && (ph[d].status == Failed || ph[d].status == Blocked) {
      assert IsParent(deps, d, j) && ph[d].status.Bad();
      assert ParentBad(deps, ph, j) && !ParentsPassed(deps, ph, j);
    } else {
      assert !ParentBad(deps, ph, j);
    }
  }

  /** The retry budget in every reachable state: no slice is tried more than `maxRetries + 1` times, or
      once if that is less than one; the dead letters are the failed slices, each once, with exactly that
      number of attempts. */
  ghost predicate WithinBudget(cfg: Config, c: Core) {
    var last := if cfg.maxRetries >= 0 then cfg.maxRetries + 1 else 1;
    && (forall j | j in c.phases :: c.phases[j].attempt <= last)
    && (forall i | 0 <= i < |c.dlq| :: c.dlq[i].slice in c.phases && c.phases[c.dlq[i].slice].status == Failed && c.dlq[i].attempt == last)
    && (forall j | j in c.phases && c.phases[j].status == Failed :: exists i :: 0 <= i < |c.dlq| && c.dlq[i].slice == j)
    && (forall i, k | 0 <= i < k < |c.dlq| :: c.dlq[i].slice != c.dlq[k].slice)
  }

  lemma {:induction false} ConsistentBudget(plan: Plan, cfg: Config, c: Core)
    requires Consistent(plan, cfg, c)
    ensures WithinBudget(cfg, c)
  {
    assert Attempts(Limit(cfg)) == if cfg.maxRetries >= 0 then cfg.maxRetries + 1 else 1;
  }

  lemma {:induction false} Budget(plan: Plan, cfg: Config, names: seq<string>, moves: seq<Move>)
    requires WellFormed(plan) && Lists(plan, names) && LegalRun(plan, cfg, names, Fresh(plan), moves)
    ensures WithinBudget(cfg, RunFrom(plan, cfg, names, Fresh(plan), moves))
  {
    CoreReached(plan, cfg, names, moves);
    ConsistentBudget(plan, cfg, RunFrom(plan, cfg, names, Fresh(plan), moves));
  }

  lemma {:induction false} LocalBudget(plan: Plan, cfg: Config, names: seq<string>, moves: seq<LocalMove>)
    requires WellFormed(plan) && Lists(plan, names) && LegalLocal(plan, cfg, names, FreshLocal(plan), moves)
    ensures WithinBudget(cfg, LocalFrom(plan, cfg, names, FreshLocal(plan), moves).core)
  {
    FreshLocalInvariant(plan, cfg);
    LocalRunInvariant(plan, cfg, names, FreshLocal(plan), moves);
    ConsistentBudget(plan, cfg, LocalFrom(plan, cfg, names, FreshLocal(plan), moves).core);
  }

  /** Each dead letter carries the return code of the last attempt. */
  ghost predicate LettersTrue(c: Core, codes: Codes) {
    forall i | 0 <= i < |c.dlq| :: c.dlq[i].rc == codes(c.dlq[i].slice, c.dlq[i].attempt)
  }

  lemma {:induction false} MoveLetters(plan: Plan, cfg: Config, names: seq<string>, c: Core, m: Move, codes: Codes)
    requires c.phases.Keys == plan.Keys && MoveEnabled(plan, cfg, c, m) && Lists(plan, names)
    requires LettersTrue(c, codes) && (m.Finalize? ==> m.rc == codes(m.job, c.phases[m.job].attempt))
    ensures LettersTrue(Apply(plan, cfg, names, c, m), codes)
  {
  }

  lemma {:induction false} RunLetters(plan: Plan, cfg: Config, names: seq<string>, c: Core, moves: seq<Move>, codes: Codes)
    requires Lists(plan, names) && LegalRun(plan, cfg, names, c, moves) && RunFollows(plan, cfg, names, c, moves, codes) && LettersTrue(c, codes)
    ensures LettersTrue(RunFrom(plan, cfg, names, c, moves), codes)
    decreases moves
  {
    if moves != [] {
      MoveLetters(plan, cfg, names, c, moves[0], codes);
      RunLetters(plan, cfg, names, Apply(plan, cfg, names, c, moves[0]), moves[1..], codes);
    }
  }

  lemma {:induction false} LocalLetters(plan: Plan, cfg: Config, names: seq<string>, s: Local, moves: seq<LocalMove>, codes: Codes)
    requires Lists(plan, names) && LegalLocal(plan, cfg, names, s, moves) && LocalObeys(plan, cfg, names, s, moves, codes)
    requires LettersTrue(s.core, codes)
    ensures LettersTrue(LocalFrom(plan, cfg, names, s, moves).core, codes)
    decreases moves
  {
    if moves != [] {
      LocalLetters(plan, cfg, names, LocalNext(plan, cfg, names, s, moves[0]), moves[1..], codes);
    }
  }

  /** From the plan file to a run: a slice that was ever started has passed all its declared dependencies
      that name a slice; one of them that failed or is blocked keeps it from ever being tried. */
  lemma {:induction false} StartedFromPayloads(payloads: seq<Payload>, i: nat, cfg: Config, names: seq<string>, moves: seq<Move>, d: string)
    requires i < |payloads| && Strip(payloads[i].name) != ""
    requires forall k | i < k < |payloads| :: Strip(payloads[k].name) != Strip(payloads[i].name)
    requires Lists(JobsOf(payloads), names) && LegalRun(JobsOf(payloads), cfg, names, Fresh(JobsOf(payloads)), moves)
    requires d in payloads[i].dependsOn && exists p :: p in payloads && Strip(p.name) == Strip(d) && Strip(d) != ""
    ensures
      var c, name := RunFrom(JobsOf(payloads), cfg, names, Fresh(JobsOf(payloads)), moves), Strip(payloads[i].name);
      && name in c.phases && Strip(d) in c.phases
      && (c.phases[name].attempt > 0 ==> c.phases[Strip(d)].status == Passed)
      && (forall codes: Codes | RunFollows(JobsOf(payloads), cfg, names, Fresh(JobsOf(payloads)), moves, codes) ::
            Ended(c.phases) && (c.phases[Strip(d)].status == Failed || c.phases[Strip(d)].status == Blocked) ==>
              c.phases[name] == Phase(Blocked, 0))
  {
    var plan, name := JobsOf(payloads), Strip(payloads[i].name);
    var at := JobFields(payloads, i);
    JobNames(payloads, Strip(d));
    assert Declared(payloads[i].dependsOn, Strip(d));
    assert IsParent(DepsOf(plan), Strip(d), name);
    ReachableState(plan, cfg, names, moves);
    var c := RunFrom(plan, cfg, names, Fresh(plan), moves);
    forall codes: Codes | RunFollows(plan, cfg, names, Fresh(plan), moves, codes) && Ended(c.phases)
      ensures DecidedAt(plan, cfg, codes, c.phases, name)
    {
      SameOutcome(plan, cfg, cfg, names, moves, moves, codes);
    }
  }

  /** Schedule independence of the scheduler. Two runs of one plan with the same retry budget and the
      same return code for every attempt, under any capacities, lock times and lock modes and in any
      order of moves, give each slice that both have finished the same status and attempt count; if both
      have ended, they end the same, and the statuses solve the outcome equations. */
  lemma {:induction false} SameOutcome(plan: Plan, cfg: Config, cfg': Config, names: seq<string>, moves: seq<Move>, moves': seq<Move>, codes: Codes)
    requires WellFormed(plan) && Lists(plan, names) && cfg.maxRetries == cfg'.maxRetries
    requires LegalRun(plan, cfg, names, Fresh(plan), moves) && RunFollows(plan, cfg, names, Fresh(plan), moves, codes)
    requires LegalRun(plan, cfg', names, Fresh(plan), moves') && RunFollows(plan, cfg', names, Fresh(plan), moves', codes)
    ensures
      var ph, ph' := RunFrom(plan, cfg, names, Fresh(plan), moves).phases, RunFrom(plan, cfg', names, Fresh(plan), moves').phases;
      && (forall j | j in plan :: AgreeOn(ph, ph', j))
      && (Ended(ph) && Ended(ph') ==> ph == ph')
      && (Ended(ph) ==> IsOutcome(DepsOf(plan), Limit(cfg), codes, Statuses(ph)) && Decided(plan, cfg, codes, ph))
  {
    var deps, limit := DepsOf(plan), Limit(cfg);
    FreshConsistent(plan, cfg);
    FreshConsistent(plan, cfg');
    var h := RunTraced(plan, cfg, names, Fresh(plan), [], moves);
    var h' := RunTraced(plan, cfg', names, Fresh(plan), [], moves');
    assert Follows(plan, cfg, codes, []) && Follows(plan, cfg', codes, []);
    HistoryJustified(deps, limit, codes, h');
    Agreement(deps, limit, codes, h, After(deps, limit, h'));
    if Ended(After(deps, limit, h)) {
      EndedIsOutcome(deps, limit, codes, h);
      HistoryJustified(deps, limit, codes, h);
      JustifiedDecides(plan, cfg, codes, After(deps, limit, h));
      if Ended(After(deps, limit, h')) {
        ScheduleIndependence(deps, limit, codes, h, h');
      }
    }
  }

  // ---- runs with the in-memory lock table ----

  datatype Local = Local(core: Core, locks: L.Locks)

  datatype LocalMove =
    | Heartbeat(now: real)
    | Collect(job: string, rc: int, order: seq<string>)
    | Propagate
    | Try(job: string, now: real, order: seq<string>)

  ghost predicate LocalEnabled(plan: Plan, s: Local, m: LocalMove)
    requires s.core.phases.Keys == plan.Keys
  {
    match m
    case Heartbeat(_) => true
    case Collect(j, _, order) => j in plan && j in s.core.running && Enumerates(order, L.OwnedBy(s.locks.table, j))
    case Propagate => true
    case Try(j, now, order) => j in plan && s.core.phases[j].status == Pending && Enumerates(order, L.Orphans(s.locks.table, s.core.running, now))
  }

  /** What one move does. A slice that fails the gate or does not get its locks just waits. */
  ghost function LocalNext(plan: Plan, cfg: Config, names: seq<string>, s: Local, m: LocalMove): Local
    requires s.core.phases.Keys == plan.Keys && LocalEnabled(plan, s, m) && Lists(plan, names)
  {
    match m
    case Heartbeat(now) => s.(locks := L.Beat(s.locks, s.core.running, now, cfg.lockTtl))
    case Collect(j, rc, order) => Local(Finalized(plan, cfg, s.core, j, rc), L.Release(s.locks, j, order))
    case Propagate => s.(core := PassBlocked(plan, s.core, names))
    case Try(j, now, order) =>
      if !Gate(plan, cfg, s.core, j) then s
      else
        var (locks, ok) := L.Acquire(s.locks, s.core.running, plan[j].semanticLocks, j, now, cfg.lockTtl, order);
        Local(if ok then Began(plan, s.core, j) else s.core, locks)
  }

  ghost predicate LocalInvariant(plan: Plan, cfg: Config, s: Local) {
    Consistent(plan, cfg, s.core) && L.Exact(plan, s.core.running, s.locks.table) && L.Bracketed(s.locks)
  }

  lemma {:induction false} LocalStep(plan: Plan, cfg: Config, names: seq<string>, s: Local, m: LocalMove)
    requires WellFormed(plan) && Lists(plan, names) && LocalInvariant(plan, cfg, s) && LocalEnabled(plan, s, m)
    ensures LocalInvariant(plan, cfg, LocalNext(plan, cfg, names, s, m))
  {
    match m
    case Heartbeat(now) =>
      L.BeatKeepsOwners(plan, s.locks, s.core.running, now, cfg.lockTtl);
    case Collect(j, rc, order) =>
      FinalizeConsistent(plan, cfg, s.core, j, rc);
      L.ReleaseExact(plan, s.core.running, s.locks, j, order);
      L.DropBracketed(s.locks, order);
    case Propagate =>
      PassConsistent(plan, cfg, s.core, names);
    case Try(j, now, order) =>
      AscendingDistinct(plan[j].semanticLocks);
      L.AcquireExact(plan, s.core.running, s.locks, j, now, cfg.lockTtl, order);
      L.AcquireBracketed(plan, s.core.running, s.locks, j, now, cfg.lockTtl, order);
      if Gate(plan, cfg, s.core, j) {
        BeginConsistent(plan, cfg, s.core, j);
      }
  }

  ghost predicate LegalLocal(plan: Plan, cfg: Config, names: seq<string>, s: Local, moves: seq<LocalMove>)
    requires Lists(plan, names)
    decreases moves
  {
    s.core.phases.Keys == plan.Keys
    && (moves == [] || (LocalEnabled(plan, s, moves[0]) && LegalLocal(plan, cfg, names, LocalNext(plan, cfg, names, s, moves[0]), moves[1..])))
  }

  ghost function LocalFrom(plan: Plan, cfg: Config, names: seq<string>, s: Local, moves: seq<LocalMove>): (t: Local)
    requires Lists(plan, names) && LegalLocal(plan, cfg, names, s, moves)
    ensures t.core.phases.Keys == plan.Keys
    decreases moves
  {
    if moves == [] then s else LocalFrom(plan, cfg, names, LocalNext(plan, cfg, names, s, moves[0]), moves[1..])
  }

  function FreshLocal(plan: Plan): Local {
    Local(Fresh(plan), L.NO_LOCKS)
  }

  lemma {:induction false} FreshLocalInvariant(plan: Plan, cfg: Config)
    ensures LocalInvariant(plan, cfg, FreshLocal(plan))
  {
    FreshConsistent(plan, cfg);
    assert L.Owners(map[]) == map[];
  }

  lemma {:induction false} LocalRunInvariant(plan: Plan, cfg: Config, names: seq<string>, s: Local, moves: seq<LocalMove>)
    requires WellFormed(plan) && Lists(plan, names) && LegalLocal(plan, cfg, names, s, moves) && LocalInvariant(plan, cfg, s)
    ensures LocalInvariant(plan, cfg, LocalFrom(plan, cfg, names, s, moves))
    decreases moves
  {
    if moves != [] {
      LocalStep(plan, cfg, names, s, moves[0]);
      LocalRunInvariant(plan, cfg, names, LocalNext(plan, cfg, names, s, moves[0]), moves[1..]);
    }
  }

  /** In every reachable state the lock table maps exactly the semantic locks of the running slices to
      those slices, and the event log brackets to that table without any expiry. When nothing runs any
      more the table is empty and every slice has released each lock as often as it acquired it. */
  lemma {:induction false} LocalLocksExact(plan: Plan, cfg: Config, names: seq<string>, moves: seq<LocalMove>)
    requires WellFormed(plan) && Lists(plan, names) && LegalLocal(plan, cfg, names, FreshLocal(plan), moves)
    ensures
      var s := LocalFrom(plan, cfg, names, FreshLocal(plan), moves);
      && L.Exact(plan, s.core.running, s.locks.table)
      && L.Replay(s.locks.events) == L.Held(L.Owners(s.locks.table))
      && (s.core.running == {} ==>
            s.locks.table == map[]
            && forall lock, owner ::
                 L.Times(s.locks.events, L.Acquired, lock, owner) == L.Times(s.locks.events, L.Released, lock, owner))
      && (forall lock, owner :: L.Times(s.locks.events, L.Expired, lock, owner) == 0)
  {
    FreshLocalInvariant(plan, cfg);
    LocalRunInvariant(plan, cfg, names, FreshLocal(plan), moves);
    var s := LocalFrom(plan, cfg, names, FreshLocal(plan), moves);
    forall lock, owner
      ensures L.Times(s.locks.events, L.Expired, lock, owner) == 0
      ensures s.core.running == {} ==>
                L.Times(s.locks.events, L.Acquired, lock, owner) == L.Times(s.locks.events, L.Released, lock, owner)
    {
      L.AcquiresMatchReleases(s.locks.events, lock, owner);
    }
  }

  lemma {:induction false} NextKeys(plan: Plan, cfg: Config, names: seq<string>, s: Local, m: LocalMove)
    requires s.core.phases.Keys == plan.Keys && LocalEnabled(plan, s, m) && Lists(plan, names)
    ensures LocalNext(plan, cfg, names, s, m).core.phases.Keys == plan.Keys
  {
  }

  /** Every return code of the run is the one `codes` gives for that slice and attempt. */
  ghost predicate LocalObeys(plan: Plan, cfg: Config, names: seq<string>, s: Local, moves: seq<LocalMove>, codes: Codes)
    requires Lists(plan, names) && LegalLocal(plan, cfg, names, s, moves)
    decreases moves
  {
    moves == [] ||
    (&& ObeysMove(plan, s, moves[0], codes)
     && LocalObeys(plan, cfg, names, LocalNext(plan, cfg, names, s, moves[0]), moves[1..], codes))
  }

  predicate ObeysMove(plan: Plan, s: Local, m: LocalMove, codes: Codes)
    requires s.core.phases.Keys == plan.Keys
  {
    m.Collect? && m.job in plan ==> m.rc == codes(m.job, s.core.phases[m.job].attempt)
  }

  lemma {:induction false} LocalSnoc(plan: Plan, cfg: Config, names: seq<string>, s: Local, moves: seq<LocalMove>, m: LocalMove)
    requires Lists(plan, names) && LegalLocal(plan, cfg, names, s, moves)
    requires LocalEnabled(plan, LocalFrom(plan, cfg, names, s, moves), m)
    ensures LegalLocal(plan, cfg, names, s, moves + [m])
    ensures LocalFrom(plan, cfg, names, s, moves + [m]) == LocalNext(plan, cfg, names, LocalFrom(plan, cfg, names, s, moves), m)
    ensures forall codes: Codes :: LocalObeys(plan, cfg, names, s, moves + [m], codes) <==>
              LocalObeys(plan, cfg, names, s, moves, codes) && ObeysMove(plan, LocalFrom(plan, cfg, names, s, moves), m, codes)
    decreases moves
  {
    if moves == [] {
      NextKeys(plan, cfg, names, s, m);
      assert (moves + [m])[1..] == [];
    } else {
      LocalSnoc(plan, cfg, names, LocalNext(plan, cfg, names, s, moves[0]), moves[1..], m);
      assert (moves + [m])[0] == moves[0] && (moves + [m])[1..] == moves[1..] + [m];
    }
  }

  lemma {:induction false} LocalMoveTraced(plan: Plan, cfg: Config, names: seq<string>, s: Local, h: seq<Change>, m: LocalMove) returns (h': seq<Change>)
    requires WellFormed(plan) && Lists(plan, names) && LocalInvariant(plan, cfg, s) && LocalEnabled(plan, s, m)
    requires Traced(plan, cfg, s.core.phases, h)
    ensures Traced(plan, cfg, LocalNext(plan, cfg, names, s, m).core.phases, h')
    ensures forall codes: Codes | Follows(plan, cfg, codes, h) && ObeysMove(plan, s, m, codes) :: Follows(plan, cfg, codes, h')
  {
    var t := LocalNext(plan, cfg, names, s, m);
    match m
    case Heartbeat(_) => h' := h;
    case Collect(j, rc, _) => h' := TraceMove(plan, cfg, names, s.core, h, Finalize(j, rc));
    case Propagate => h' := TraceMove(plan, cfg, names, s.core, h, BlockPass);
    case Try(j, _, _) =>
      if t.core == s.core {
        h' := h;
      } else {
        h' := TraceMove(plan, cfg, names, s.core, h, Begin(j));
      }
  }

  lemma {:induction false} LocalRunTraced(plan: Plan, cfg: Config, names: seq<string>, s: Local, h: seq<Change>, moves: seq<LocalMove>)
    returns (h': seq<Change>)
    requires WellFormed(plan) && Lists(plan, names) && LegalLocal(plan, cfg, names, s, moves) && LocalInvariant(plan, cfg, s)
    requires Traced(plan, cfg, s.core.phases, h)
    ensures Traced(plan, cfg, LocalFrom(plan, cfg, names, s, moves).core.phases, h')
    ensures forall codes: Codes | Follows(plan, cfg, codes, h) && LocalObeys(plan, cfg, names, s, moves, codes) ::
              Follows(plan, cfg, codes, h')
    decreases moves
  {
    if moves == [] {
      h' := h;
    } else {
      var mid := LocalMoveTraced(plan, cfg, names, s, h, moves[0]);
      LocalStep(plan, cfg, names, s, moves[0]);
      h' := LocalRunTraced(plan, cfg, names, LocalNext(plan, cfg, names, s, moves[0]), mid, moves[1..]);
    }
  }

  /** Every run in memory that ends solves the outcome equations, whatever its moves were. */
  lemma {:induction false} LocalOutcome(plan: Plan, cfg: Config, names: seq<string>, moves: seq<LocalMove>, codes: Codes)
    requires WellFormed(plan) && Lists(plan, names) && LegalLocal(plan, cfg, names, FreshLocal(plan), moves)
    requires LocalObeys(plan, cfg, names, FreshLocal(plan), moves, codes)
    requires Ended(LocalFrom(plan, cfg, names, FreshLocal(plan), moves).core.phases)
    ensures IsOutcome(DepsOf(plan), Limit(cfg), codes, Statuses(LocalFrom(plan, cfg, names, FreshLocal(plan), moves).core.phases))
    ensures Decided(plan, cfg, codes, LocalFrom(plan, cfg, names, FreshLocal(plan), moves).core.phases)
    ensures LettersTrue(LocalFrom(plan, cfg, names, FreshLocal(plan), moves).core, codes)
  {
    LocalLetters(plan, cfg, names, FreshLocal(plan), moves, codes);
    FreshLocalInvariant(plan, cfg);
    var h := LocalRunTraced(plan, cfg, names, FreshLocal(plan), [], moves);
    assert Follows(plan, cfg, codes, []);
    EndedIsOutcome(DepsOf(plan), Limit(cfg), codes, h);
    HistoryJustified(DepsOf(plan), Limit(cfg), codes, h);
    JustifiedDecides(plan, cfg, codes, After(DepsOf(plan), Limit(cfg), h));
  }

  // ---- one pass of the loop ----

  /** The slices that wait, in order. */
  function Awaiting(ph: Phases, names: seq<string>): seq<string>
    requires forall j | j in names :: j in ph
  {
    if names == [] then []
    else
      var front, last := names[..|names| - 1], names[|names| - 1];
      Awaiting(ph, front) + if ph[last].status == Pending then [last] else []
  }

  /** The moves try these slices in this order, each at the time that the clock shows. */
  predicate TryAll(moves: seq<LocalMove>, jobs: seq<string>, clock: string -> real) {
    |moves| == |jobs| && forall i | 0 <= i < |moves| :: moves[i].Try? && moves[i].job == jobs[i] && moves[i].now == clock(jobs[i])
  }

  /** The moves collect each of these slices once, with the return code of its attempt. */
  ghost predicate CollectAll(moves: seq<LocalMove>, done: set<string>, codes: Codes, ph: Phases) {
    && |moves| == |done|
    && (forall m | m in moves :: m.Collect? && m.job in done && m.job in ph && m.rc == codes(m.job, ph[m.job].attempt))
    && forall j | j in done :: exists m :: m in moves && m.Collect? && m.job == j
  }

  lemma {:induction false} CollectOneMore(moves: seq<LocalMove>, done: set<string>, codes: Codes, ph: Phases, m: LocalMove)
    requires CollectAll(moves, done, codes, ph) && m.Collect? && m.job !in done && m.job in ph && m.rc == codes(m.job, ph[m.job].attempt)
    ensures CollectAll(moves + [m], done + {m.job}, codes, ph)
  {
    var all := moves + [m];
    assert m in all && forall x :: x in all <==> x in moves || x == m;
    forall j | j in done ensures exists x :: x in all && x.Collect? && x.job == j {
      var x :| x in moves && x.Collect? && x.job == j;
      assert x in all;
    }
  }

  /** `ph'` differs from `ph` at `j` only. */
  ghost predicate OnlyAt(ph: Phases, ph': Phases, j: string) {
    ph'.Keys == ph.Keys && forall k | k in ph && k != j :: ph'[k] == ph[k]
  }

  lemma {:induction false} BeganOnlyAt(plan: Plan, c: Core, j: string)
    requires j in plan && j in c.phases
    ensures OnlyAt(c.phases, Began(plan, c, j).phases, j) && OnlyAt(c.phases, c.phases, j)
  {
  }

  /** `i` of the slices have had their turn: those that waited have been tried, and the others are as they
      were. */
  ghost predicate Trying(names: seq<string>, i: nat, before: Phases, now: Phases, tried: seq<LocalMove>, clock: string -> real) {
    && i <= |names| && now.Keys == before.Keys && (forall j | j in names :: j in before)
    && TryAll(tried, Awaiting(before, names[..i]), clock)
    && (forall k | i <= k < |names| :: now[names[k]] == before[names[k]])
    && forall j | j in before && now[j] != before[j] :: before[j].status == Pending
  }

  lemma {:induction false} NoneTried(names: seq<string>, ph: Phases, clock: string -> real)
    requires forall j | j in names :: j in ph
    ensures Trying(names, 0, ph, ph, [], clock)
  {
  }

  lemma {:induction false} AllTried(names: seq<string>, before: Phases, now: Phases, tried: seq<LocalMove>, clock: string -> real)
    requires Trying(names, |names|, before, now, tried, clock)
    ensures TryAll(tried, Awaiting(before, names), clock)
    ensures forall j | j in names && now[j].status == Pending :: j in Awaiting(before, names)
  {
    assert names[..|names|] == names;
    forall j | j in names && now[j].status == Pending ensures j in Awaiting(before, names) {
      AwaitingMember(before, names, j);
    }
  }

  lemma {:induction false} AwaitingMember(ph: Phases, names: seq<string>, j: string)
    requires forall k | k in names :: k in ph
    ensures j in Awaiting(ph, names) <==> j in names && ph[j].status == Pending
  {
    if names != [] {
      AwaitingMember(ph, names[..|names| - 1], j);
      assert names == names[..|names| - 1] + [names[|names| - 1]];
    }
  }

  lemma {:induction false} AwaitingOrder(ph: Phases, names: seq<string>)
    requires Ascending(names) && forall k | k in names :: k in ph
    ensures Ascending(Awaiting(ph, names))
  {
    if names != [] {
      var front, last := names[..|names| - 1], names[|names| - 1];
      var w := Awaiting(ph, front);
      AwaitingOrder(ph, front);
      forall i | 0 <= i < |w| ensures Less(w[i], last) {
        assert w[i] in w;
        AwaitingMember(ph, front, w[i]);
        var k :| 0 <= k < |front| && front[k] == w[i];
        assert names[k] == w[i];
      }
    }
  }

  lemma {:induction false} NothingCollected(done: set<string>, ph: Phases, running: set<string>, codes: Codes)
    requires done <= running && done <= ph.Keys
    ensures Collecting(done, done, ph, ph, running, [], codes)
  {
    assert done - done == {};
  }

  lemma {:induction false} AllCollected(done: set<string>, before: Phases, now: Phases, running: set<string>, collected: seq<LocalMove>, codes: Codes)
    requires Collecting(done, {}, before, now, running, collected, codes)
    ensures CollectAll(collected, done, codes, before)
  {
    assert done - {} == done;
  }

  lemma {:induction false} TryingNext(names: seq<string>, i: nat, before: Phases, now: Phases, tried: seq<LocalMove>, clock: string -> real,
                                      next: Phases, moves: seq<LocalMove>)
    requires Trying(names, i, before, now, tried, clock) && i < |names| && NoDuplicates(names) && OnlyAt(now, next, names[i])
    requires if now[names[i]].status == Pending then |moves| == 1 && moves[0].Try? && moves[0].job == names[i] && moves[0].now == clock(names[i])
             else moves == [] && next == now
    ensures Trying(names, i + 1, before, next, tried + moves, clock)
  {
    AwaitingNext(before, names, i);
  }

  lemma {:induction false} Appended<T>(a: seq<T>, b: seq<T>, c: seq<T>)
    ensures (a + b) + c == a + (b + c)
  {
  }

  /** All but the slices in `todo` have been collected, and those are as they were. */
  ghost predicate Collecting(done: set<string>, todo: set<string>, before: Phases, now: Phases, running: set<string>,
                             collected: seq<LocalMove>, codes: Codes)
  {
    && todo <= done && todo <= running && CollectAll(collected, done - todo, codes, before)
    && forall j | j in todo :: j in before && j in now && now[j] == before[j]
  }

  lemma {:induction false} CollectingNext(done: set<string>, todo: set<string>, before: Phases, now: Phases, running: set<string>,
                                          collected: seq<LocalMove>, codes: Codes, next: Phases, m: LocalMove)
    requires Collecting(done, todo, before, now, running, collected, codes) && m.Collect? && m.job in todo && OnlyAt(now, next, m.job)
    requires m.job in now && m.rc == codes(m.job, now[m.job].attempt)
    ensures Collecting(done, todo - {m.job}, before, next, running - {m.job}, collected + [m], codes)
  {
    CollectOneMore(collected, done - todo, codes, before, m);
    assert done - (todo - {m.job}) == (done - todo) + {m.job};
  }

  lemma {:induction false} AwaitingNext(ph: Phases, names: seq<string>, i: nat)
    requires i < |names| && forall j | j in names :: j in ph
    ensures Awaiting(ph, names[..i + 1]) == Awaiting(ph, names[..i]) + if ph[names[i]].status == Pending then [names[i]] else []
  {
    assert names[..i + 1][..i] == names[..i];
  }

  // ---- clock and ttl do not matter ----

  predicate SameButTimes(m: LocalMove, m': LocalMove) {
    match (m, m')
    case (Heartbeat(_), Heartbeat(_)) => true
    case (Collect(j, rc, o), Collect(j', rc', o')) => j == j' && rc == rc' && o == o'
    case (Propagate, Propagate) => true
    case (Try(j, _, _), Try(j', _, _)) => j == j'
    case _ => false
  }

  /** Equal but for when leases expire and why they were last written. */
  predicate SameLocks(l: L.Locks, l': L.Locks) {
    L.Owners(l.table) == L.Owners(l'.table) && l.events == l'.events
  }

  lemma {:induction false} SameFirstHeld(t: map<string, L.Lease>, t': map<string, L.Lease>, locks: seq<string>, j: string)
    requires L.Owners(t) == L.Owners(t')
    ensures L.FirstHeld(t, locks, j) == L.FirstHeld(t', locks, j)
  {
    var i, i' := L.FirstHeld(t, locks, j), L.FirstHeld(t', locks, j);
    forall k ensures L.HeldByOther(t, k, j) == L.HeldByOther(t', k, j) {
      assert k in L.Owners(t) <==> k in L.Owners(t');
      assert k in t ==> L.Owners(t)[k] == t[k].owner;
      assert k in t' ==> L.Owners(t')[k] == t'[k].owner;
    }
    assert i < |locks| ==> L.HeldByOther(t', locks[i], j);
    assert i' < |locks| ==> L.HeldByOther(t, locks[i'], j);
  }

  lemma {:induction false} SameTakeAll(l: L.Locks, l': L.Locks, locks: seq<string>, j: string, e: real, e': real)
    requires SameLocks(l, l')
    ensures SameLocks(L.TakeAll(l, locks, j, e), L.TakeAll(l', locks, j, e'))
  {
    if locks != [] {
      var front, last := locks[..|locks| - 1], locks[|locks| - 1];
      SameTakeAll(l, l', front, j, e, e');
      var t, t' := L.TakeAll(l, front, j, e), L.TakeAll(l', front, j, e');
      assert L.Owners(t.table[last := L.Lease(j, "slice-execution", e)]) == L.Owners(t.table)[last := j];
      assert L.Owners(t'.table[last := L.Lease(j, "slice-execution", e')]) == L.Owners(t'.table)[last := j];
    }
  }

  lemma {:induction false} SameDrop(l: L.Locks, l': L.Locks, order: seq<string>, kind: L.EventKind)
    requires SameLocks(l, l') && NoDuplicates(order) && forall k | k in order :: k in l.table && k in l'.table
    ensures SameLocks(L.Drop(l, order, kind), L.Drop(l', order, kind))
    decreases order
  {
    if order != [] {
      var k := order[0];
      assert L.Owners(l.table)[k] == l.table[k].owner && L.Owners(l'.table)[k] == l'.table[k].owner;
      assert L.Owners(l.table - {k}) == L.Owners(l.table) - {k};
      assert L.Owners(l'.table - {k}) == L.Owners(l'.table) - {k};
      var d := L.Log(l.(table := l.table - {k}), kind, k, l.table[k].owner);
      var d' := L.Log(l'.(table := l'.table - {k}), kind, k, l'.table[k].owner);
      assert forall m | m in order[1..] :: m in d.table && m in d'.table;
      SameDrop(d, d', order[1..], kind);
    }
  }

  lemma {:induction false} SameGrab(l: L.Locks, l': L.Locks, locks: seq<string>, j: string, e: real, e': real)
    requires SameLocks(l, l')
    ensures SameLocks(L.Grab(l, locks, j, e).0, L.Grab(l', locks, j, e').0) && L.Grab(l, locks, j, e).1 == L.Grab(l', locks, j, e').1
  {
    SameFirstHeld(l.table, l'.table, locks, j);
    SameTakeAll(l, l', locks, j, e, e');
  }

  lemma {:induction false} SameAcquire(plan: Plan, running: set<string>, l: L.Locks, l': L.Locks, j: string,
                                       now: real, now': real, ttl: int, ttl': int, o: seq<string>, o': seq<string>)
    requires SameLocks(l, l') && L.Exact(plan, running, l.table) && L.Exact(plan, running, l'.table) && j in plan
    requires Enumerates(o, L.Orphans(l.table, running, now)) && Enumerates(o', L.Orphans(l'.table, running, now'))
    ensures
      var locks := plan[j].semanticLocks;
      var (t, ok), (t', ok') := L.Acquire(l, running, locks, j, now, ttl, o), L.Acquire(l', running, locks, j, now', ttl', o');
      SameLocks(t, t') && ok == ok'
  {
    L.ExpiryUnreachable(plan, l, running, now, ttl, o);
    L.ExpiryUnreachable(plan, l', running, now', ttl', o');
    SameGrab(L.Swept(l, running, now, ttl, o), L.Swept(l', running, now', ttl', o'), plan[j].semanticLocks, j, now + ttl as real, now' + ttl' as real);
  }

  /** The same moves at other times and under another ttl lead to the same statuses, counters, totals,
      lock owners and lock events. */
  lemma {:induction false} TimesIrrelevant(plan: Plan, cfg: Config, ttl: int, names: seq<string>, s: Local, s': Local,
                                           moves: seq<LocalMove>, moves': seq<LocalMove>)
    requires WellFormed(plan) && Lists(plan, names)
    requires LocalInvariant(plan, cfg, s) && LocalInvariant(plan, cfg, s') && s.core == s'.core && SameLocks(s.locks, s'.locks)
    requires LegalLocal(plan, cfg, names, s, moves) && LegalLocal(plan, cfg.(lockTtl := ttl), names, s', moves')
    requires |moves| == |moves'| && forall i | 0 <= i < |moves| :: SameButTimes(moves[i], moves'[i])
    ensures
      var t, t' := LocalFrom(plan, cfg, names, s, moves), LocalFrom(plan, cfg.(lockTtl := ttl), names, s', moves');
      t.core == t'.core && SameLocks(t.locks, t'.locks)
    decreases moves
  {
    if moves != [] {
      var cfg' := cfg.(lockTtl := ttl);
      SameStep(plan, cfg, ttl, names, s, s', moves[0], moves'[0]);
      var t, t' := LocalNext(plan, cfg, names, s, moves[0]), LocalNext(plan, cfg', names, s', moves'[0]);
      TimesIrrelevant(plan, cfg, ttl, names, t, t', moves[1..], moves'[1..]);
    }
  }

  lemma {:induction false} SameStep(plan: Plan, cfg: Config, ttl: int, names: seq<string>, s: Local, s': Local, m: LocalMove, m': LocalMove)
    requires WellFormed(plan) && Lists(plan, names)
    requires LocalInvariant(plan, cfg, s) && LocalInvariant(plan, cfg, s') && s.core == s'.core && SameLocks(s.locks, s'.locks)
    requires LocalEnabled(plan, s, m) && LocalEnabled(plan, s', m') && SameButTimes(m, m')
    ensures
      var t, t' := LocalNext(plan, cfg, names, s, m), LocalNext(plan, cfg.(lockTtl := ttl), names, s', m');
      t.core == t'.core && SameLocks(t.locks, t'.locks) && LocalInvariant(plan, cfg, t) && LocalInvariant(plan, cfg, t')
  {
    LocalStep(plan, cfg, names, s, m);
    TtlKeepsInvariant(plan, cfg, ttl, s');
    LocalStep(plan, cfg.(lockTtl := ttl), names, s', m');
    TtlKeepsInvariant(plan, cfg.(lockTtl := ttl), cfg.lockTtl, LocalNext(plan, cfg.(lockTtl := ttl), names, s', m'));
    SameStepLocks(plan, cfg, ttl, names, s, s', m, m');
  }

  lemma {:induction false} TtlKeepsInvariant(plan: Plan, cfg: Config, ttl: int, s: Local)
    requires LocalInvariant(plan, cfg, s)
    ensures LocalInvariant(plan, cfg.(lockTtl := ttl), s)
  {
  }

  lemma {:induction false} SameStepLocks(plan: Plan, cfg: Config, ttl: int, names: seq<string>, s: Local, s': Local, m: LocalMove, m': LocalMove)
    requires WellFormed(plan) && Lists(plan, names)
    requires LocalInvariant(plan, cfg, s) && LocalInvariant(plan, cfg, s') && s.core == s'.core && SameLocks(s.locks, s'.locks)
    requires LocalEnabled(plan, s, m) && LocalEnabled(plan, s', m') && SameButTimes(m, m')
    ensures
      var t, t' := LocalNext(plan, cfg, names, s, m), LocalNext(plan, cfg.(lockTtl := ttl), names, s', m');
      t.core == t'.core && SameLocks(t.locks, t'.locks)
  {
    match m
    case Heartbeat(now) =>
      L.BeatKeepsOwners(plan, s.locks, s.core.running, now, cfg.lockTtl);
      L.BeatKeepsOwners(plan, s'.locks, s.core.running, m'.now, ttl);
    case Collect(j, rc, order) =>
      SameDrop(s.locks, s'.locks, order, L.Released);
    case Propagate =>
    case Try(j, now, order) =>
      assert Gate(plan, cfg, s.core, j) == Gate(plan, cfg.(lockTtl := ttl), s.core, j);
      SameAcquire(plan, s.core.running, s.locks, s'.locks, j, now, m'.now, cfg.lockTtl, ttl, order, m'.order);
  }

  // ---- no deadlock ----

  /** The capacities let every slice run alone. */
  predicate Capable(plan: Plan, cfg: Config) {
    forall j | j in plan :: cfg.perRepo >= 1 && (plan[j].hotAreas != [] ==> cfg.perHotArea >= 1)
  }

  /** The gate is open for `j` and no one holds any of its locks. */
  ghost predicate Startable(plan: Plan, cfg: Config, s: Local, j: string)
    requires s.core.phases.Keys == plan.Keys && j in plan
  {
    Gate(plan, cfg, s.core, j) && forall k | k in plan[j].semanticLocks :: k !in s.locks.table
  }

  lemma {:induction false} IdleStartable(plan: Plan, cfg: Config, s: Local, j: string)
    requires LocalInvariant(plan, cfg, s) && Capable(plan, cfg) && s.core.running == {}
    requires j in plan && ParentsPassed(DepsOf(plan), s.core.phases, j)
    ensures Startable(plan, cfg, s, j)
  {
    assert RunningIn(plan, {}, plan[j].repo) == {};
    forall a | a in plan[j].hotAreas ensures Count(s.core.byHotArea, a) < cfg.perHotArea {
      assert RunningOn(plan, {}, a) == {};
    }
  }

  /** Deadlock freedom: in an acyclic plan whose slices the capacities admit, whenever nothing runs and
      some slice is unfinished, there is a slice that the next blocking pass blocks or that starts as
      soon as it is tried (`TryOutcome`), at any time and under any ttl. */
  lemma {:induction false} NoDeadlock(plan: Plan, cfg: Config, names: seq<string>, s: Local)
    requires WellFormed(plan) && Lists(plan, names) && LocalInvariant(plan, cfg, s)
    requires Acyclic(DepsOf(plan)) && Capable(plan, cfg)
    requires s.core.running == {} && !Ended(s.core.phases)
    ensures exists j ::
              j in plan && s.core.phases[j].status == Pending
              && (j in Blocks(DepsOf(plan), s.core.phases, names) || Startable(plan, cfg, s, j))
  {
    var deps, ph := DepsOf(plan), s.core.phases;
    assert forall k | k in ph :: ph[k].status == Running ==> k in InStatus(ph, Running);
    SomethingEnabled(deps, ph);
    var j :| j in deps && (Enabled(deps, ph, Start(j)) || Enabled(deps, ph, Block(j)));
    if Enabled(deps, ph, Block(j)) {
      EnabledIsBlocked(deps, ph, names, j);
    } else {
      IdleStartable(plan, cfg, s, j);
    }
  }

  /** A pass blocks at least the slices that have a bad parent when it begins. */
  lemma {:induction false} EnabledIsBlocked(deps: Deps, ph: Phases, names: seq<string>, j: string)
    requires ph.Keys == deps.Keys && (forall k | k in names :: k in deps) && j in names
    requires Enabled(deps, ph, Block(j))
    ensures j in Blocks(deps, ph, names)
    decreases names
  {
    var k := names[0];
    if k != j {
      assert j in names[1..];
      if ph[k].status == Pending && ParentBad(deps, ph, k) {
        var ph' := ph[k := ph[k].(status := Blocked)];
        var p :| IsParent(deps, p, j) && ph[p].status.Bad();
        assert ph'[p].status.Bad();
        EnabledIsBlocked(deps, ph', names[1..], j);
      } else {
        EnabledIsBlocked(deps, ph, names[1..], j);
      }
    }
  }

  // ---- termination ----

  /** Either nothing changed or the measure went down. */
  ghost predicate Progress(cfg: Config, names: seq<string>, ph: Phases, ph': Phases)
    requires forall j | j in names :: j in ph && j in ph'
  {
    ph' == ph || Measure(Limit(cfg), ph', names) < Measure(Limit(cfg), ph, names)
  }

  /** Every move that changes a status lowers the measure. */
  lemma {:induction false} MoveLowers(plan: Plan, cfg: Config, names: seq<string>, s: Local, m: LocalMove)
    requires WellFormed(plan) && Lists(plan, names) && LocalInvariant(plan, cfg, s) && LocalEnabled(plan, s, m)
    ensures LocalNext(plan, cfg, names, s, m).core.phases.Keys == plan.Keys
    ensures Progress(cfg, names, s.core.phases, LocalNext(plan, cfg, names, s, m).core.phases)
  {
    NextKeys(plan, cfg, names, s, m);
    match m
    case Heartbeat(_) =>
    case Collect(j, rc, _) => FinishLowers(plan, cfg, names, s.core, j, rc);
    case Propagate => PassLowers(plan, cfg, names, s.core);
    case Try(j, _, _) =>
      if Gate(plan, cfg, s.core, j) {
        StartLowers(plan, cfg, names, s.core, j);
      }
  }

  lemma {:induction false} FinishLowers(plan: Plan, cfg: Config, names: seq<string>, c: Core, j: string, rc: int)
    requires Lists(plan, names) && c.phases.Keys == plan.Keys && AttemptsBounded(Limit(cfg), c.phases)
    requires j in plan && c.phases[j].status == Running
    ensures Progress(cfg, names, c.phases, Finalized(plan, cfg, c, j, rc).phases)
  {
    StepDecreases(DepsOf(plan), Limit(cfg), c.phases, Finish(j, rc), names);
  }

  lemma {:induction false} StartLowers(plan: Plan, cfg: Config, names: seq<string>, c: Core, j: string)
    requires Lists(plan, names) && c.phases.Keys == plan.Keys && AttemptsBounded(Limit(cfg), c.phases)
    requires j in plan && c.phases[j].status == Pending && ParentsPassed(DepsOf(plan), c.phases, j)
    ensures Progress(cfg, names, c.phases, Began(plan, c, j).phases)
  {
    assert Began(plan, c, j).phases == Next(DepsOf(plan), Limit(cfg), c.phases, Start(j));
    StepDecreases(DepsOf(plan), Limit(cfg), c.phases, Start(j), names);
  }

  lemma {:induction false} PassLowers(plan: Plan, cfg: Config, names: seq<string>, c: Core)
    requires Lists(plan, names) && c.phases.Keys == plan.Keys
    ensures Progress(cfg, names, c.phases, PassBlocked(plan, c, names).phases)
  {
    var blocked := Blocks(DepsOf(plan), c.phases, names);
    BlocksMember(DepsOf(plan), c.phases, names);
    var ph' := SetBlocked(c.phases, blocked);
    if blocked == [] {
      assert ph' == c.phases;
    } else {
      assert blocked[0] in names && Weight(Limit(cfg), ph'[blocked[0]]) < Weight(Limit(cfg), c.phases[blocked[0]]);
      MeasureFramed(Limit(cfg), c.phases, ph', names);
    }
  }

  lemma {:induction false} TerminalSize(ph: Phases)
    ensures |InStatus(ph, Passed) + InStatus(ph, Failed) + InStatus(ph, Blocked)|
            == |InStatus(ph, Passed)| + |InStatus(ph, Failed)| + |InStatus(ph, Blocked)|
  {
    var p, f, b := InStatus(ph, Passed), InStatus(ph, Failed), InStatus(ph, Blocked);
    assert p !! f && (p + f) !! b;
  }

  lemma {:induction false} TerminalAll(ph: Phases)
    ensures InStatus(ph, Passed) + InStatus(ph, Failed) + InStatus(ph, Blocked) == ph.Keys <==> Ended(ph)
  {
    var done := InStatus(ph, Passed) + InStatus(ph, Failed) + InStatus(ph, Blocked);
    forall j | j in ph ensures j in done <==> ph[j].status.Terminal() {
    }
    assert done <= ph.Keys;
  }

  /** The loop condition `completed < len(jobs)` means that some slice is unfinished. */
  lemma {:induction false} CompletedIffEnded(plan: Plan, c: Core)
    requires TotalsExact(c) && c.phases.Keys == plan.Keys
    ensures c.completed <= |plan| && (c.completed == |plan| <==> Ended(c.phases))
  {
    var done := InStatus(c.phases, Passed) + InStatus(c.phases, Failed) + InStatus(c.phases, Blocked);
    TerminalSize(c.phases);
    TerminalAll(c.phases);
    SubsetSize(done, plan.Keys);
    assert |plan.Keys| == |plan|;
  }

  lemma {:induction false} SubsetSize<T>(s: set<T>, t: set<T>)
    requires s <= t
    ensures |s| <= |t| && (|s| == |t| <==> s == t)
  {
    assert |t| == |s| + |t - s| by {
      assert t == s + (t - s);
    }
    if |s| == |t| {
      assert t - s == {};
    }
  }

  /** A pending slice that is tried starts exactly if it is startable, and otherwise changes no owner. */
  lemma {:induction false} TryOutcome(plan: Plan, cfg: Config, names: seq<string>, s: Local, j: string, now: real, order: seq<string>)
    requires Lists(plan, names) && LocalInvariant(plan, cfg, s) && LocalEnabled(plan, s, Try(j, now, order))
    ensures
      var t := LocalNext(plan, cfg, names, s, Try(j, now, order));
      if Startable(plan, cfg, s, j) then t.core == Began(plan, s.core, j)
      else t.core == s.core && L.Owners(t.locks.table) == L.Owners(s.locks.table)
  {
    if Gate(plan, cfg, s.core, j) {
      assert j !in s.core.running;
      L.AcquireExact(plan, s.core.running, s.locks, j, now, cfg.lockTtl, order);
      L.DeniedKeepsOwners(plan, s.core.running, s.locks, j, now, cfg.lockTtl, order);
    }
  }

  lemma {:induction false} SameStartable(plan: Plan, cfg: Config, s: Local, t: Local, j: string)
    requires s.core.phases.Keys == plan.Keys && j in plan && t.core == s.core
    requires L.Owners(t.locks.table) == L.Owners(s.locks.table)
    ensures Startable(plan, cfg, s, j) == Startable(plan, cfg, t, j)
  {
    forall k ensures k in s.locks.table <==> k in t.locks.table {
      assert k in s.locks.table <==> k in L.Owners(s.locks.table);
      assert k in t.locks.table <==> k in L.Owners(t.locks.table);
    }
  }

  lemma {:induction false} StartStrict(plan: Plan, cfg: Config, names: seq<string>, c: Core, j: string)
    requires j in plan && c.phases.Keys == plan.Keys && c.phases[j].status == Pending
    requires (forall k | k in names :: k in plan) && Progress(cfg, names, c.phases, Began(plan, c, j).phases)
    ensures Measure(Limit(cfg), Began(plan, c, j).phases, names) < Measure(Limit(cfg), c.phases, names)
  {
    assert Began(plan, c, j).phases[j].status == Running;
  }

  /** The polls left until every running slice is done. */
  function Waiting(names: seq<string>, futures: map<string, nat>): nat {
    if names == [] then 0 else (if names[0] in futures then futures[names[0]] else 0) + Waiting(names[1..], futures)
  }

  lemma {:induction false} WaitingDecreases(names: seq<string>, f: map<string, nat>, g: map<string, nat>)
    requires f.Keys == g.Keys && forall j | j in f :: g[j] < f[j]
    ensures Waiting(names, g) <= Waiting(names, f)
    ensures (exists j :: j in names && j in f) ==> Waiting(names, g) < Waiting(names, f)
  {
    if names != [] {
      assert names == [names[0]] + names[1..];
      WaitingDecreases(names[1..], f, g);
    }
  }

  /** No pending slice among the first `n` names is startable. */
  ghost predicate NoneStartable(plan: Plan, cfg: Config, names: seq<string>, s: Local, n: nat)
    requires s.core.phases.Keys == plan.Keys && n <= |names| && forall j | j in names :: j in plan
  {
    n == 0 ||
    (&& NoneStartable(plan, cfg, names, s, n - 1)
     && (s.core.phases[names[n - 1]].status == Pending ==> !Startable(plan, cfg, s, names[n - 1])))
  }

  lemma {:induction false} NoneStartableAt(plan: Plan, cfg: Config, names: seq<string>, s: Local, n: nat, k: nat)
    requires s.core.phases.Keys == plan.Keys && k < n <= |names| && forall j | j in names :: j in plan
    requires NoneStartable(plan, cfg, names, s, n)
    ensures s.core.phases[names[k]].status == Pending ==> !Startable(plan, cfg, s, names[k])
  {
    if k < n - 1 {
      NoneStartableAt(plan, cfg, names, s, n - 1, k);
    }
  }

  lemma {:induction false} FinishStrict(plan: Plan, cfg: Config, names: seq<string>, c: Core, j: string, rc: int)
    requires j in plan && c.phases.Keys == plan.Keys && c.phases[j].status == Running
    requires (forall k | k in names :: k in plan) && Progress(cfg, names, c.phases, Finalized(plan, cfg, c, j, rc).phases)
    ensures Measure(Limit(cfg), Finalized(plan, cfg, c, j, rc).phases, names) < Measure(Limit(cfg), c.phases, names)
  {
    assert Finalized(plan, cfg, c, j, rc).phases[j].status != Running;
  }

  /** A round that leaves an idle, unfinished scheduler of an acyclic plan unchanged is impossible. */
  lemma {:induction false} IdleRoundMoves(plan: Plan, cfg: Config, names: seq<string>, s: Local)
    requires WellFormed(plan) && Lists(plan, names) && LocalInvariant(plan, cfg, s)
    requires Acyclic(DepsOf(plan)) && Capable(plan, cfg)
    requires s.core.running == {} && !Ended(s.core.phases)
    requires PassBlocked(plan, s.core, names) == s.core
    ensures !NoneStartable(plan, cfg, names, s, |names|)
  {
    var blocked := Blocks(DepsOf(plan), s.core.phases, names);
    assert blocked == [] by {
      assert s.core.completed == s.core.completed + |blocked|;
    }
    NoDeadlock(plan, cfg, names, s);
    var j :| j in plan && s.core.phases[j].status == Pending && (j in blocked || Startable(plan, cfg, s, j));
    var k :| 0 <= k < |names| && names[k] == j;
    if NoneStartable(plan, cfg, names, s, |names|) {
      NoneStartableAt(plan, cfg, names, s, |names|, k);
    }
  }

  lemma {:induction false} SameBlocking(plan: Plan, cfg: Config, names: seq<string>, c: Core)
    requires c.phases.Keys == plan.Keys && Lists(plan, names)
    requires Measure(Limit(cfg), PassBlocked(plan, c, names).phases, names) >= Measure(Limit(cfg), c.phases, names)
    ensures PassBlocked(plan, c, names) == c
  {
    PassLowers(plan, cfg, names, c);
    var blocked := Blocks(DepsOf(plan), c.phases, names);
    BlocksMember(DepsOf(plan), c.phases, names);
    if blocked != [] {
      BlockingChanges(c.phases, blocked);
    }
  }

  lemma {:induction false} BlockingChanges(ph: Phases, blocked: seq<string>)
    requires blocked != [] && forall j | j in blocked :: j in ph && ph[j].status == Pending
    ensures SetBlocked(ph, blocked) != ph
  {
    assert SetBlocked(ph, blocked)[blocked[0]].status == Blocked;
  }

  lemma {:induction false} RunningPending(plan: Plan, names: seq<string>, running: set<string>)
    requires Lists(plan, names) && running <= plan.Keys && running != {}
    ensures exists j :: j in names && j in running
  {
    var j :| j in running;
    assert j in names;
  }

  /** At the end nothing runs, the lock table is empty and the failed flag says whether all slices passed. */
  lemma {:induction false} EndedIdle(plan: Plan, cfg: Config, s: Local)
    requires LocalInvariant(plan, cfg, s) && Ended(s.core.phases)
    ensures s.core.running == {} && s.locks.table == map[]
    ensures !s.core.failed <==> forall j | j in plan :: s.core.phases[j].status == Passed
  {
    assert forall j | j in s.core.phases :: s.core.phases[j].status.Terminal();
    assert s.core.running == {};
  }

  // ---- what termination needs ----

  predicate Unstarted(c: Core, j: string) {
    j in c.phases && c.phases[j].status in {Pending, Blocked}
  }

  lemma {:induction false} StaysUnstarted(plan: Plan, cfg: Config, names: seq<string>, c: Core, m: Move, j: string)
    requires Lists(plan, names) && c.phases.Keys == plan.Keys && MoveEnabled(plan, cfg, c, m)
    requires c.running == InStatus(c.phases, Running)
    requires j in plan && !Gate(plan, cfg, c, j) && Unstarted(c, j)
    ensures Unstarted(Apply(plan, cfg, names, c, m), j)
  {
    match m
    case Begin(_) =>
    case Finalize(_, _) =>
    case BlockPass => BlocksMember(DepsOf(plan), c.phases, names);
  }

  /** A slice that the capacities never admit is never started. */
  lemma {:induction false} NeverBegun(plan: Plan, cfg: Config, names: seq<string>, c: Core, moves: seq<Move>, j: string)
    requires WellFormed(plan) && Lists(plan, names) && LegalRun(plan, cfg, names, c, moves) && Consistent(plan, cfg, c)
    requires j in plan && (cfg.perRepo < 1 || (plan[j].hotAreas != [] && cfg.perHotArea < 1))
    requires Unstarted(c, j)
    ensures Unstarted(RunFrom(plan, cfg, names, c, moves), j)
    decreases moves
  {
    if moves != [] {
      NotAdmitted(plan, cfg, c, j);
      StaysUnstarted(plan, cfg, names, c, moves[0], j);
      MoveConsistent(plan, cfg, names, c, moves[0]);
      NeverBegun(plan, cfg, names, Apply(plan, cfg, names, c, moves[0]), moves[1..], j);
    }
  }

  lemma {:induction false} NotAdmitted(plan: Plan, cfg: Config, c: Core, j: string)
    requires Consistent(plan, cfg, c) && j in plan
    requires cfg.perRepo < 1 || (plan[j].hotAreas != [] && cfg.perHotArea < 1)
    ensures !Gate(plan, cfg, c, j)
  {
    assert Count(c.byRepo, plan[j].repo) == |RunningIn(plan, c.running, plan[j].repo)|;
    if plan[j].hotAreas != [] {
      var a := plan[j].hotAreas[0];
      assert a in plan[j].hotAreas && Count(c.byHotArea, a) == |RunningOn(plan, c.running, a)|;
    }
  }

  lemma {:induction false} AllSucceed(deps: Deps, limit: int, h: seq<Change>)
    requires Legal(deps, limit, h) && Obeys(deps, limit, Zero, h)
    ensures forall j | j in deps :: !After(deps, limit, h)[j].status.Bad()
    ensures Ended(After(deps, limit, h)) ==> Acyclic(deps)
  {
    HistoryJustified(deps, limit, Zero, h);
    NothingFails(deps, limit, After(deps, limit, h));
    forall j | j in deps ensures !After(deps, limit, h)[j].status.Bad() {
      if After(deps, limit, h)[j].status == Blocked {
        BlockedReachesFailed(deps, limit, h, j);
      }
    }
    if !Acyclic(deps) {
      var p :| IsPath(deps, p) && |p| >= 2 && p[0] == p[|p| - 1];
      CyclicNeverEnds(deps, limit, h, p);
    }
  }

  lemma {:induction false} RunAllSucceeds(plan: Plan, cfg: Config, names: seq<string>, moves: seq<Move>)
    requires WellFormed(plan) && Lists(plan, names)
    requires LegalRun(plan, cfg, names, Fresh(plan), moves) && RunFollows(plan, cfg, names, Fresh(plan), moves, Zero)
    ensures
      var ph := RunFrom(plan, cfg, names, Fresh(plan), moves).phases;
      && ph.Keys == plan.Keys
      && (forall j | j in plan :: !ph[j].status.Bad())
      && (Ended(ph) ==> Acyclic(DepsOf(plan)))
  {
    FreshConsistent(plan, cfg);
    var h := RunTraced(plan, cfg, names, Fresh(plan), [], moves);
    assert Follows(plan, cfg, Zero, []);
    AllSucceed(DepsOf(plan), Limit(cfg), h);
  }

  /** `Run` of the Scheduler module ends for every plan that is acyclic and whose slices the capacities
      admit. Neither can be dropped: if the run in which every attempt succeeds ends, in any order of
      moves and under either lock mode, then the plan is acyclic and its slices are admitted. */
  lemma {:induction false} EndsOnlyIf(plan: Plan, cfg: Config, names: seq<string>, moves: seq<Move>)
    requires WellFormed(plan) && Lists(plan, names)
    requires LegalRun(plan, cfg, names, Fresh(plan), moves) && RunFollows(plan, cfg, names, Fresh(plan), moves, Zero)
    requires Ended(RunFrom(plan, cfg, names, Fresh(plan), moves).phases)
    ensures Acyclic(DepsOf(plan)) && Capable(plan, cfg)
  {
    RunAllSucceeds(plan, cfg, names, moves);
    FreshConsistent(plan, cfg);
    forall j | j in plan ensures cfg.perRepo >= 1 && (plan[j].hotAreas != [] ==> cfg.perHotArea >= 1) {
      if cfg.perRepo < 1 || (plan[j].hotAreas != [] && cfg.perHotArea < 1) {
        NeverBegun(plan, cfg, names, Fresh(plan), moves, j);
      }
    }
  }

  /** A run extended by one move: what `Scheduler` records with every step. */
  lemma {:induction false} RunExtended(plan: Plan, cfg: Config, names: seq<string>, moves: seq<LocalMove>, before: Local, m: LocalMove)
    requires WellFormed(plan) && Lists(plan, names) && LegalLocal(plan, cfg, names, FreshLocal(plan), moves)
    requires before == LocalFrom(plan, cfg, names, FreshLocal(plan), moves) && LocalEnabled(plan, before, m)
    ensures LegalLocal(plan, cfg, names, FreshLocal(plan), moves + [m])
    ensures LocalFrom(plan, cfg, names, FreshLocal(plan), moves + [m]) == LocalNext(plan, cfg, names, before, m)
    ensures LocalNext(plan, cfg, names, before, m).core.phases.Keys == plan.Keys
    ensures Progress(cfg, names, before.core.phases, LocalNext(plan, cfg, names, before, m).core.phases)
    ensures forall codes: Codes | LocalObeys(plan, cfg, names, FreshLocal(plan), moves, codes) && ObeysMove(plan, before, m, codes) ::
              LocalObeys(plan, cfg, names, FreshLocal(plan), moves + [m], codes)
  {
    FreshLocalInvariant(plan, cfg);
    LocalRunInvariant(plan, cfg, names, FreshLocal(plan), moves);
    LocalSnoc(plan, cfg, names, FreshLocal(plan), moves, m);
    MoveLowers(plan, cfg, names, before, m);
  }

  lemma {:induction false} ApplyKeys(plan: Plan, cfg: Config, names: seq<string>, c: Core, m: Move)
    requires c.phases.Keys == plan.Keys && MoveEnabled(plan, cfg, c, m) && Lists(plan, names)
    ensures Apply(plan, cfg, names, c, m).phases.Keys == plan.Keys
  {
  }

  predicate ObeysCore(c: Core, m: Move, codes: Codes) {
    m.Finalize? && m.job in c.phases ==> m.rc == codes(m.job, c.phases[m.job].attempt)
  }

  /** A run of the shared part extended by one move. */
  lemma {:induction false} CoreExtended(plan: Plan, cfg: Config, names: seq<string>, c: Core, moves: seq<Move>, m: Move)
    requires Lists(plan, names) && LegalRun(plan, cfg, names, c, moves)
    requires RunFrom(plan, cfg, names, c, moves).phases.Keys == plan.Keys && MoveEnabled(plan, cfg, RunFrom(plan, cfg, names, c, moves), m)
    ensures LegalRun(plan, cfg, names, c, moves + [m])
    ensures RunFrom(plan, cfg, names, c, moves + [m]) == Apply(plan, cfg, names, RunFrom(plan, cfg, names, c, moves), m)
    ensures forall codes: Codes | RunFollows(plan, cfg, names, c, moves, codes) && ObeysCore(RunFrom(plan, cfg, names, c, moves), m, codes) ::
              RunFollows(plan, cfg, names, c, moves + [m], codes)
    decreases moves
  {
    if moves == [] {
      ApplyKeys(plan, cfg, names, c, m);
      assert (moves + [m])[1..] == [];
    } else {
      CoreExtended(plan, cfg, names, Apply(plan, cfg, names, c, moves[0]), moves[1..], m);
      assert (moves + [m])[0] == moves[0] && (moves + [m])[1..] == moves[1..] + [m];
    }
  }

  lemma {:induction false} CoreReached(plan: Plan, cfg: Config, names: seq<string>, moves: seq<Move>)
    requires WellFormed(plan) && Lists(plan, names) && LegalRun(plan, cfg, names, Fresh(plan), moves)
    ensures Consistent(plan, cfg, RunFrom(plan, cfg, names, Fresh(plan), moves))
  {
    FreshConsistent(plan, cfg);
    var h := RunTraced(plan, cfg, names, Fresh(plan), [], moves);
  }
}
