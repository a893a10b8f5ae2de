/** The part of the scheduler's state that both lock modes share: statuses, the running set, the two
    capacity counters and the outcome totals. */
module SchedulerCore {
  import opened Text
  import opened SlicePlan
  import opened JobPhases

  datatype Config = Config(maxWorkers: int, perRepo: int, perHotArea: int, lockTtl: int, maxRetries: int)

  datatype DeadLetter = DeadLetter(slice: string, rc: int, attempt: nat)

  datatype Core = Core(
    phases: Phases, running: set<string>, byRepo: map<string, int>, byHotArea: map<string, int>,
    completed: int, failed: bool, dlq: seq<DeadLetter>)

  datatype Move = Begin(job: string) | Finalize(job: string, rc: int) | BlockPass

  function DepsOf(plan: Plan): (d: Deps)
    ensures d.Keys == plan.Keys
  {
    map j | j in plan :: plan[j].dependsOn
  }

  function Limit(cfg: Config): int {
    cfg.maxRetries + 1
  }

  function Fresh(plan: Plan): Core {
    Core(Initial(DepsOf(plan)), {}, map[], map[], 0, false, [])
  }

  // ---- counters ----

  function Count(m: map<string, int>, k: string): int {
    if k in m then m[k] else 0
  }

  function Add(m: map<string, int>, k: string): map<string, int> {
    m[k := Count(m, k) + 1]
  }

  /** The source clamps at zero; `CountersExact` shows that the clamp never acts. */
  function Sub(m: map<string, int>, k: string): map<string, int> {
    m[k := if Count(m, k) - 1 < 0 then 0 else Count(m, k) - 1]
  }

  function AddAll(m: map<string, int>, ks: seq<string>): map<string, int> {
    if ks == [] then m else Add(AddAll(m, ks[..|ks| - 1]), ks[|ks| - 1])
  }

  function SubAll(m: map<string, int>, ks: seq<string>): map<string, int> {
    if ks == [] then m else Sub(SubAll(m, ks[..|ks| - 1]), ks[|ks| - 1])
  }

  function RunningIn(plan: Plan, running: set<string>, repo: string): set<string> {
    set j | j in running && j in plan && plan[j].repo == repo
  }

  function RunningOn(plan: Plan, running: set<string>, area: string): set<string> {
    set j | j in running && j in plan && area in plan[j].hotAreas
  }

  // ---- overlap ----

  predicate Overlap(a: Job, b: Job) {
    exists t | t in Stripped(a.ownedTargets) :: t in Stripped(b.ownedTargets)
  }

  /** Two slices overlap exactly if some owned target of each is the same text after stripping. */
  lemma {:induction false} OverlapMeaning(a: Job, b: Job)
    ensures Overlap(a, b) <==> exists x, y :: x in a.ownedTargets && y in b.ownedTargets && Strip(x) == Strip(y) && Strip(x) != ""
  {
    StrippedDeclared(a.ownedTargets);
    StrippedDeclared(b.ownedTargets);
    if t :| t in Stripped(a.ownedTargets) && t in Stripped(b.ownedTargets) {
      assert Declared(a.ownedTargets, t) && Declared(b.ownedTargets, t);
    }
    if x, y :| x in a.ownedTargets && y in b.ownedTargets && Strip(x) == Strip(y) && Strip(x) != "" {
      assert Declared(a.ownedTargets, Strip(x)) && Declared(b.ownedTargets, Strip(x));
    }
  }

  // ---- moves ----

  /** The conditions for starting a slice that come before its locks. */
  ghost predicate Gate(plan: Plan, cfg: Config, c: Core, j: string)
    requires j in plan && c.phases.Keys == plan.Keys
  {
    && ParentsPassed(DepsOf(plan), c.phases, j)
    && Count(c.byRepo, plan[j].repo) < cfg.perRepo
    && (forall a | a in plan[j].hotAreas :: Count(c.byHotArea, a) < cfg.perHotArea)
    && (forall r | r in c.running && r in plan && r != j :: !Overlap(plan[j], plan[r]))
  }

  function Began(plan: Plan, c: Core, j: string): Core
    requires j in plan && j in c.phases
  {
    c.(phases := c.phases[j := Phase(Running, c.phases[j].attempt + 1)],
       running := c.running + {j},
       byRepo := Add(c.byRepo, plan[j].repo),
       byHotArea := AddAll(c.byHotArea, plan[j].hotAreas))
  }

  /** A finished slice stops counting as running. */
  function Lowered(plan: Plan, c: Core, j: string): Core
    requires j in plan
  {
    c.(running := c.running - {j}, byRepo := Sub(c.byRepo, plan[j].repo), byHotArea := SubAll(c.byHotArea, plan[j].hotAreas))
  }

  function Finalized(plan: Plan, cfg: Config, c: Core, j: string, rc: int): Core
    requires j in plan && j in c.phases
  {
    var p := Finished(Limit(cfg), c.phases[j], rc);
    c.(phases := c.phases[j := p],
       running := c.running - {j},
       byRepo := Sub(c.byRepo, plan[j].repo),
       byHotArea := SubAll(c.byHotArea, plan[j].hotAreas),
       completed := if p.status.Terminal() then c.completed + 1 else c.completed,
       failed := c.failed || p.status == Failed,
       dlq := if p.status == Failed then c.dlq + [DeadLetter(j, rc, p.attempt)] else c.dlq)
  }

  /** One pass over `names`: pending slices with a failed or blocked parent become blocked, and count as
      such for the names that follow. */
  ghost function Blocks(deps: Deps, ph: Phases, names: seq<string>): seq<string>
    requires ph.Keys == deps.Keys && forall j | j in names :: j in deps
  {
    if names == [] then []
    else
      var j := names[0];
      if ph[j].status == Pending && ParentBad(deps, ph, j)
      then [j] + Blocks(deps, ph[j := ph[j].(status := Blocked)], names[1..])
      else Blocks(deps, ph, names[1..])
  }

  function SetBlocked(ph: Phases, names: seq<string>): (r: Phases)
    requires forall j | j in names :: j in ph
    ensures r.Keys == ph.Keys
  {
    map j | j in ph :: if j in names then ph[j].(status := Blocked) else ph[j]
  }

  ghost function PassBlocked(plan: Plan, c: Core, names: seq<string>): Core
    requires c.phases.Keys == plan.Keys && forall j | j in names :: j in plan
  {
    var blocked := Blocks(DepsOf(plan), c.phases, names);
    BlocksMember(DepsOf(plan), c.phases, names);
    c.(phases := SetBlocked(c.phases, blocked),
       completed := c.completed + |blocked|,
       failed := c.failed || blocked != [])
  }

  lemma {:induction false} BlocksMember(deps: Deps, ph: Phases, names: seq<string>)
    requires ph.Keys == deps.Keys && forall j | j in names :: j in deps
    ensures forall j | j in Blocks(deps, ph, names) :: j in names && j in ph && ph[j].status == Pending
    ensures NoDuplicates(Blocks(deps, ph, names))
    decreases names
  {
    if names != [] {
      var j := names[0];
      var ph' := ph[j := ph[j].(status := Blocked)];
      BlocksMember(deps, ph', names[1..]);
      BlocksMember(deps, ph, names[1..]);
      assert j !in Blocks(deps, ph', names[1..]);
    }
  }

  /** Which slices one pass blocks: those that are pending and have a parent that failed or was blocked
      before the pass, or that the pass has blocked before it comes to them. */
  lemma {:induction false} BlocksExactly(deps: Deps, ph: Phases, names: seq<string>, i: nat)
    requires ph.Keys == deps.Keys && NoDuplicates(names) && i < |names| && forall j | j in names :: j in deps
    ensures names[i] in Blocks(deps, ph, names) <==>
              && ph[names[i]].status == Pending
              && (|| (exists d :: d in deps[names[i]] && d in deps && (ph[d].status == Failed || ph[d].status == Blocked))
                  || (exists k :: 0 <= k < i && names[k] in deps[names[i]] && names[k] in Blocks(deps, ph, names)))
    decreases names
  {
    var j, rest := names[0], names[1..];
    var blocks := ph[j].status == Pending && ParentBad(deps, ph, j);
    var ph' := if blocks then ph[j := ph[j].(status := Blocked)] else ph;
    BlocksMember(deps, ph', rest);
    assert forall k | 0 < k < |names| :: names[k] == rest[k - 1];
    assert j !in rest;
    assert blocks ==> j in Blocks(deps, ph, names);
    assert forall k | 0 < k < |names| :: names[k] in Blocks(deps, ph, names) <==> names[k] in Blocks(deps, ph', rest);
    if i == 0 {
      assert blocks <==> j in Blocks(deps, ph, names);
      assert ParentBad(deps, ph, j) <==> exists d :: d in deps[j] && d in deps && (ph[d].status == Failed || ph[d].status == Blocked);
    } else {
      BlocksExactly(deps, ph', rest, i - 1);
      BlockedFrom(deps, ph, ph', names, i, j, blocks);
    }
  }

  /** The parents that count after the first slice are those from before and, if it was blocked, that one. */
  lemma {:induction false} BlockedFrom(deps: Deps, ph: Phases, ph': Phases, names: seq<string>, i: nat, j: string, blocks: bool)
    requires ph.Keys == deps.Keys && 0 < i < |names| && names[0] == j && j in deps && names[i] in deps && names[i] != j
    requires ph' == if blocks then ph[j := ph[j].(status := Blocked)] else ph
    requires blocks ==> ph[j].status == Pending
    ensures ph'[names[i]].status == ph[names[i]].status
    ensures (exists d :: d in deps[names[i]] && d in deps && (ph'[d].status == Failed || ph'[d].status == Blocked)) <==>
              || (exists d :: d in deps[names[i]] && d in deps && (ph[d].status == Failed || ph[d].status == Blocked))
              || (blocks && j in deps[names[i]])
  {
    if d :| d in deps[names[i]] && d in deps && (ph[d].status == Failed || ph[d].status == Blocked) {
      assert ph'[d].status == ph[d].status;
    }
    if blocks && j in deps[names[i]] {
      assert ph'[j].status == Blocked;
    }
  }

  lemma {:induction false} BlocksAt(deps: Deps, ph: Phases, names: seq<string>, i: nat)
    requires ph.Keys == deps.Keys && i < |names| && forall j | j in names :: j in deps
    ensures Blocks(deps, ph, names[i..]) ==
            if ph[names[i]].status == Pending && ParentBad(deps, ph, names[i])
            then [names[i]] + Blocks(deps, ph[names[i] := ph[names[i]].(status := Blocked)], names[i + 1..])
            else Blocks(deps, ph, names[i + 1..])
  {
    assert names[i..][0] == names[i] && names[i..][1..] == names[i + 1..];
  }

  lemma {:induction false} SetBlockedCons(ph: Phases, j: string, rest: seq<string>)
    requires j in ph && forall k | k in rest :: k in ph
    ensures SetBlocked(ph[j := ph[j].(status := Blocked)], rest) == SetBlocked(ph, [j] + rest)
  {
  }

  /** Finishing a blocking pass from name `i` with `count` slices blocked so far and phases `ph` gives what
      the whole pass from `before` gives. */
  ghost predicate Blocking(deps: Deps, before: Phases, names: seq<string>, i: nat, count: nat, ph: Phases)
    requires before.Keys == deps.Keys && i <= |names| && forall j | j in names :: j in deps
  {
    && ph.Keys == deps.Keys
    && count + |Blocks(deps, ph, names[i..])| == |Blocks(deps, before, names)|
    && (forall j | j in Blocks(deps, ph, names[i..]) :: j in ph)
    && (forall j | j in Blocks(deps, before, names) :: j in before)
    && SetBlocked(ph, Blocks(deps, ph, names[i..])) == SetBlocked(before, Blocks(deps, before, names))
  }

  lemma {:induction false} BlockingStep(deps: Deps, before: Phases, names: seq<string>, i: nat, count: nat, ph: Phases)
    requires before.Keys == deps.Keys && i < |names| && forall j | j in names :: j in deps
    requires Blocking(deps, before, names, i, count, ph)
    ensures
      var j := names[i];
      if ph[j].status == Pending && ParentBad(deps, ph, j)
      then Blocking(deps, before, names, i + 1, count + 1, ph[j := ph[j].(status := Blocked)])
      else Blocking(deps, before, names, i + 1, count, ph)
  {
    var j := names[i];
    BlocksAt(deps, ph, names, i);
    if ph[j].status == Pending && ParentBad(deps, ph, j) {
      var ph' := ph[j := ph[j].(status := Blocked)];
      BlocksMember(deps, ph', names[i + 1..]);
      SetBlockedCons(ph, j, Blocks(deps, ph', names[i + 1..]));
    }
  }

  lemma {:induction false} BlockingStart(deps: Deps, before: Phases, names: seq<string>)
    requires before.Keys == deps.Keys && forall j | j in names :: j in deps
    ensures Blocking(deps, before, names, 0, 0, before)
  {
    assert names[0..] == names;
    BlocksMember(deps, before, names);
  }

  lemma {:induction false} BlockingDone(deps: Deps, before: Phases, names: seq<string>, count: nat, ph: Phases)
    requires before.Keys == deps.Keys && forall j | j in names :: j in deps
    requires Blocking(deps, before, names, |names|, count, ph)
    ensures count == |Blocks(deps, before, names)| && ph == SetBlocked(before, Blocks(deps, before, names))
  {
    assert names[|names|..] == [];
    assert SetBlocked(ph, []) == ph;
  }

  /** `names` lists the slices, in whatever order. */
  ghost predicate Lists(plan: Plan, names: seq<string>) {
    forall j :: j in names <==> j in plan
  }

  ghost predicate MoveEnabled(plan: Plan, cfg: Config, c: Core, m: Move)
    requires c.phases.Keys == plan.Keys
  {
    match m
    case Begin(j) => j in plan && c.phases[j].status == Pending && Gate(plan, cfg, c, j)
    case Finalize(j, _) => j in plan && j in c.running
    case BlockPass => true
  }

  ghost function Apply(plan: Plan, cfg: Config, names: seq<string>, c: Core, m: Move): Core
    requires c.phases.Keys == plan.Keys && MoveEnabled(plan, cfg, c, m) && Lists(plan, names)
  {
    match m
    case Begin(j) => Began(plan, c, j)
    case Finalize(j, rc) => Finalized(plan, cfg, c, j, rc)
    case BlockPass => PassBlocked(plan, c, names)
  }

  // ---- the invariant ----

  ghost predicate CountersExact(plan: Plan, c: Core) {
    && (forall r :: Count(c.byRepo, r) == |RunningIn(plan, c.running, r)|)
    && (forall a :: Count(c.byHotArea, a) == |RunningOn(plan, c.running, a)|)
  }

  ghost predicate WithinCapacity(plan: Plan, cfg: Config, c: Core) {
    && (forall r :: Count(c.byRepo, r) > 0 ==> Count(c.byRepo, r) <= cfg.perRepo)
    && (forall a :: Count(c.byHotArea, a) > 0 ==> Count(c.byHotArea, a) <= cfg.perHotArea)
  }

  ghost predicate NoSharedTargets(plan: Plan, running: set<string>) {
    forall i, j | i in running && j in running && i in plan && j in plan && i != j :: !Overlap(plan[i], plan[j])
  }

  function InStatus(ph: Phases, s: Status): set<string> {
    set j | j in ph && ph[j].status == s
  }

  ghost predicate DlqExact(cfg: Config, c: Core) {
    && (forall i | 0 <= i < |c.dlq| ::
          && c.dlq[i].slice in c.phases && c.phases[c.dlq[i].slice] == Phase(Failed, c.dlq[i].attempt)
          && c.dlq[i].attempt == Attempts(Limit(cfg)))
    && (forall i, k | 0 <= i < k < |c.dlq| :: c.dlq[i].slice != c.dlq[k].slice)
    && (forall j | j in c.phases && c.phases[j].status == Failed :: exists i :: 0 <= i < |c.dlq| && c.dlq[i].slice == j)
  }

  ghost predicate TotalsExact(c: Core) {
    && c.completed == |InStatus(c.phases, Passed)| + |InStatus(c.phases, Failed)| + |InStatus(c.phases, Blocked)|
    && (c.failed <==> exists j | j in c.phases :: c.phases[j].status.Bad())
  }

  /** What the running set and the counters say. */
  ghost predicate Scheduled(plan: Plan, cfg: Config, c: Core) {
    CountersExact(plan, c) && WithinCapacity(plan, cfg, c) && NoSharedTargets(plan, c.running)
  }

  /** What the statuses and the totals say. */
  ghost predicate Accounted(cfg: Config, c: Core) {
    && c.running == InStatus(c.phases, Running)
    && AttemptsBounded(Limit(cfg), c.phases)
    && DlqExact(cfg, c)
    && TotalsExact(c)
  }

  ghost predicate Consistent(plan: Plan, cfg: Config, c: Core) {
    c.phases.Keys == plan.Keys && Scheduled(plan, cfg, c) && Accounted(cfg, c)
  }

  /** What the gate asks of a consistent state: every declared dependency that is a slice has passed, fewer
      slices run in the repo and on each hot area than the capacities admit, and nothing that runs owns
      one of the targets. */
  lemma {:induction false} GateMeaning(plan: Plan, cfg: Config, c: Core, j: string)
    requires Consistent(plan, cfg, c) && j in plan && c.phases[j].status != Running
    ensures Gate(plan, cfg, c, j) <==>
              && (forall d | d in plan[j].dependsOn && d in plan :: c.phases[d].status == Passed)
              && |set r | r in plan && c.phases[r].status == Running && plan[r].repo == plan[j].repo| < cfg.perRepo
              && (forall a | a in plan[j].hotAreas ::
                    |set r | r in plan && c.phases[r].status == Running && a in plan[r].hotAreas| < cfg.perHotArea)
              && (forall r | r in plan && c.phases[r].status == Running :: !Overlap(plan[j], plan[r]))
  {
    var running := set r | r in plan && c.phases[r].status == Running;
    assert running == c.running;
    assert RunningIn(plan, c.running, plan[j].repo) == set r | r in plan && c.phases[r].status == Running && plan[r].repo == plan[j].repo;
    forall a ensures RunningOn(plan, c.running, a) == set r | r in plan && c.phases[r].status == Running && a in plan[r].hotAreas {
    }
    assert forall d :: IsParent(DepsOf(plan), d, j) <==> d in plan[j].dependsOn && d in plan;
  }

  lemma {:induction false} SetInsert<T>(s: set<T>, t: set<T>, x: T)
    requires t == s + {x} && x !in s
    ensures |t| == |s| + 1
  {
  }

  lemma {:induction false} SetRemove<T>(s: set<T>, t: set<T>, x: T)
    requires t == s - {x} && x in s
    ensures |t| == |s| - 1
  {
  }

  lemma {:induction false} AddAllCount(m: map<string, int>, ks: seq<string>, k: string)
    requires NoDuplicates(ks)
    ensures Count(AddAll(m, ks), k) == Count(m, k) + if k in ks then 1 else 0
  {
    if ks != [] {
      var front, last := ks[..|ks| - 1], ks[|ks| - 1];
      NoDuplicatesFront(ks);
      AddAllCount(m, front, k);
    }
  }

  lemma {:induction false} SubAllCount(m: map<string, int>, ks: seq<string>, k: string)
    requires NoDuplicates(ks) && forall x | x in ks :: Count(m, x) >= 1
    ensures Count(SubAll(m, ks), k) == Count(m, k) - if k in ks then 1 else 0
  {
    if ks != [] {
      var front, last := ks[..|ks| - 1], ks[|ks| - 1];
      NoDuplicatesFront(ks);
      SubAllCount(m, front, k);
      SubAllCount(m, front, last);
    }
  }

  lemma {:induction false} RepoCountInsert(plan: Plan, running: set<string>, j: string, r: string)
    requires j in plan && j !in running
    ensures |RunningIn(plan, running + {j}, r)| == |RunningIn(plan, running, r)| + if plan[j].repo == r then 1 else 0
  {
    var s, t := RunningIn(plan, running, r), RunningIn(plan, running + {j}, r);
    if plan[j].repo == r {
      SetInsert(s, t, j);
    } else {
      assert s == t;
    }
  }

  lemma {:induction false} AreaCountInsert(plan: Plan, running: set<string>, j: string, a: string)
    requires j in plan && j !in running
    ensures |RunningOn(plan, running + {j}, a)| == |RunningOn(plan, running, a)| + if a in plan[j].hotAreas then 1 else 0
  {
    var s, t := RunningOn(plan, running, a), RunningOn(plan, running + {j}, a);
    if a in plan[j].hotAreas {
      SetInsert(s, t, j);
    } else {
      assert s == t;
    }
  }

  /** Starting a slice keeps the counters equal to what is running. */
  lemma {:induction false} BeginCounters(plan: Plan, c: Core, j: string)
    requires WellFormed(plan) && j in plan && c.phases.Keys == plan.Keys && j !in c.running && CountersExact(plan, c)
    ensures CountersExact(plan, Began(plan, c, j))
  {
    AscendingDistinct(plan[j].hotAreas);
    forall r ensures Count(Began(plan, c, j).byRepo, r) == |RunningIn(plan, c.running + {j}, r)| {
      RepoCountInsert(plan, c.running, j, r);
    }
    forall a ensures Count(Began(plan, c, j).byHotArea, a) == |RunningOn(plan, c.running + {j}, a)| {
      AreaCountInsert(plan, c.running, j, a);
      AddAllCount(c.byHotArea, plan[j].hotAreas, a);
    }
  }

  /** Finishing a slice keeps the counters equal to what is running, and none of them was zero, so the
      clamps do nothing. */
  lemma {:induction false} FinalizeCounters(plan: Plan, cfg: Config, c: Core, j: string, rc: int)
    requires WellFormed(plan) && j in plan && c.phases.Keys == plan.Keys && j in c.running && CountersExact(plan, c)
    ensures CountersExact(plan, Finalized(plan, cfg, c, j, rc))
    ensures Count(c.byRepo, plan[j].repo) >= 1 && forall a | a in plan[j].hotAreas :: Count(c.byHotArea, a) >= 1
  {
    AscendingDistinct(plan[j].hotAreas);
    var rest := c.running - {j};
    assert rest + {j} == c.running;
    RepoCountInsert(plan, rest, j, plan[j].repo);
    forall a | a in plan[j].hotAreas ensures Count(c.byHotArea, a) >= 1 {
      AreaCountInsert(plan, rest, j, a);
    }
    forall r ensures Count(Finalized(plan, cfg, c, j, rc).byRepo, r) == |RunningIn(plan, rest, r)| {
      RepoCountInsert(plan, rest, j, r);
    }
    forall a ensures Count(Finalized(plan, cfg, c, j, rc).byHotArea, a) == |RunningOn(plan, rest, a)| {
      AreaCountInsert(plan, rest, j, a);
      SubAllCount(c.byHotArea, plan[j].hotAreas, a);
    }
  }

  lemma {:induction false} BeginCapacity(plan: Plan, cfg: Config, c: Core, j: string)
    requires WellFormed(plan) && c.phases.Keys == plan.Keys && j in plan && Gate(plan, cfg, c, j) && WithinCapacity(plan, cfg, c)
    ensures WithinCapacity(plan, cfg, Began(plan, c, j))
  {
    AscendingDistinct(plan[j].hotAreas);
    forall r ensures Count(Began(plan, c, j).byRepo, r) > 0 ==> Count(Began(plan, c, j).byRepo, r) <= cfg.perRepo {
      assert r != plan[j].repo ==> Count(Began(plan, c, j).byRepo, r) == Count(c.byRepo, r);
    }
    forall a ensures Count(Began(plan, c, j).byHotArea, a) > 0 ==> Count(Began(plan, c, j).byHotArea, a) <= cfg.perHotArea {
      AddAllCount(c.byHotArea, plan[j].hotAreas, a);
    }
  }

  lemma {:induction false} FinalizeCapacity(plan: Plan, cfg: Config, c: Core, j: string, rc: int)
    requires WellFormed(plan) && c.phases.Keys == plan.Keys && j in plan && j in c.running
    requires CountersExact(plan, c) && WithinCapacity(plan, cfg, c)
    ensures WithinCapacity(plan, cfg, Finalized(plan, cfg, c, j, rc))
  {
    AscendingDistinct(plan[j].hotAreas);
    FinalizeCounters(plan, cfg, c, j, rc);
    forall r ensures Count(Finalized(plan, cfg, c, j, rc).byRepo, r) <= Count(c.byRepo, r) {
      assert r != plan[j].repo ==> Count(Finalized(plan, cfg, c, j, rc).byRepo, r) == Count(c.byRepo, r);
    }
    forall a ensures Count(Finalized(plan, cfg, c, j, rc).byHotArea, a) <= Count(c.byHotArea, a) {
      SubAllCount(c.byHotArea, plan[j].hotAreas, a);
    }
  }

  lemma {:induction false} OverlapSymmetric(a: Job, b: Job)
    ensures Overlap(a, b) == Overlap(b, a)
  {
    if Overlap(a, b) {
      var t :| t in Stripped(a.ownedTargets) && t in Stripped(b.ownedTargets);
    }
    if Overlap(b, a) {
      var t :| t in Stripped(b.ownedTargets) && t in Stripped(a.ownedTargets);
    }
  }

  /** Changing the status of one slice moves it between the status classes. */
  lemma {:induction false} StatusMoved(ph: Phases, j: string, p: Phase, s: Status)
    requires j in ph
    ensures ph[j].status == s && p.status != s ==>
              j in InStatus(ph, s) && InStatus(ph[j := p], s) == InStatus(ph, s) - {j} && |InStatus(ph[j := p], s)| == |InStatus(ph, s)| - 1
    ensures ph[j].status != s && p.status == s ==>
              j !in InStatus(ph, s) && InStatus(ph[j := p], s) == InStatus(ph, s) + {j} && |InStatus(ph[j := p], s)| == |InStatus(ph, s)| + 1
    ensures (ph[j].status == s) == (p.status == s) ==> InStatus(ph[j := p], s) == InStatus(ph, s)
  {
    var a, b := InStatus(ph, s), InStatus(ph[j := p], s);
    if ph[j].status == s && p.status != s {
      SetRemove(a, b, j);
    } else if ph[j].status != s && p.status == s {
      SetInsert(a, b, j);
    } else {
      assert a == b;
    }
  }

  lemma {:induction false} BeginConsistent(plan: Plan, cfg: Config, c: Core, j: string)
    requires WellFormed(plan) && Consistent(plan, cfg, c) && MoveEnabled(plan, cfg, c, Begin(j))
    ensures Consistent(plan, cfg, Began(plan, c, j))
  {
    BeginCounters(plan, c, j);
    BeginCapacity(plan, cfg, c, j);
    BeginTargets(plan, cfg, c, j);
    BeginAccounted(plan, cfg, c, j);
  }

  lemma {:induction false} BeginAccounted(plan: Plan, cfg: Config, c: Core, j: string)
    requires Consistent(plan, cfg, c) && j in plan && c.phases[j].status == Pending
    ensures Accounted(cfg, Began(plan, c, j))
  {
    StatusMoved(c.phases, j, Began(plan, c, j).phases[j], Running);
    BeginTotals(c, j, Began(plan, c, j).phases[j]);
  }

  lemma {:induction false} BeginTargets(plan: Plan, cfg: Config, c: Core, j: string)
    requires c.phases.Keys == plan.Keys && j in plan && Gate(plan, cfg, c, j) && NoSharedTargets(plan, c.running)
    ensures NoSharedTargets(plan, c.running + {j})
  {
    forall i, k | i in c.running + {j} && k in c.running + {j} && i in plan && k in plan && i != k
      ensures !Overlap(plan[i], plan[k])
    {
      OverlapSymmetric(plan[i], plan[k]);
    }
  }

  lemma {:induction false} BeginTotals(c: Core, j: string, p: Phase)
    requires TotalsExact(c) && j in c.phases && c.phases[j].status == Pending && p.status == Running
    ensures TotalsExact(c.(phases := c.phases[j := p]))
  {
    var ph, ph' := c.phases, c.phases[j := p];
    StatusMoved(ph, j, p, Passed);
    StatusMoved(ph, j, p, Failed);
    StatusMoved(ph, j, p, Blocked);
    assert forall k | k in ph :: ph[k].status.Bad() == ph'[k].status.Bad();
  }

  lemma {:induction false} FinalizeCompleted(ph: Phases, j: string, p: Phase)
    requires j in ph && ph[j].status == Running && p.status in {Passed, Failed, Pending}
    ensures var ph' := ph[j := p];
            |InStatus(ph', Passed)| + |InStatus(ph', Failed)| + |InStatus(ph', Blocked)|
            == |InStatus(ph, Passed)| + |InStatus(ph, Failed)| + |InStatus(ph, Blocked)| + if p.status.Terminal() then 1 else 0
  {
    StatusMoved(ph, j, p, Passed);
    StatusMoved(ph, j, p, Failed);
    StatusMoved(ph, j, p, Blocked);
  }

  lemma {:induction false} FinalizeBad(ph: Phases, j: string, p: Phase)
    requires j in ph && ph[j].status == Running && p.status in {Passed, Failed, Pending}
    ensures (exists k | k in ph :: ph[j := p][k].status.Bad()) <==> (exists k | k in ph :: ph[k].status.Bad()) || p.status == Failed
  {
    if k :| k in ph && ph[k].status.Bad() {
      assert ph[j := p][k].status.Bad();
    }
    if p.status == Failed {
      assert ph[j := p][j].status.Bad();
    }
  }

  lemma {:induction false} FinalizeTotals(plan: Plan, cfg: Config, c: Core, j: string, rc: int)
    requires TotalsExact(c) && j in plan && j in c.phases && c.phases[j].status == Running
    ensures TotalsExact(Finalized(plan, cfg, c, j, rc))
  {
    var p := Finished(Limit(cfg), c.phases[j], rc);
    FinalizeCompleted(c.phases, j, p);
    FinalizeBad(c.phases, j, p);
  }

  lemma {:induction false} FinalizeDlq(cfg: Config, c: Core, j: string, rc: int)
    requires DlqExact(cfg, c) && AttemptsBounded(Limit(cfg), c.phases) && j in c.phases && c.phases[j].status == Running
    ensures
      var p := Finished(Limit(cfg), c.phases[j], rc);
      DlqExact(cfg, c.(phases := c.phases[j := p],
                       dlq := if p.status == Failed then c.dlq + [DeadLetter(j, rc, p.attempt)] else c.dlq))
  {
    var p := Finished(Limit(cfg), c.phases[j], rc);
    var dlq' := if p.status == Failed then c.dlq + [DeadLetter(j, rc, p.attempt)] else c.dlq;
    forall k | k in c.phases && c.phases[j := p][k].status == Failed ensures exists i :: 0 <= i < |dlq'| && dlq'[i].slice == k {
      if k == j {
        assert dlq'[|c.dlq|].slice == j;
      } else {
        var i :| 0 <= i < |c.dlq| && c.dlq[i].slice == k;
        assert dlq'[i].slice == k;
      }
    }
  }

  lemma {:induction false} FinalizeAccounted(plan: Plan, cfg: Config, c: Core, j: string, rc: int)
    requires Accounted(cfg, c) && j in plan && j in c.running && c.phases.Keys == plan.Keys
    ensures Accounted(cfg, Finalized(plan, cfg, c, j, rc))
  {
    var p := Finished(Limit(cfg), c.phases[j], rc);
    StatusMoved(c.phases, j, p, Running);
    FinalizeTotals(plan, cfg, c, j, rc);
    FinalizeDlq(cfg, c, j, rc);
  }

  lemma {:induction false} FinalizeConsistent(plan: Plan, cfg: Config, c: Core, j: string, rc: int)
    requires WellFormed(plan) && Consistent(plan, cfg, c) && MoveEnabled(plan, cfg, c, Finalize(j, rc))
    ensures Consistent(plan, cfg, Finalized(plan, cfg, c, j, rc))
  {
    FinalizeCounters(plan, cfg, c, j, rc);
    FinalizeCapacity(plan, cfg, c, j, rc);
    FinalizeAccounted(plan, cfg, c, j, rc);
  }

  /** Blocking pending slices moves exactly those into the blocked class. */
  lemma {:induction false} BlockedClasses(ph: Phases, blocked: seq<string>)
    requires NoDuplicates(blocked) && forall j | j in blocked :: j in ph && ph[j].status == Pending
    ensures InStatus(SetBlocked(ph, blocked), Running) == InStatus(ph, Running)
    ensures InStatus(SetBlocked(ph, blocked), Passed) == InStatus(ph, Passed)
    ensures InStatus(SetBlocked(ph, blocked), Failed) == InStatus(ph, Failed)
    ensures |InStatus(SetBlocked(ph, blocked), Blocked)| == |InStatus(ph, Blocked)| + |blocked|
  {
    var ph' := SetBlocked(ph, blocked);
    assert InStatus(ph', Running) == InStatus(ph, Running);
    assert InStatus(ph', Passed) == InStatus(ph, Passed);
    assert InStatus(ph', Failed) == InStatus(ph, Failed);
    var added := set j | j in blocked;
    assert InStatus(ph', Blocked) == InStatus(ph, Blocked) + added;
    assert InStatus(ph, Blocked) !! added;
    SequenceSize(blocked);
  }

  lemma {:induction false} BlockedBad(ph: Phases, blocked: seq<string>)
    requires forall j | j in blocked :: j in ph && ph[j].status == Pending
    ensures (exists j | j in ph :: SetBlocked(ph, blocked)[j].status.Bad()) <==>
              (exists j | j in ph :: ph[j].status.Bad()) || blocked != []
  {
    var ph' := SetBlocked(ph, blocked);
    if blocked != [] {
      assert ph'[blocked[0]].status.Bad();
    }
    if j :| j in ph && ph[j].status.Bad() {
      assert ph'[j].status.Bad();
    }
    if j :| j in ph && ph'[j].status.Bad() {
      assert j in blocked || ph[j].status.Bad();
    }
  }

  lemma {:induction false} SequenceSize(xs: seq<string>)
    requires NoDuplicates(xs)
    ensures |set x | x in xs| == |xs|
  {
    if xs != [] {
      var front, last := xs[..|xs| - 1], xs[|xs| - 1];
      NoDuplicatesFront(xs);
      SequenceSize(front);
      SetInsert((set x | x in front), (set x | x in xs), last);
    }
  }

  lemma {:induction false} PassAccounted(cfg: Config, c: Core, blocked: seq<string>)
    requires Accounted(cfg, c)
    requires NoDuplicates(blocked) && forall j | j in blocked :: j in c.phases && c.phases[j].status == Pending
    ensures Accounted(cfg, c.(phases := SetBlocked(c.phases, blocked), completed := c.completed + |blocked|,
                              failed := c.failed || blocked != []))
  {
    BlockedClasses(c.phases, blocked);
    BlockedBad(c.phases, blocked);
    BlockedDlq(cfg, c, blocked);
  }

  lemma {:induction false} PassConsistent(plan: Plan, cfg: Config, c: Core, names: seq<string>)
    requires Consistent(plan, cfg, c) && forall j | j in names :: j in plan
    ensures Consistent(plan, cfg, PassBlocked(plan, c, names))
  {
    var blocked := Blocks(DepsOf(plan), c.phases, names);
    BlocksMember(DepsOf(plan), c.phases, names);
    PassAccounted(cfg, c, blocked);
  }

  lemma {:induction false} BlockedDlq(cfg: Config, c: Core, blocked: seq<string>)
    requires forall j | j in blocked :: j in c.phases && c.phases[j].status == Pending
    requires DlqExact(cfg, c)
    ensures DlqExact(cfg, c.(phases := SetBlocked(c.phases, blocked)))
  {
    var ph' := SetBlocked(c.phases, blocked);
    assert forall j | j in ph' && ph'[j].status == Failed :: c.phases[j].status == Failed;
  }

  lemma {:induction false} FreshConsistent(plan: Plan, cfg: Config)
    ensures Consistent(plan, cfg, Fresh(plan))
  {
    var c := Fresh(plan);
    assert InStatus(c.phases, Running) == {} && InStatus(c.phases, Passed) == {};
    assert InStatus(c.phases, Failed) == {} && InStatus(c.phases, Blocked) == {};
    forall r ensures Count(c.byRepo, r) == |RunningIn(plan, c.running, r)| {
      assert RunningIn(plan, c.running, r) == {};
    }
    forall a ensures Count(c.byHotArea, a) == |RunningOn(plan, c.running, a)| {
      assert RunningOn(plan, c.running, a) == {};
    }
  }
}
