/** What one attempt of a slice to start comes to when the store is contended: exactly when it succeeds,
    exactly when two slices end up executing together, and how the leases of a dead run are taken over. */
module Contention {
  import opened Text
  import opened IsoTime
  import opened SlicePlan
  import P = JobPhases
  import opened SchedulerCore
  import opened Cluster
  import S = LockStore

  // ---- an attempt ----

  /** Run `i` goes on taking locks, with clock readings between `lo` and `hi`, until it has them all or
      one is refused. */
  ghost predicate Takes(s: State, i: nat, lo: int, hi: int, steps: seq<Step>)
    decreases steps
  {
    i < |s.runs| &&
    if !s.runs[i].activity.Taking? then steps == []
    else
      && steps != [] && steps[0].Of? && steps[0].i == i && steps[0].action == Proceed && lo <= steps[0].call.now <= hi
      && Enabled(s, steps[0]) && Takes(Next(s, steps[0]), i, lo, hi, steps[1..])
  }

  /** Run `i` tries slice `j`: it sweeps and then takes the locks of the slice. */
  ghost predicate Attempt(s: State, i: nat, j: string, lo: int, hi: int, steps: seq<Step>) {
    && steps != [] && steps[0].Of? && steps[0].i == i && steps[0].action == TryJob(j) && lo <= steps[0].call.now <= hi
    && Enabled(s, steps[0]) && Takes(Next(s, steps[0]), i, lo, hi, steps[1..])
  }

  lemma {:induction false} TakesPossible(s: State, i: nat, lo: int, hi: int, steps: seq<Step>)
    requires Takes(s, i, lo, hi, steps)
    ensures Possible(s, steps)
    decreases steps
  {
    if steps != [] {
      TakesPossible(Next(s, steps[0]), i, lo, hi, steps[1..]);
    }
  }

  lemma {:induction false} AttemptPossible(s: State, i: nat, j: string, lo: int, hi: int, steps: seq<Step>)
    requires Attempt(s, i, j, lo, hi, steps)
    ensures Possible(s, steps)
  {
    TakesPossible(Next(s, steps[0]), i, lo, hi, steps[1..]);
  }

  /** `o` may take lock `n` at time `t`. */
  predicate FreeFor(store: S.Store, n: string, o: S.Owner, t: int) {
    n in store.rows ==> store.rows[n].owner == o || store.rows[n].expiresAt <= t
  }

  /** A lease of `o` that was granted or renewed between `lo` and `hi`. */
  predicate Recent(store: S.Store, n: string, o: S.Owner, lo: int, hi: int, ttl: int) {
    S.Holds(store, n, o) && lo + LeaseSeconds(ttl) <= store.rows[n].expiresAt <= hi + LeaseSeconds(ttl)
  }

  /** The attempt is over before a lease that it takes lapses, and every expiry can be represented. */
  predicate Short(r: Run, lo: int, hi: int) {
    hi < lo + LeaseSeconds(r.cfg.lockTtl) && hi + LeaseSeconds(r.cfg.lockTtl) <= LastInstant()
  }

  lemma {:induction false} AcquireFree(store: S.Store, c: S.Call)
    requires S.Enabled(store, c) && c.op.Acquire? && FreeFor(store, c.op.lock, c.op.owner, c.now)
    requires c.now + LeaseSeconds(c.op.ttl) <= LastInstant()
    ensures S.Step(store, c).1.Grants()
    ensures Recent(S.Next(store, c), c.op.lock, c.op.owner, c.now, c.now, c.op.ttl)
    ensures forall m | m in S.Next(store, c).rows && m != c.op.lock :: m in store.rows && S.Next(store, c).rows[m] == store.rows[m]
  {
  }

  lemma {:induction false} AcquireHeld(store: S.Store, c: S.Call)
    requires S.Enabled(store, c) && c.op.Acquire? && !FreeFor(store, c.op.lock, c.op.owner, c.now)
    ensures !S.Step(store, c).1.Grants()
  {
  }

  lemma {:induction false} UnlapsedKept(store: S.Store, c: S.Call, n: string)
    requires S.Enabled(store, c) && n in store.rows && c.now < store.rows[n].expiresAt
    requires c.op.ExpireStale? || (c.op.Acquire? && c.op.lock != n)
    ensures n in S.Next(store, c).rows && S.Next(store, c).rows[n] == store.rows[n]
  {
  }

  /** A sweep at `t` drops only what has lapsed by `t`. */
  lemma {:induction false} SweepRows(store: S.Store, c: S.Call)
    requires S.Enabled(store, c) && c.op.ExpireStale?
    ensures forall m :: m in S.Next(store, c).rows <==> m in store.rows && c.now < store.rows[m].expiresAt
    ensures forall m | m in S.Next(store, c).rows :: S.Next(store, c).rows[m] == store.rows[m]
  {
  }

  predicate Named(todo: seq<Request>, n: string) {
    exists q :: q in todo && q.name == n
  }

  /** From `a` to `b`, `o` has taken the locks named in `todo` and keeps those it took before; no other row
      is new or changed. */
  ghost predicate Gains(a: S.Store, b: S.Store, o: S.Owner, todo: seq<Request>, lo: int, hi: int, ttl: int) {
    && (forall n | Recent(a, n, o, lo, hi, ttl) || Named(todo, n) :: Recent(b, n, o, lo, hi, ttl))
    && (forall m | m in b.rows && !Named(todo, m) :: m in a.rows && b.rows[m] == a.rows[m])
  }

  lemma {:induction false} GainsConcat(a: S.Store, b: S.Store, c: S.Store, o: S.Owner, x: seq<Request>, y: seq<Request>, lo: int, hi: int, ttl: int)
    requires Gains(a, b, o, x, lo, hi, ttl) && Gains(b, c, o, y, lo, hi, ttl)
    ensures Gains(a, c, o, x + y, lo, hi, ttl)
  {
    assert forall n :: Named(x + y, n) <==> Named(x, n) || Named(y, n) by {
      forall n ensures Named(x + y, n) <==> Named(x, n) || Named(y, n) {
        assert forall q :: q in x + y <==> q in x || q in y;
      }
    }
  }

  ghost predicate AllFree(store: S.Store, todo: seq<Request>, o: S.Owner, t: int) {
    forall q | q in todo :: FreeFor(store, q.name, o, t)
  }

  lemma {:induction false} FreeAfter(a: S.Store, b: S.Store, o: S.Owner, x: Request, todo: seq<Request>, lo: int, hi: int, ttl: int)
    requires Gains(a, b, o, [x], lo, hi, ttl) && AllFree(a, todo, o, lo)
    ensures AllFree(b, todo, o, lo)
  {
    forall q | q in todo ensures FreeFor(b, q.name, o, lo) {
      if Named([x], q.name) {
        assert Recent(b, q.name, o, lo, hi, ttl);
      }
    }
  }

  lemma {:induction false} AcquireGains(store: S.Store, c: S.Call, q: Request, lo: int, hi: int)
    requires S.Enabled(store, c) && c.op.Acquire? && c.op.lock == q.name && FreeFor(store, q.name, c.op.owner, c.now)
    requires lo <= c.now <= hi < lo + LeaseSeconds(c.op.ttl) && hi + LeaseSeconds(c.op.ttl) <= LastInstant()
    ensures S.Step(store, c).1.Grants() && Gains(store, S.Next(store, c), c.op.owner, [q], lo, hi, c.op.ttl)
  {
    AcquireFree(store, c);
    forall n | Recent(store, n, c.op.owner, lo, hi, c.op.ttl) || Named([q], n) ensures Recent(S.Next(store, c), n, c.op.owner, lo, hi, c.op.ttl) {
      if Recent(store, n, c.op.owner, lo, hi, c.op.ttl) {
        RecentKept(store, c, n, c.op.owner, lo, hi);
      }
    }
    assert q in [q];
  }

  lemma {:induction false} RecentKept(store: S.Store, c: S.Call, n: string, o: S.Owner, lo: int, hi: int)
    requires S.Enabled(store, c) && c.op.Acquire? && c.op.owner == o && lo <= c.now <= hi < lo + LeaseSeconds(c.op.ttl)
    requires hi + LeaseSeconds(c.op.ttl) <= LastInstant() && Recent(store, n, o, lo, hi, c.op.ttl)
    ensures Recent(S.Next(store, c), n, o, lo, hi, c.op.ttl)
  {
    if c.op.lock == n {
      AcquireFree(store, c);
    } else {
      UnlapsedKept(store, c, n);
    }
  }

  // ---- one step of an attempt ----

  /** What taking the next lock means for the store and for the run. */
  lemma {:induction false} TakeStep(s: State, i: nat, t: Step)
    requires i < |s.runs| && s.runs[i].activity.Taking?
    requires t.Of? && t.i == i && t.action == Proceed && Enabled(s, t)
    ensures
      var r, c := s.runs[i], t.call;
      var Taking(j, granted, todo) := r.activity;
      && todo != [] && j in r.plan && j in r.core.phases && S.Enabled(s.store, c)
      && c.op.Acquire? && c.op.lock == todo[0].name && c.op.owner == r.Me(j) && c.op.ttl == r.cfg.lockTtl
      && Next(s, t).store == S.Next(s.store, c)
      && (S.Step(s.store, c).1.Grants() ==> Next(s, t).runs == s.runs[i := Granted(r)])
      && (!S.Step(s.store, c).1.Grants() ==>
            Next(s, t).runs == s.runs[i := Next(s, t).runs[i]] && Next(s, t).runs[i].core == r.core && !Next(s, t).runs[i].activity.Taking?)
  {
    var r, o := s.runs[i], S.Step(s.store, t.call).1;
    if !o.Grants() {
      assert React(r, Proceed, o).core == r.core && !React(r, Proceed, o).activity.Taking?;
    }
  }

  /** Starting forgets what the run was doing. */
  lemma {:induction false} StartedAnyway(runs: seq<Run>, i: nat, a: Activity, j: string, all: seq<Request>)
    requires i < |runs| && j in runs[i].plan && j in runs[i].core.phases
    ensures
      var runs' := runs[i := runs[i].(activity := a)];
      runs'[i := Started(runs'[i], j, all)] == runs[i := Started(runs[i], j, all)]
  {
  }

  /** The next lock is free, and so it is granted. */
  lemma {:induction false} TakeGranted(s: State, i: nat, t: Step, lo: int, hi: int)
    requires i < |s.runs| && s.runs[i].activity.Taking? && Short(s.runs[i], lo, hi)
    requires t.Of? && t.i == i && t.action == Proceed && Enabled(s, t) && lo <= t.call.now <= hi
    requires AllFree(s.store, s.runs[i].activity.todo, s.runs[i].Me(s.runs[i].activity.job), lo)
    ensures
      var r, s' := s.runs[i], Next(s, t);
      var Taking(j, _, todo) := r.activity;
      && todo != [] && j in r.plan && j in r.core.phases
      && s'.runs == s.runs[i := Granted(r)]
      && Gains(s.store, s'.store, r.Me(j), [todo[0]], lo, hi, r.cfg.lockTtl)
      && AllFree(s'.store, todo[1..], r.Me(j), lo)
  {
    var r := s.runs[i];
    var Taking(j, _, todo) := r.activity;
    TakeStep(s, i, t);
    assert todo[0] in todo && forall q | q in todo[1..] :: q in todo;
    AcquireGains(s.store, t.call, todo[0], lo, hi);
    FreeAfter(s.store, Next(s, t).store, r.Me(j), todo[0], todo[1..], lo, hi, r.cfg.lockTtl);
  }

  /** Locks that are free when taking begins are all granted: the slice starts, holds recent leases of all
      it asked for, and no other row is new or changed. */
  lemma {:induction false} TakesAll(s: State, i: nat, lo: int, hi: int, steps: seq<Step>)
    requires Takes(s, i, lo, hi, steps) && s.runs[i].activity.Taking? && Short(s.runs[i], lo, hi)
    requires AllFree(s.store, s.runs[i].activity.todo, s.runs[i].Me(s.runs[i].activity.job), lo)
    ensures Possible(s, steps)
    ensures
      var r, e := s.runs[i], After(s, steps);
      var Taking(j, granted, todo) := r.activity;
      && j in r.plan && j in r.core.phases
      && e.runs == s.runs[i := Started(r, j, granted + todo)]
      && Gains(s.store, e.store, r.Me(j), todo, lo, hi, r.cfg.lockTtl)
    decreases steps
  {
    TakesPossible(s, i, lo, hi, steps);
    var r, t, s' := s.runs[i], steps[0], Next(s, steps[0]);
    var Taking(j, granted, todo) := r.activity;
    TakeGranted(s, i, t, lo, hi);
    if |todo| == 1 {
      assert steps[1..] == [] && todo == [todo[0]];
    } else {
      assert todo == [todo[0]] + todo[1..];
      assert s'.runs[i] == r.(activity := Taking(j, granted + [todo[0]], todo[1..]));
      TakesAll(s', i, lo, hi, steps[1..]);
      MoveFirst(granted, todo);
      StartedAnyway(s.runs, i, s'.runs[i].activity, j, granted + todo);
      GainsConcat(s.store, s'.store, After(s', steps[1..]).store, r.Me(j), [todo[0]], todo[1..], lo, hi, r.cfg.lockTtl);
    }
  }

  /** Another lock is granted, and the one held by someone else is still to be asked for. */
  lemma {:induction false} TakeAnother(s: State, i: nat, t: Step, hi: int, n: string)
    requires i < |s.runs| && s.runs[i].activity.Taking? && Named(s.runs[i].activity.todo, n)
    requires t.Of? && t.i == i && t.action == Proceed && Enabled(s, t) && t.call.now <= hi
    requires !FreeFor(s.store, n, s.runs[i].Me(s.runs[i].activity.job), hi)
    requires S.Enabled(s.store, t.call) && S.Step(s.store, t.call).1.Grants()
    ensures
      var r := s.runs[i];
      var Taking(j, granted, todo) := r.activity;
      && |todo| > 1 && Named(todo[1..], n) && !FreeFor(Next(s, t).store, n, r.Me(j), hi)
      && Next(s, t).runs == s.runs[i := r.(activity := Taking(j, granted + [todo[0]], todo[1..]))]
  {
    TakeStep(s, i, t);
    if s.runs[i].activity.todo[0].name == n {
      AcquireHeld(s.store, t.call);
    }
    var todo := s.runs[i].activity.todo;
    assert todo == [todo[0]] + todo[1..];
    UnlapsedKept(s.store, t.call, n);
  }

  /** A lock that someone else holds beyond the attempt refuses it: the slice does not start. */
  lemma {:induction false} TakesBlocked(s: State, i: nat, lo: int, hi: int, steps: seq<Step>, n: string)
    requires Takes(s, i, lo, hi, steps) && s.runs[i].activity.Taking? && Named(s.runs[i].activity.todo, n)
    requires !FreeFor(s.store, n, s.runs[i].Me(s.runs[i].activity.job), hi)
    ensures Possible(s, steps) && After(s, steps).runs[i].core == s.runs[i].core
    ensures After(s, steps).runs == s.runs[i := After(s, steps).runs[i]]
    decreases steps
  {
    TakesPossible(s, i, lo, hi, steps);
    var t, s' := steps[0], Next(s, steps[0]);
    TakeStep(s, i, t);
    if !S.Step(s.store, t.call).1.Grants() {
      assert steps[1..] == [];
    } else {
      TakeAnother(s, i, t, hi, n);
      TakesBlocked(s', i, lo, hi, steps[1..], n);
    }
  }

  // ---- a whole attempt ----

  lemma {:induction false} TryStep(s: State, i: nat, j: string, t: Step)
    requires i < |s.runs| && t.Of? && t.i == i && t.action == TryJob(j) && Enabled(s, t)
    ensures j in s.runs[i].plan && S.Enabled(s.store, t.call) && t.call.op.ExpireStale?
    ensures Next(s, t).store == S.Next(s.store, t.call)
    ensures Next(s, t).runs == s.runs[i := s.runs[i].(activity := Taking(j, [], GlobalLockRequests(s.runs[i].plan[j])))]
  {
  }

  /** With all its locks free when it begins, a slice starts. */
  lemma {:induction false} AttemptAll(s: State, i: nat, j: string, lo: int, hi: int, steps: seq<Step>)
    requires Attempt(s, i, j, lo, hi, steps) && i < |s.runs| && j in s.runs[i].plan && Short(s.runs[i], lo, hi)
    requires forall n | Asks(s.runs[i].plan[j], n) :: FreeFor(s.store, n, s.runs[i].Me(j), lo)
    ensures Possible(s, steps)
    ensures
      var r, e := s.runs[i], After(s, steps);
      && j in r.core.phases
      && e.runs == s.runs[i := Started(r, j, GlobalLockRequests(r.plan[j]))]
      && (forall n | Asks(r.plan[j], n) :: Recent(e.store, n, r.Me(j), lo, hi, r.cfg.lockTtl))
      && (forall m | m in e.store.rows && !Asks(r.plan[j], m) :: m in s.store.rows && e.store.rows[m] == s.store.rows[m])
  {
    AttemptPossible(s, i, j, lo, hi, steps);
    TryStep(s, i, j, steps[0]);
    var r, s' := s.runs[i], Next(s, steps[0]);
    var todo := GlobalLockRequests(r.plan[j]);
    SweepFree(s.store, steps[0].call, r.plan[j], r.Me(j), lo);
    TakesAll(s', i, lo, hi, steps[1..]);
    assert [] + todo == todo;
    StartedAnyway(s.runs, i, Taking(j, [], todo), j, todo);
    SweepGains(s.store, steps[0].call, After(s', steps[1..]).store, r.plan[j], r.Me(j), lo, hi, r.cfg.lockTtl);
  }

  lemma {:induction false} SweepFree(store: S.Store, c: S.Call, job: Job, o: S.Owner, lo: int)
    requires S.Enabled(store, c) && c.op.ExpireStale? && forall n | Asks(job, n) :: FreeFor(store, n, o, lo)
    ensures AllFree(S.Next(store, c), GlobalLockRequests(job), o, lo)
  {
    SweepRows(store, c);
    forall q | q in GlobalLockRequests(job) ensures FreeFor(S.Next(store, c), q.name, o, lo) {
      assert Asks(job, q.name);
    }
  }

  lemma {:induction false} SweepGains(store: S.Store, c: S.Call, end: S.Store, job: Job, o: S.Owner, lo: int, hi: int, ttl: int)
    requires S.Enabled(store, c) && c.op.ExpireStale?
    requires Gains(S.Next(store, c), end, o, GlobalLockRequests(job), lo, hi, ttl)
    ensures forall n | Asks(job, n) :: Recent(end, n, o, lo, hi, ttl)
    ensures forall m | m in end.rows && !Asks(job, m) :: m in store.rows && end.rows[m] == store.rows[m]
  {
    SweepRows(store, c);
    assert forall n :: Named(GlobalLockRequests(job), n) <==> Asks(job, n);
  }

  /** With one of its locks held by someone else beyond the attempt, it does not. */
  lemma {:induction false} AttemptBlocked(s: State, i: nat, j: string, lo: int, hi: int, steps: seq<Step>, n: string)
    requires Attempt(s, i, j, lo, hi, steps) && i < |s.runs| && j in s.runs[i].plan
    requires Asks(s.runs[i].plan[j], n) && !FreeFor(s.store, n, s.runs[i].Me(j), hi)
    ensures Possible(s, steps)
    ensures After(s, steps).runs == s.runs[i := After(s, steps).runs[i]] && After(s, steps).runs[i].core == s.runs[i].core
  {
    AttemptPossible(s, i, j, lo, hi, steps);
    TryStep(s, i, j, steps[0]);
    var s' := Next(s, steps[0]);
    SweepRows(s.store, steps[0].call);
    assert Named(GlobalLockRequests(s.runs[i].plan[j]), n);
    TakesBlocked(s', i, lo, hi, steps[1..], n);
  }

  lemma {:induction false} PendingNotRunning(r: Run, j: string)
    requires RunInvariant(r) && Able(r, TryJob(j))
    ensures j !in r.core.running && r.gone == {} && Executing(r) == r.core.running
  {
    assert r.core.running == InStatus(r.core.phases, P.Running);
  }

  lemma {:induction false} StartedExecutes(r: Run, j: string, all: seq<Request>)
    requires j in r.plan && j in r.core.phases && r.gone == {}
    ensures j in Executing(Started(r, j, all))
  {
  }

  /** An attempt at time `t` succeeds exactly when each lock that the slice asks for is free, its own, or
      lapsed by then. */
  lemma {:induction false} AttemptExact(s: State, i: nat, j: string, t: int, steps: seq<Step>)
    requires i < |s.runs| && RunInvariant(s.runs[i]) && Attempt(s, i, j, t, t, steps) && j in s.runs[i].plan
    requires t + LeaseSeconds(s.runs[i].cfg.lockTtl) <= LastInstant()
    ensures Possible(s, steps) && After(s, steps).runs == s.runs[i := After(s, steps).runs[i]]
    ensures j in Executing(After(s, steps).runs[i]) <==>
              forall n | Asks(s.runs[i].plan[j], n) :: FreeFor(s.store, n, s.runs[i].Me(j), t)
  {
    var r := s.runs[i];
    PendingNotRunning(r, j);
    if forall n | Asks(r.plan[j], n) :: FreeFor(s.store, n, r.Me(j), t) {
      AttemptAll(s, i, j, t, t, steps);
      StartedExecutes(r, j, GlobalLockRequests(r.plan[j]));
    } else {
      var n :| Asks(r.plan[j], n) && !FreeFor(s.store, n, r.Me(j), t);
      AttemptBlocked(s, i, j, t, t, steps, n);
    }
  }

  // ---- exactly when two slices execute together ----

  /** When slice `j` has taken its locks at `t0`, slice `l` of another run may take its own at `t1` exactly
      when they do not compete, or act under one owner, or the first leases have lapsed. */
  lemma {:induction false} FreeAfterAll(store: S.Store, a: Job, b: Job, me: S.Owner, other: S.Owner, ttl: int, t0: int, t1: int)
    requires forall n | Asks(a, n) :: Recent(store, n, me, t0, t0, ttl)
    requires forall n | Asks(b, n) && !Asks(a, n) :: n !in store.rows
    ensures (forall n | Asks(b, n) :: FreeFor(store, n, other, t1)) <==> !Compete(a, b) || me == other || t0 + LeaseSeconds(ttl) <= t1
  {
    CompeteExactly(a, b);
    if Compete(a, b) {
      var n :| Asks(a, n) && Asks(b, n);
      assert FreeFor(store, n, other, t1) <==> me == other || t0 + LeaseSeconds(ttl) <= t1;
    }
    forall n | Asks(b, n) ensures FreeFor(store, n, other, t1) <==> !Asks(a, n) || me == other || t0 + LeaseSeconds(ttl) <= t1 {
    }
  }

  /** The exact condition of mutual exclusion between two runs, whatever their identities and clocks. The
      locks that the two slices ask for are free; the first run takes those of slice `j` at `t0`, the
      other one tries slice `l` at `t1`. Then both slices execute together exactly if they do not
      compete, or the store cannot tell their owners apart, or the first leases have lapsed by `t1`. */
  lemma {:induction false} TogetherExactly(s: State, i: nat, j: string, k: nat, l: string, t0: int, t1: int, first: seq<Step>, second: seq<Step>)
    requires i < |s.runs| && k < |s.runs| && i != k && RunInvariant(s.runs[i]) && RunInvariant(s.runs[k])
    requires j in s.runs[i].plan && l in s.runs[k].plan
    requires forall n | Asks(s.runs[i].plan[j], n) || Asks(s.runs[k].plan[l], n) :: n !in s.store.rows
    requires t0 + (if s.runs[i].cfg.lockTtl >= 1 then s.runs[i].cfg.lockTtl else 1) <= LastInstant()
    requires t1 + (if s.runs[k].cfg.lockTtl >= 1 then s.runs[k].cfg.lockTtl else 1) <= LastInstant()
    requires Attempt(s, i, j, t0, t0, first) && Possible(s, first) && Attempt(After(s, first), k, l, t1, t1, second)
    ensures Possible(After(s, first), second)
    ensures
      var a, b, e := s.runs[i], s.runs[k], After(After(s, first), second);
      (j in Executing(e.runs[i]) && l in Executing(e.runs[k])) <==>
        !Compete(a.plan[j], b.plan[l]) || a.Me(j) == b.Me(l) || t0 + (if a.cfg.lockTtl >= 1 then a.cfg.lockTtl else 1) <= t1
  {
    var a, b, mid := s.runs[i], s.runs[k], After(s, first);
    PendingNotRunning(a, j);
    AttemptAll(s, i, j, t0, t0, first);
    StartedExecutes(a, j, GlobalLockRequests(a.plan[j]));
    assert mid.runs[k] == b;
    AttemptExact(mid, k, l, t1, second);
    FreeAfterAll(mid.store, a.plan[j], b.plan[l], a.Me(j), b.Me(l), a.cfg.lockTtl, t0, t1);
  }

  // ---- attempts can be made ----

  lemma {:induction false} SomeSweep(names: set<string>) returns (sweep: seq<string>)
    ensures Enumerates(sweep, names)
    decreases names
  {
    if names == {} {
      sweep := [];
    } else {
      var n :| n in names;
      var rest := SomeSweep(names - {n});
      sweep := [n] + rest;
    }
  }

  lemma {:induction false} TakesExists(s: State, i: nat, t: int) returns (steps: seq<Step>)
    requires i < |s.runs| && WellTyped(s.runs[i]) && s.runs[i].activity.Taking? && s.runs[i].activity.todo != []
    ensures Takes(s, i, t, t, steps)
    decreases |s.runs[i].activity.todo|
  {
    var r := s.runs[i];
    var sweep := SomeSweep(S.StaleNames(s.store.rows, t));
    var step := Of(i, Proceed, S.Call(t, OpOf(r, Proceed).value, sweep));
    TakeStep(s, i, step);
    var s' := Next(s, step);
    if s'.runs[i].activity.Taking? {
      var Taking(j, granted, todo) := r.activity;
      assert s'.runs[i] == Granted(r) == r.(activity := Taking(j, granted + [todo[0]], todo[1..]));
      var rest := TakesExists(s', i, t);
      steps := [step] + rest;
      assert steps[1..] == rest;
    } else {
      steps := [step];
      assert steps[1..] == [];
    }
  }

  lemma {:induction false} AttemptExists(s: State, i: nat, j: string, t: int) returns (steps: seq<Step>)
    requires i < |s.runs| && WellTyped(s.runs[i]) && Able(s.runs[i], TryJob(j))
    ensures Attempt(s, i, j, t, t, steps)
  {
    var sweep := SomeSweep(S.StaleNames(s.store.rows, t));
    var step := Of(i, TryJob(j), S.Call(t, S.Op.ExpireStale, sweep));
    TryStep(s, i, j, step);
    var rest := TakesExists(Next(s, step), i, t);
    steps := [step] + rest;
    assert steps[1..] == rest;
  }

  // ---- an attempt at one instant is timely ----

  lemma {:induction false} RowsMove(store: S.Store, c: S.Call, n: string)
    requires S.Enabled(store, c) && n in S.Next(store, c).rows
    ensures (n in store.rows && S.Next(store, c).rows[n] == store.rows[n]) || c.now < S.Next(store, c).rows[n].expiresAt
    ensures c.op.Acquire? && S.Step(store, c).1.Grants() && n == c.op.lock ==> c.now < S.Next(store, c).rows[n].expiresAt
  {
  }

  /** What a run keeps after a step of an attempt it kept before, or was just granted. */
  lemma {:induction false} KeptBefore(s: State, i: nat, t: Step, j: string, n: string)
    requires i < |s.runs| && RunInvariant(s.runs[i]) && t.Of? && t.i == i && Enabled(s, t)
    requires t.action.TryJob? || (t.action == Proceed && s.runs[i].activity.Taking?)
    requires Keeps(Next(s, t).runs[i], j, n)
    ensures Keeps(s.runs[i], j, n) || (t.call.op.Acquire? && t.call.op.lock == n && S.Step(s.store, t.call).1.Grants())
  {
    var r := s.runs[i];
    if t.action.TryJob? {
      TryStep(s, i, t.action.job, t);
      TryKeeps(r, t.action.job, GlobalLockRequests(r.plan[t.action.job]));
    } else {
      TakingFacts(r);
      TakeStep(s, i, t);
      if S.Step(s.store, t.call).1.Grants() {
        GrantedKeeps(r, j, n);
      } else if S.Step(s.store, t.call).1.Raised() {
        StoppedKeeps(r);
      } else {
        RefusedKeeps(r);
      }
    }
  }

  lemma {:induction false} TimelyNext(s: State, i: nat, t: Step)
    requires i < |s.runs| && RunInvariant(s.runs[i]) && t.Of? && t.i == i && Enabled(s, t) && Calls(s, t)
    requires t.action.TryJob? || (t.action == Proceed && s.runs[i].activity.Taking?)
    requires Timely(s, t.call.now)
    ensures Timely(Next(s, t), t.call.now)
  {
    var s' := Next(s, t);
    forall k, j, n | 0 <= k < |s'.runs| && Keeps(s'.runs[k], j, n) && n in s'.store.rows
      ensures t.call.now < s'.store.rows[n].expiresAt
    {
      RowsMove(s.store, t.call, n);
      if k == i {
        KeptBefore(s, i, t, j, n);
      } else {
        assert Keeps(s.runs[k], j, n);
      }
    }
  }

  lemma {:induction false} TakesTimely(s: State, i: nat, t: int, steps: seq<Step>)
    requires Takes(s, i, t, t, steps) && RunsInvariant(s.runs) && Timely(s, t)
    ensures Possible(s, steps) && TimelyThroughout(s, steps)
    decreases steps
  {
    TakesPossible(s, i, t, t, steps);
    if steps != [] {
      TimelyNext(s, i, steps[0]);
      StepRuns(s, steps[0]);
      TakesTimely(Next(s, steps[0]), i, t, steps[1..]);
    }
  }

  lemma {:induction false} AttemptTimely(s: State, i: nat, j: string, t: int, steps: seq<Step>)
    requires Attempt(s, i, j, t, t, steps) && RunsInvariant(s.runs) && Timely(s, t)
    ensures Possible(s, steps) && TimelyThroughout(s, steps)
  {
    AttemptPossible(s, i, j, t, t, steps);
    TryStep(s, i, j, steps[0]);
    TimelyNext(s, i, steps[0]);
    StepRuns(s, steps[0]);
    TakesTimely(Next(s, steps[0]), i, t, steps[1..]);
  }

  // ---- taking over from a dead run ----

  lemma {:induction false} OneEnds(s: State, dead: nat, j: string, c: S.Call)
    requires dead < |s.runs| && WellTyped(s.runs[dead]) && s.runs[dead].activity.Halted? && j in Executing(s.runs[dead])
    ensures Enabled(s, Of(dead, SliceEnds(j), c)) && !Calls(s, Of(dead, SliceEnds(j), c))
    ensures
      var r' := s.runs[dead].(gone := s.runs[dead].gone + {j});
      && Next(s, Of(dead, SliceEnds(j), c)) == State(s.store, s.runs[dead := r'])
      && WellTyped(r') && Executing(r') == Executing(s.runs[dead]) - {j}
  {
  }

  /** The slices of a halted run end one after the other, without a store operation. */
  lemma {:induction false} AllEnd(s: State, dead: nat) returns (steps: seq<Step>)
    requires dead < |s.runs| && WellTyped(s.runs[dead]) && s.runs[dead].activity.Halted?
    ensures Possible(s, steps) && TimelyThroughout(s, steps)
    ensures
      var e := After(s, steps);
      && e.store == s.store && e.runs == s.runs[dead := e.runs[dead]]
      && e.runs[dead].activity.Halted? && Executing(e.runs[dead]) == {}
    decreases Executing(s.runs[dead])
  {
    if Executing(s.runs[dead]) == {} {
      steps := [];
      assert s.runs == s.runs[dead := s.runs[dead]];
    } else {
      var j :| j in Executing(s.runs[dead]);
      var step := Of(dead, SliceEnds(j), S.Call(0, S.Op.ExpireStale, []));
      OneEnds(s, dead, j, step.call);
      var rest := AllEnd(Next(s, step), dead);
      StepThen(s, step, rest);
      steps := [step] + rest;
    }
  }

  /** The lease on `n` is one that run `r` left behind, and it has lapsed by `t`. */
  ghost predicate LeftToLapse(store: S.Store, n: string, r: Run, t: int)
    requires n in store.rows
  {
    store.rows[n].expiresAt <= t && exists j :: j in r.plan && store.rows[n].owner == r.Me(j)
  }

  ghost predicate OthersTimely(s: State, dead: nat, now: int) {
    forall i, j, n | 0 <= i < |s.runs| && i != dead && Keeps(s.runs[i], j, n) && n in s.store.rows :: now < s.store.rows[n].expiresAt
  }

  lemma {:induction false} DeadTimely(s: State, e: State, dead: nat, now: int)
    requires dead < |s.runs| && e.store == s.store && |e.runs| == |s.runs| && e.runs == s.runs[dead := e.runs[dead]]
    requires OthersTimely(s, dead, now) && e.runs[dead].activity.Halted? && Executing(e.runs[dead]) == {}
    ensures Timely(e, now)
  {
    forall i, j, n | 0 <= i < |e.runs| && Keeps(e.runs[i], j, n) && n in e.store.rows ensures now < e.store.rows[n].expiresAt {
      assert i != dead && Keeps(s.runs[i], j, n);
    }
  }

  /** Takeover. A run has halted, by an exception or a crash anywhere. Its leases stay in the store, and
      its slices may go on for a while. Once they have ended and those leases have lapsed, a slice of
      another run that asks for them gets all its locks and starts, within the hypotheses of
      `MutualExclusion`. */
  lemma {:induction false} Takeover(s: State, dead: nat, k: nat, l: string, t: int) returns (steps: seq<Step>)
    requires RunsInvariant(s.runs) && dead < |s.runs| && k < |s.runs| && k != dead
    requires s.runs[dead].activity.Halted? && OthersTimely(s, dead, t)
    requires Able(s.runs[k], TryJob(l)) && t + LeaseSeconds(s.runs[k].cfg.lockTtl) <= LastInstant()
    requires forall n | Asks(s.runs[k].plan[l], n) && n in s.store.rows :: LeftToLapse(s.store, n, s.runs[dead], t)
    ensures Possible(s, steps) && TimelyThroughout(s, steps)
    ensures Executing(After(s, steps).runs[dead]) == {} && l in Executing(After(s, steps).runs[k])
  {
    var ending := AllEnd(s, dead);
    var e := After(s, ending);
    RunsConsistent(s, ending);
    DeadTimely(s, e, dead, t);
    var attempt := AttemptExists(e, k, l, t);
    AttemptTimely(e, k, l, t, attempt);
    AttemptExact(e, k, l, t, attempt);
    Concatenated(s, ending, attempt);
    steps := ending + attempt;
  }

  // ---- instances ----

  /** A plan with one whole-repo slice. */
  const SOLO: Plan := map["a" := Job("r", [], [], [], [])]

  function SoloRun(id: string): Run {
    Run(id, "f", SOLO, Config(1, 1, 1, 1, 0), ["a"], Fresh(SOLO), map[], Idle, {})
  }

  lemma {:induction false} SoloReady(id: string)
    ensures FreshRun(SoloRun(id)) && RunInvariant(SoloRun(id)) && Able(SoloRun(id), TryJob("a"))
  {
    assert forall j :: j in ["a"] <==> j in SOLO;
    assert FreshRun(SoloRun(id));
    FreshRunInvariant(S.EMPTY, SoloRun(id));
  }

  ghost predicate BothExecute(s: State) {
    |s.runs| == 2 && "a" in Executing(s.runs[0]) && "a" in Executing(s.runs[1])
  }

  /** Whenever two runs may try a slice each, they can do so one after the other. */
  lemma {:induction false} BothAttempt(s: State, i: nat, j: string, k: nat, l: string, t0: int, t1: int)
    returns (first: seq<Step>, second: seq<Step>)
    requires i < |s.runs| && k < |s.runs| && i != k && RunInvariant(s.runs[i]) && RunInvariant(s.runs[k])
    requires Able(s.runs[i], TryJob(j)) && Able(s.runs[k], TryJob(l)) && t0 + LeaseSeconds(s.runs[i].cfg.lockTtl) <= LastInstant()
    requires forall n | Asks(s.runs[i].plan[j], n) :: n !in s.store.rows
    ensures Attempt(s, i, j, t0, t0, first) && Possible(s, first) && Attempt(After(s, first), k, l, t1, t1, second)
  {
    first := AttemptExists(s, i, j, t0);
    AttemptAll(s, i, j, t0, t0, first);
    assert After(s, first).runs[k] == s.runs[k];
    second := AttemptExists(After(s, first), k, l, t1);
  }

  lemma {:induction false} Rivals(second: string, t: int) returns (steps: seq<Step>)
    requires second == "1" || t == 1
    requires 0 <= t <= 1
    ensures var s := State(S.EMPTY, [SoloRun("1"), SoloRun(second)]);
            Possible(s, steps) && BothExecute(After(s, steps))
  {
    var s := State(S.EMPTY, [SoloRun("1"), SoloRun(second)]);
    SoloReady("1");
    SoloReady(second);
    var first, next := BothAttempt(s, 0, "a", 1, "a", 0, t);
    TogetherExactly(s, 0, "a", 1, "a", 0, t, first, next);
    Concatenated(s, first, next);
    steps := first + next;
  }

  /** Without timely heartbeats two runs do execute one slice together: the second run's sweep at time 1
      removes the first one's lease of one second. */
  lemma {:induction false} LapseBreaks() returns (steps: seq<Step>)
    ensures
      var s := State(S.EMPTY, [SoloRun("1"), SoloRun("2")]);
      Initially(s) && Possible(s, steps) && BothExecute(After(s, steps))
  {
    SoloReady("1");
    SoloReady("2");
    PairInitially(S.EMPTY, SoloRun("1"), SoloRun("2"));
    steps := Rivals("2", 1);
  }

  lemma {:induction false} PairInitially(store: S.Store, a: Run, b: Run)
    requires FreshRun(a) && FreshRun(b) && a.id != b.id
    ensures Initially(Cluster.State(store, [a, b]))
  {
  }

  /** Nor does it help to heartbeat in time when two runs go by one identity, as two runs of a feature
      without an explicit run id do: the store renews the lease for the second one. */
  lemma {:induction false} SharedIdentityBreaks() returns (steps: seq<Step>)
    ensures
      var s := State(S.EMPTY, [SoloRun("1"), SoloRun("1")]);
      Possible(s, steps) && BothExecute(After(s, steps))
  {
    steps := Rivals("1", 0);
  }
}
