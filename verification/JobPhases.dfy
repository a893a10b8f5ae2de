/** What happens to the status of each slice, whatever decides when: the part of the scheduler that
    capacities, locks, clocks and thread timing can delay but not change. A history is the sequence of
    status changes made so far. */
module JobPhases {

  datatype Status = Pending | Running | Passed | Failed | Blocked
  {
    predicate Terminal() { Passed? || Failed? || Blocked? }

    predicate Bad() { Failed? || Blocked? }
  }

  datatype Phase = Phase(status: Status, attempt: nat)

  /** The declared dependencies of every slice of the plan. Names that are not in the plan are ignored. */
  type Deps = map<string, seq<string>>

  type Phases = map<string, Phase>

  /** The return code of attempt `a` of slice `j`. */
  type Codes = (string, nat) -> int

  datatype Change = Start(job: string) | Finish(job: string, rc: int) | Block(job: string)

  /** `p` is declared as a dependency of `j` and is in the plan. */
  predicate IsParent(deps: Deps, p: string, j: string) {
    j in deps && p in deps && p in deps[j]
  }

  function Initial(deps: Deps): (ph: Phases)
    ensures ph.Keys == deps.Keys
  {
    map j | j in deps :: Phase(Pending, 0)
  }

  ghost predicate ParentsPassed(deps: Deps, ph: Phases, j: string)
    requires j in deps && ph.Keys == deps.Keys
  {
    forall p | IsParent(deps, p, j) :: ph[p].status == Passed
  }

  ghost predicate ParentBad(deps: Deps, ph: Phases, j: string)
    requires j in deps && ph.Keys == deps.Keys
  {
    exists p | IsParent(deps, p, j) :: ph[p].status.Bad()
  }

  ghost predicate Enabled(deps: Deps, ph: Phases, c: Change)
    requires ph.Keys == deps.Keys
  {
    c.job in deps &&
    match c
    case Start(j) => ph[j].status == Pending && ParentsPassed(deps, ph, j)
    case Finish(j, _) => ph[j].status == Running
    case Block(j) => ph[j].status == Pending && ParentBad(deps, ph, j)
  }

  /** A nonzero return code on the last attempt fails the slice; before that it goes back to pending. */
  function Finished(limit: int, p: Phase, rc: int): Phase {
    p.(status := if rc == 0 then Passed else if p.attempt >= limit then Failed else Pending)
  }

  function Next(deps: Deps, limit: int, ph: Phases, c: Change): (r: Phases)
    requires ph.Keys == deps.Keys && c.job in deps
    ensures r.Keys == deps.Keys
  {
    match c
    case Start(j) => ph[j := Phase(Running, ph[j].attempt + 1)]
    case Finish(j, rc) => ph[j := Finished(limit, ph[j], rc)]
    case Block(j) => ph[j := ph[j].(status := Blocked)]
  }

  // ---- histories ----

  ghost predicate Legal(deps: Deps, limit: int, h: seq<Change>)
    decreases |h|, 0
  {
    h == [] || (Legal(deps, limit, h[..|h| - 1]) && Enabled(deps, After(deps, limit, h[..|h| - 1]), h[|h| - 1]))
  }

  ghost function After(deps: Deps, limit: int, h: seq<Change>): (ph: Phases)
    requires Legal(deps, limit, h)
    ensures ph.Keys == deps.Keys
    decreases |h|, 1
  {
    if h == [] then Initial(deps) else Next(deps, limit, After(deps, limit, h[..|h| - 1]), h[|h| - 1])
  }

  /** Every return code in the history is the one that `codes` gives for that slice and attempt. */
  ghost predicate Obeys(deps: Deps, limit: int, codes: Codes, h: seq<Change>)
    requires Legal(deps, limit, h)
  {
    h == [] ||
    (var front, c := h[..|h| - 1], h[|h| - 1];
     && Obeys(deps, limit, codes, front)
     && (c.Finish? ==> c.rc == codes(c.job, After(deps, limit, front)[c.job].attempt)))
  }

  lemma {:induction false} LegalSnoc(deps: Deps, limit: int, h: seq<Change>, c: Change)
    requires Legal(deps, limit, h) && Enabled(deps, After(deps, limit, h), c)
    ensures Legal(deps, limit, h + [c]) && After(deps, limit, h + [c]) == Next(deps, limit, After(deps, limit, h), c)
    ensures forall codes: Codes :: Obeys(deps, limit, codes, h + [c]) <==>
              Obeys(deps, limit, codes, h) && (c.Finish? ==> c.rc == codes(c.job, After(deps, limit, h)[c.job].attempt))
  {
    assert (h + [c])[..|h + [c]| - 1] == h;
  }

  predicate Ended(ph: Phases) {
    forall j | j in ph :: ph[j].status.Terminal()
  }

  // ---- why each slice is where it is ----

  function Attempts(limit: int): (n: nat)
    ensures n >= 1 && n >= limit
  {
    if limit < 1 then 1 else limit
  }

  predicate FailsThrough(codes: Codes, j: string, n: nat) {
    forall a: nat | 1 <= a <= n :: codes(j, a) != 0
  }

  /** The status and attempt count of `j` are explained by the return codes and by its parents. */
  ghost predicate JustifiedAt(deps: Deps, limit: int, codes: Codes, ph: Phases, j: string)
    requires j in deps && ph.Keys == deps.Keys
  {
    var Phase(status, a) := ph[j];
    match status
    case Pending => a < Attempts(limit) && FailsThrough(codes, j, a) && (a > 0 ==> ParentsPassed(deps, ph, j))
    case Running => 1 <= a <= Attempts(limit) && FailsThrough(codes, j, a - 1) && ParentsPassed(deps, ph, j)
    case Passed => 1 <= a <= Attempts(limit) && FailsThrough(codes, j, a - 1) && codes(j, a) == 0 && ParentsPassed(deps, ph, j)
    case Failed => a == Attempts(limit) && FailsThrough(codes, j, a) && ParentsPassed(deps, ph, j)
    case Blocked => a == 0 && ParentBad(deps, ph, j)
  }

  ghost predicate Justified(deps: Deps, limit: int, codes: Codes, ph: Phases)
    requires ph.Keys == deps.Keys
  {
    forall j | j in deps :: JustifiedAt(deps, limit, codes, ph, j)
  }

  /** A terminal status is never changed, so parents that have passed stay passed. */
  lemma {:induction false} TerminalKept(deps: Deps, limit: int, ph: Phases, c: Change, j: string)
    requires ph.Keys == deps.Keys && Enabled(deps, ph, c) && j in deps
    ensures ph[j].status.Terminal() ==> Next(deps, limit, ph, c)[j] == ph[j]
    ensures ParentsPassed(deps, ph, j) ==> ParentsPassed(deps, Next(deps, limit, ph, c), j)
    ensures ParentBad(deps, ph, j) ==> ParentBad(deps, Next(deps, limit, ph, c), j)
  {
    if ParentBad(deps, ph, j) {
      var p :| IsParent(deps, p, j) && ph[p].status.Bad();
      assert Next(deps, limit, ph, c)[p] == ph[p];
    }
  }

  lemma {:induction false} StepJustified(deps: Deps, limit: int, codes: Codes, ph: Phases, c: Change)
    requires ph.Keys == deps.Keys && Enabled(deps, ph, c) && Justified(deps, limit, codes, ph)
    requires c.Finish? ==> c.rc == codes(c.job, ph[c.job].attempt)
    ensures Justified(deps, limit, codes, Next(deps, limit, ph, c))
  {
    var ph' := Next(deps, limit, ph, c);
    forall j | j in deps ensures JustifiedAt(deps, limit, codes, ph', j) {
      assert JustifiedAt(deps, limit, codes, ph, j);
      TerminalKept(deps, limit, ph, c, j);
      if j == c.job && c.Block? {
        var p :| IsParent(deps, p, j) && ph[p].status.Bad();
        assert !ParentsPassed(deps, ph, j);
      }
    }
  }

  lemma {:induction false} HistoryJustified(deps: Deps, limit: int, codes: Codes, h: seq<Change>)
    requires Legal(deps, limit, h) && Obeys(deps, limit, codes, h)
    ensures Justified(deps, limit, codes, After(deps, limit, h))
    decreases |h|
  {
    if h != [] {
      var front := h[..|h| - 1];
      HistoryJustified(deps, limit, codes, front);
      StepJustified(deps, limit, codes, After(deps, limit, front), h[|h| - 1]);
    }
  }

  // ---- schedule independence ----

  predicate AgreeOn(ph: Phases, ph': Phases, j: string) {
    j in ph && j in ph' && ph[j].status.Terminal() && ph'[j].status.Terminal() ==> ph[j] == ph'[j]
  }

  lemma {:induction false} BlockAgrees(deps: Deps, limit: int, codes: Codes, ph: Phases, j: string, other: Phases)
    requires ph.Keys == deps.Keys == other.Keys && Enabled(deps, ph, Block(j))
    requires JustifiedAt(deps, limit, codes, ph, j) && JustifiedAt(deps, limit, codes, other, j)
    requires forall p | p in deps :: AgreeOn(ph, other, p)
    ensures AgreeOn(Next(deps, limit, ph, Block(j)), other, j)
  {
    var p :| IsParent(deps, p, j) && ph[p].status.Bad();
    assert AgreeOn(ph, other, p);
    assert !ParentsPassed(deps, ph, j);
    if other[j].status.Terminal() {
      assert !ParentsPassed(deps, other, j);
    }
  }

  lemma {:induction false} FinishAgrees(deps: Deps, limit: int, codes: Codes, ph: Phases, c: Change, other: Phases)
    requires ph.Keys == deps.Keys == other.Keys && c.Finish? && Enabled(deps, ph, c)
    requires JustifiedAt(deps, limit, codes, ph, c.job) && JustifiedAt(deps, limit, codes, other, c.job)
    requires JustifiedAt(deps, limit, codes, Next(deps, limit, ph, c), c.job)
    requires forall p | p in deps :: AgreeOn(ph, other, p)
    ensures AgreeOn(Next(deps, limit, ph, c), other, c.job)
  {
    assert ParentsPassed(deps, ph, c.job);
    assert forall p | IsParent(deps, p, c.job) :: AgreeOn(ph, other, p);
    assert !ParentBad(deps, other, c.job);
  }

  lemma {:induction false} StepAgrees(deps: Deps, limit: int, codes: Codes, ph: Phases, c: Change, other: Phases)
    requires ph.Keys == deps.Keys == other.Keys && Enabled(deps, ph, c)
    requires Justified(deps, limit, codes, ph) && Justified(deps, limit, codes, other)
    requires Justified(deps, limit, codes, Next(deps, limit, ph, c))
    requires forall j | j in deps :: AgreeOn(ph, other, j)
    ensures forall j | j in deps :: AgreeOn(Next(deps, limit, ph, c), other, j)
  {
    var j := c.job;
    assert JustifiedAt(deps, limit, codes, ph, j) && JustifiedAt(deps, limit, codes, other, j);
    assert JustifiedAt(deps, limit, codes, Next(deps, limit, ph, c), j);
    match c {
      case Start(_) =>
      case Block(_) => BlockAgrees(deps, limit, codes, ph, j, other);
      case Finish(_, _) => FinishAgrees(deps, limit, codes, ph, c, other);
    }
    forall k | k in deps ensures AgreeOn(Next(deps, limit, ph, c), other, k) {
      assert AgreeOn(ph, other, k);
    }
  }

  /** Two histories with the same return codes give every slice that is finished in both the same
      status and attempt count, whatever the order of starts, finishes and blocks, and even when the
      dependencies are cyclic. The other history enters only through what it justifies. */
  lemma {:induction false} Agreement(deps: Deps, limit: int, codes: Codes, h: seq<Change>, other: Phases)
    requires Legal(deps, limit, h) && Obeys(deps, limit, codes, h)
    requires other.Keys == deps.Keys && Justified(deps, limit, codes, other)
    ensures forall j | j in deps :: AgreeOn(After(deps, limit, h), other, j)
    decreases |h|
  {
    if h != [] {
      var front := h[..|h| - 1];
      Agreement(deps, limit, codes, front, other);
      HistoryJustified(deps, limit, codes, front);
      HistoryJustified(deps, limit, codes, h);
      StepAgrees(deps, limit, codes, After(deps, limit, front), h[|h| - 1], other);
    }
  }

  lemma {:induction false} EndedAgreementIsEquality(ph: Phases, ph': Phases)
    requires ph.Keys == ph'.Keys && Ended(ph) && Ended(ph')
    requires forall j | j in ph :: AgreeOn(ph, ph', j)
    ensures ph == ph'
  {
    assert forall j | j in ph :: AgreeOn(ph, ph', j) && ph[j] == ph'[j];
  }

  /** Schedule independence: every two runs that end, end the same. */
  lemma {:induction false} ScheduleIndependence(deps: Deps, limit: int, codes: Codes, h: seq<Change>, h': seq<Change>)
    requires Legal(deps, limit, h) && Obeys(deps, limit, codes, h) && Ended(After(deps, limit, h))
    requires Legal(deps, limit, h') && Obeys(deps, limit, codes, h') && Ended(After(deps, limit, h'))
    ensures After(deps, limit, h) == After(deps, limit, h')
  {
    HistoryJustified(deps, limit, codes, h');
    Agreement(deps, limit, codes, h, After(deps, limit, h'));
    EndedAgreementIsEquality(After(deps, limit, h), After(deps, limit, h'));
  }

  // ---- the outcome, as equations ----

  predicate Succeeds(codes: Codes, j: string, n: nat) {
    exists a: nat | 1 <= a <= n :: codes(j, a) == 0
  }

  ghost predicate SomeBad(deps: Deps, f: map<string, Status>, j: string)
    requires f.Keys == deps.Keys
  {
    exists p | IsParent(deps, p, j) :: f[p].Bad()
  }

  /** A slice is blocked iff some parent failed or is blocked; otherwise it passes iff one of its
      attempts returns 0, and fails if none does. */
  ghost function OutcomeOf(deps: Deps, limit: int, codes: Codes, f: map<string, Status>, j: string): Status
    requires f.Keys == deps.Keys
  {
    if SomeBad(deps, f, j) then Blocked
    else if Succeeds(codes, j, Attempts(limit)) then Passed
    else Failed
  }

  ghost predicate IsOutcome(deps: Deps, limit: int, codes: Codes, f: map<string, Status>) {
    f.Keys == deps.Keys && forall j | j in deps :: f[j] == OutcomeOf(deps, limit, codes, f, j)
  }

  function Statuses(ph: Phases): map<string, Status> {
    map j | j in ph :: ph[j].status
  }

  lemma {:induction false} JustifiedOutcome(deps: Deps, limit: int, codes: Codes, ph: Phases, j: string)
    requires ph.Keys == deps.Keys && Ended(ph) && j in deps && JustifiedAt(deps, limit, codes, ph, j)
    ensures ph[j].status == OutcomeOf(deps, limit, codes, Statuses(ph), j)
  {
    var f := Statuses(ph);
    if ParentBad(deps, ph, j) {
      var p :| IsParent(deps, p, j) && ph[p].status.Bad();
      assert f[p].Bad();
      assert !ParentsPassed(deps, ph, j);
    } else {
      assert forall p | IsParent(deps, p, j) :: f[p] == ph[p].status;
      assert !SomeBad(deps, f, j);
    }
  }

  lemma {:induction false} JustifiedIsOutcome(deps: Deps, limit: int, codes: Codes, ph: Phases)
    requires ph.Keys == deps.Keys && Ended(ph) && Justified(deps, limit, codes, ph)
    ensures IsOutcome(deps, limit, codes, Statuses(ph))
  {
    forall j | j in deps ensures Statuses(ph)[j] == OutcomeOf(deps, limit, codes, Statuses(ph), j) {
      assert JustifiedAt(deps, limit, codes, ph, j);
      JustifiedOutcome(deps, limit, codes, ph, j);
    }
  }

  /** Every run that ends solves the outcome equations. */
  lemma {:induction false} EndedIsOutcome(deps: Deps, limit: int, codes: Codes, h: seq<Change>)
    requires Legal(deps, limit, h) && Obeys(deps, limit, codes, h) && Ended(After(deps, limit, h))
    ensures IsOutcome(deps, limit, codes, Statuses(After(deps, limit, h)))
  {
    HistoryJustified(deps, limit, codes, h);
    JustifiedIsOutcome(deps, limit, codes, After(deps, limit, h));
  }

  // ---- dependency paths ----

  /** `p` walks from a slice to known parents. */
  predicate IsPath(deps: Deps, p: seq<string>) {
    && p != []
    && (forall i | 0 <= i < |p| :: p[i] in deps)
    && forall i | 0 <= i < |p| - 1 :: IsParent(deps, p[i + 1], p[i])
  }

  ghost predicate Acyclic(deps: Deps) {
    forall p | IsPath(deps, p) && |p| >= 2 :: p[0] != p[|p| - 1]
  }

  lemma {:induction false} Pigeonhole(p: seq<string>, s: set<string>)
    requires |p| > |s| && forall i | 0 <= i < |p| :: p[i] in s
    ensures exists i, k :: 0 <= i < k < |p| && p[i] == p[k]
    decreases |s|
  {
    var x, rest := p[0], p[1..];
    if x in rest {
      var k :| 0 <= k < |rest| && rest[k] == x;
      assert p[0] == p[k + 1];
    } else {
      forall i | 0 <= i < |rest| ensures rest[i] in s - {x} {
        assert rest[i] == p[i + 1];
      }
      Pigeonhole(rest, s - {x});
      var i, k :| 0 <= i < k < |rest| && rest[i] == rest[k];
      assert p[i + 1] == p[k + 1];
    }
  }

  ghost predicate HasParentIn(deps: Deps, j: string, s: set<string>) {
    exists q :: IsParent(deps, q, j) && q in s
  }

  lemma {:induction false} LongWalk(deps: Deps, s: set<string>, n: nat) returns (p: seq<string>)
    requires s != {} && s <= deps.Keys && n >= 1
    requires forall j | j in s :: HasParentIn(deps, j, s)
    ensures IsPath(deps, p) && |p| == n && forall i | 0 <= i < |p| :: p[i] in s
  {
    if n == 1 {
      var j :| j in s;
      p := [j];
    } else {
      var w := LongWalk(deps, s, n - 1);
      var q :| IsParent(deps, q, w[n - 2]) && q in s;
      p := w + [q];
    }
  }

  lemma {:induction false} RepeatIsCycle(deps: Deps, p: seq<string>, i: nat, k: nat)
    requires IsPath(deps, p) && i < k < |p| && p[i] == p[k]
    ensures !Acyclic(deps)
  {
    var cycle := p[i..k + 1];
    assert IsPath(deps, cycle) && |cycle| >= 2 && cycle[0] == cycle[|cycle| - 1];
  }

  /** In an acyclic plan every nonempty set of slices has one with no parent in the set. */
  lemma {:induction false} SourceExists(deps: Deps, s: set<string>)
    requires Acyclic(deps) && s != {} && s <= deps.Keys
    ensures exists j :: j in s && !HasParentIn(deps, j, s)
  {
    if forall j | j in s :: HasParentIn(deps, j, s) {
      var p := LongWalk(deps, s, |s| + 1);
      Pigeonhole(p, s);
      var i, k :| 0 <= i < k < |p| && p[i] == p[k];
      RepeatIsCycle(deps, p, i, k);
    }
  }

  /** In an acyclic plan the outcome equations have one solution. */
  lemma {:induction false} OutcomeUnique(deps: Deps, limit: int, codes: Codes, f: map<string, Status>, g: map<string, Status>)
    requires Acyclic(deps) && IsOutcome(deps, limit, codes, f) && IsOutcome(deps, limit, codes, g)
    ensures f == g
  {
    var differ := Differing(f, g);
    forall j | j in differ ensures HasParentIn(deps, j, differ) {
      DifferenceInherited(deps, limit, codes, f, g, j);
    }
    if differ != {} {
      SourceExists(deps, differ);
    }
  }

  function Differing(f: map<string, Status>, g: map<string, Status>): (s: set<string>)
    requires f.Keys == g.Keys
    ensures s == {} ==> f == g
  {
    var s := set j | j in f && f[j] != g[j];
    assert forall j | j in f && f[j] != g[j] :: j in s;
    s
  }

  lemma {:induction false} DifferenceInherited(deps: Deps, limit: int, codes: Codes, f: map<string, Status>, g: map<string, Status>, j: string)
    requires IsOutcome(deps, limit, codes, f) && IsOutcome(deps, limit, codes, g) && j in Differing(f, g)
    ensures HasParentIn(deps, j, Differing(f, g))
  {
    if !HasParentIn(deps, j, Differing(f, g)) {
      forall q | IsParent(deps, q, j) ensures f[q] == g[q] {
        assert q !in Differing(f, g);
      }
      OutcomeFromParents(deps, limit, codes, f, g, j);
    }
  }

  lemma {:induction false} OutcomeFromParents(deps: Deps, limit: int, codes: Codes, f: map<string, Status>, g: map<string, Status>, j: string)
    requires IsOutcome(deps, limit, codes, f) && IsOutcome(deps, limit, codes, g) && j in deps
    requires forall q | IsParent(deps, q, j) :: f[q] == g[q]
    ensures f[j] == g[j]
  {
    assert SomeBad(deps, f, j) == SomeBad(deps, g, j);
  }

  /** In an acyclic plan a slice is blocked iff a dependency path leads from it to a failed slice. */
  lemma {:induction false} BlockedIffFailedAncestor(deps: Deps, limit: int, codes: Codes, f: map<string, Status>, j: string)
    requires Acyclic(deps) && IsOutcome(deps, limit, codes, f) && j in deps
    ensures f[j] == Blocked <==> LeadsToFailed(deps, f, j)
  {
    if f[j] == Blocked {
      BlockedLeads(deps, limit, codes, f, j);
    }
    if LeadsToFailed(deps, f, j) {
      var p :| IsPath(deps, p) && |p| >= 2 && p[0] == j && f[p[|p| - 1]] == Failed;
      FailureBlocks(deps, limit, codes, f, p);
    }
  }

  lemma {:induction false} FailureBlocks(deps: Deps, limit: int, codes: Codes, f: map<string, Status>, p: seq<string>)
    requires IsOutcome(deps, limit, codes, f)
    requires IsPath(deps, p) && |p| >= 2 && f[p[|p| - 1]] == Failed
    ensures f[p[0]] == Blocked
    decreases |p|
  {
    if |p| > 2 {
      FailureBlocks(deps, limit, codes, f, p[1..]);
    }
    assert IsParent(deps, p[1], p[0]) && f[p[1]].Bad();
    assert f[p[0]] == OutcomeOf(deps, limit, codes, f, p[0]);
  }

  ghost predicate LeadsToFailed(deps: Deps, f: map<string, Status>, j: string)
    requires f.Keys == deps.Keys
  {
    exists p :: IsPath(deps, p) && |p| >= 2 && p[0] == j && f[p[|p| - 1]] == Failed
  }

  lemma {:induction false} ParentLeads(deps: Deps, f: map<string, Status>, j: string, q: string)
    requires f.Keys == deps.Keys && IsParent(deps, q, j) && (f[q] == Failed || LeadsToFailed(deps, f, q))
    ensures LeadsToFailed(deps, f, j)
  {
    if f[q] == Failed {
      assert IsPath(deps, [j, q]);
    } else {
      var r :| IsPath(deps, r) && |r| >= 2 && r[0] == q && f[r[|r| - 1]] == Failed;
      var p := [j] + r;
      assert IsPath(deps, p) && p[|p| - 1] == r[|r| - 1];
    }
  }

  lemma {:induction false} BlockedLeads(deps: Deps, limit: int, codes: Codes, f: map<string, Status>, j: string)
    requires Acyclic(deps) && IsOutcome(deps, limit, codes, f) && j in deps && f[j] == Blocked
    ensures LeadsToFailed(deps, f, j)
  {
    var lost := set b | b in deps && f[b] == Blocked && !LeadsToFailed(deps, f, b);
    assert j !in lost ==> LeadsToFailed(deps, f, j);
    if lost != {} {
      SourceExists(deps, lost);
      var b :| b in lost && !HasParentIn(deps, b, lost);
      assert f[b] == OutcomeOf(deps, limit, codes, f, b);
      var q :| IsParent(deps, q, b) && f[q].Bad();
      assert q !in lost;
      ParentLeads(deps, f, b, q);
    }
  }

  /** At every point of every history, cyclic or not, each blocked slice has a path to a failed one. */
  lemma {:induction false} BlockedReachesFailed(deps: Deps, limit: int, h: seq<Change>, j: string)
    requires Legal(deps, limit, h) && j in deps && After(deps, limit, h)[j].status == Blocked
    ensures LeadsToFailed(deps, Statuses(After(deps, limit, h)), j)
    decreases |h|
  {
    var front, c := h[..|h| - 1], h[|h| - 1];
    var ph := After(deps, limit, front);
    if ph[j].status == Blocked {
      BlockedReachesFailed(deps, limit, front, j);
    } else {
      var q :| IsParent(deps, q, j) && ph[q].status.Bad();
      if ph[q].status == Blocked {
        BlockedReachesFailed(deps, limit, front, q);
      }
      ParentLeads(deps, Statuses(ph), j, q);
    }
    var p :| IsPath(deps, p) && |p| >= 2 && p[0] == j && Statuses(ph)[p[|p| - 1]] == Failed;
    TerminalKept(deps, limit, ph, c, p[|p| - 1]);
    assert Statuses(After(deps, limit, h))[p[|p| - 1]] == Failed;
  }

  // ---- progress and cycles ----

  /** With nothing running and something unfinished, an acyclic plan has a slice to start or to block. */
  lemma {:induction false} SomethingEnabled(deps: Deps, ph: Phases)
    requires Acyclic(deps) && ph.Keys == deps.Keys && !Ended(ph)
    requires forall k | k in ph :: ph[k].status != Running
    ensures exists j :: j in deps && (Enabled(deps, ph, Start(j)) || Enabled(deps, ph, Block(j)))
  {
    var waiting := set k | k in deps && ph[k].status == Pending;
    var k :| k in ph && !ph[k].status.Terminal();
    assert k in waiting;
    SourceExists(deps, waiting);
    var j :| j in waiting && !HasParentIn(deps, j, waiting);
    assert forall q | IsParent(deps, q, j) :: ph[q].status.Terminal();
    assert Enabled(deps, ph, Start(j)) || Enabled(deps, ph, Block(j));
  }

  function Weight(limit: int, p: Phase): nat {
    match p.status
    case Pending => 2 * (if p.attempt < Attempts(limit) then Attempts(limit) - p.attempt else 0) + 1
    case Running => 2 * (if p.attempt < Attempts(limit) then Attempts(limit) - p.attempt else 0) + 2
    case _ => 0
  }

  function Measure(limit: int, ph: Phases, names: seq<string>): nat
    requires forall j | j in names :: j in ph
  {
    if names == [] then 0 else Weight(limit, ph[names[0]]) + Measure(limit, ph, names[1..])
  }

  predicate AttemptsBounded(limit: int, ph: Phases) {
    forall j | j in ph ::
      (ph[j].status == Pending ==> ph[j].attempt < Attempts(limit))
      && ph[j].attempt <= Attempts(limit)
      && (ph[j].status == Running ==> ph[j].attempt >= 1)
      && (ph[j].status == Failed ==> ph[j].attempt == Attempts(limit))
  }

  lemma {:induction false} MeasureFramed(limit: int, ph: Phases, ph': Phases, names: seq<string>)
    requires forall j | j in names :: j in ph && j in ph' && Weight(limit, ph'[j]) <= Weight(limit, ph[j])
    ensures Measure(limit, ph', names) <= Measure(limit, ph, names)
    ensures (exists j :: j in names && Weight(limit, ph'[j]) < Weight(limit, ph[j])) ==>
              Measure(limit, ph', names) < Measure(limit, ph, names)
  {
    if names != [] {
      assert names == [names[0]] + names[1..];
      MeasureFramed(limit, ph, ph', names[1..]);
    }
  }

  /** Every start, finish and block lowers the measure. */
  lemma {:induction false} StepDecreases(deps: Deps, limit: int, ph: Phases, c: Change, names: seq<string>)
    requires ph.Keys == deps.Keys && Enabled(deps, ph, c) && AttemptsBounded(limit, ph)
    requires forall j :: j in names <==> j in deps
    ensures AttemptsBounded(limit, Next(deps, limit, ph, c))
    ensures Measure(limit, Next(deps, limit, ph, c), names) < Measure(limit, ph, names)
  {
    var ph' := Next(deps, limit, ph, c);
    assert Weight(limit, ph'[c.job]) < Weight(limit, ph[c.job]);
    MeasureFramed(limit, ph, ph', names);
  }

  lemma {:induction false} HistoryBounded(deps: Deps, limit: int, h: seq<Change>)
    requires Legal(deps, limit, h)
    ensures AttemptsBounded(limit, After(deps, limit, h))
    decreases |h|
  {
    if h != [] {
      HistoryBounded(deps, limit, h[..|h| - 1]);
    }
  }

  predicate OnCycle(deps: Deps, p: seq<string>) {
    IsPath(deps, p) && |p| >= 2 && p[0] == p[|p| - 1]
  }

  /** A slice on a dependency cycle never starts, whatever the return codes. */
  lemma {:induction false} CycleNeverRuns(deps: Deps, limit: int, h: seq<Change>, p: seq<string>)
    requires Legal(deps, limit, h) && OnCycle(deps, p)
    ensures forall i | 0 <= i < |p| :: After(deps, limit, h)[p[i]].status in {Pending, Blocked}
    decreases |h|
  {
    if h != [] {
      var front, c := h[..|h| - 1], h[|h| - 1];
      CycleNeverRuns(deps, limit, front, p);
      var ph := After(deps, limit, front);
      forall i | 0 <= i < |p| ensures After(deps, limit, h)[p[i]].status in {Pending, Blocked} {
        var k := if i == |p| - 1 then 0 else i;
        assert p[k] == p[i] && IsParent(deps, p[k + 1], p[k]);
        assert ph[p[k + 1]].status != Passed;
      }
    }
  }

  /** Every attempt of every slice succeeds. */
  function Zero(j: string, a: nat): int {
    0
  }

  /** With a dependency cycle the run in which every attempt succeeds never ends, so acyclicity is
      needed for termination. */
  lemma {:induction false} CyclicNeverEnds(deps: Deps, limit: int, h: seq<Change>, p: seq<string>)
    requires OnCycle(deps, p)
    requires Legal(deps, limit, h) && Obeys(deps, limit, Zero, h)
    ensures After(deps, limit, h)[p[0]].status == Pending && !Ended(After(deps, limit, h))
  {
    var codes: Codes := Zero;
    var ph := After(deps, limit, h);
    HistoryJustified(deps, limit, codes, h);
    CycleNeverRuns(deps, limit, h, p);
    NothingFails(deps, limit, ph);
    if ph[p[0]].status == Blocked {
      BlockedReachesFailed(deps, limit, h, p[0]);
    }
  }

  lemma {:induction false} NothingFails(deps: Deps, limit: int, ph: Phases)
    requires ph.Keys == deps.Keys && Justified(deps, limit, Zero, ph)
    ensures forall j | j in deps :: ph[j].status != Failed
  {
    forall j | j in deps ensures ph[j].status != Failed {
      assert JustifiedAt(deps, limit, Zero, ph, j);
      assert Zero(j, 1) == 0;
    }
  }
}
