/** The human approval gate of one feature: the spec files, the plan file and the state record, and the
    commands and edits that change them. Hashes are taken as injective, so a hash is its content. */
module ApprovalGate {
  import opened Wrappers
  import SlicePlan

  /** A spec file, split into the value of its frontmatter `status` line, if it has one, and the rest. */
  datatype Spec = Spec(status: Option<string>, rest: string)

  datatype Entry =
    | Slice(name: string, status: string, report: Option<string>, result: Option<string>, rest: string)
    | Other(text: string)

  datatype File = File(spec: Spec, mtime: int)

  /** A plan file: the spec path that it states, its slices, its other values, and its layout if that is
      not the one that the tool writes (`None`). Two plan files with the same bytes are the same value. */
  datatype Plan = Plan(layout: Option<string>, specPath: Option<string>, slices: seq<Entry>, rest: string)

  /** A recorded hash, possibly empty. */
  datatype Hash<T> = NoHash | HashOf(content: T)

  datatype ReviewRecord = ReviewRecord(ready: bool, hash: Hash<Spec>, mtime: int)

  datatype SpecApproval = SpecApproval(approver: string, reviewed: Hash<Spec>, hash: Hash<Spec>, mtime: int)

  datatype PlanApproval = PlanApproval(approver: string, spec: Hash<Spec>, plan: Hash<Plan>)

  datatype Record = Record(
    status: string, review: Option<ReviewRecord>, approval: Option<SpecApproval>,
    planApproval: Option<PlanApproval>, previousPlanApproval: Option<PlanApproval>)

  const NO_RECORD := Record("", None, None, None, None)

  /** `name` is the path that the tool writes for the feature's own spec, and `resolve` finds the file that
      a written path means. */
  datatype State = State(resolve: string -> string, name: string, files: map<string, File>, plan: Option<Plan>, record: Record)
  {
    function Own(): string { resolve(name) }

    /** The spec file that the plan names. */
    function Named(): string { resolve(if plan.Some? && plan.value.specPath.Some? then plan.value.specPath.value else "") }

    function SpecAt(path: string): Option<Spec> { if path in files then Some(files[path].spec) else None }
  }

  /** What happens to the feature. Results of analyses that the model leaves open are parameters:
      whether a review finds the spec ready, whether the final check before an approval passes, whether
      a plan can be made and what it contains, whether git makes the worktree, whether the tests pass. */
  datatype Command =
    | EditSpec(path: string, file: Option<File>)
    | EditPlan(plan: Option<Plan>)
    | Review(ready: bool)
    | SpecApprove(approver: string, sound: bool, mtime: int)
    | MakePlan(valid: bool, slices: seq<Entry>, rest: string)
    | PlanApprove(approver: string)
    | SliceStart(slice: string, policy: bool, worktree: bool)
    | SliceVerify(slice: string, passed: bool, report: string)

  datatype Outcome = Done | Refused(reason: Reason)

  datatype Reason =
    | NoSpec | NoReview | NotReady | ChangedSinceReview | NoApprover | NotSound
    | AlreadyReleased | NotApproved | InvalidPlan | NoPlan | NoSlice | GateClosed | NoWorktree

  // ---- status values ----

  function Normalized(status: Option<string>): string {
    if status.None? then "" else SlicePlan.LowerAll(SlicePlan.Strip(status.value))
  }

  function WithStatus(spec: Spec, status: string): Spec {
    spec.(status := Some(status))
  }

  // ---- the two verdicts and the gate ----

  function SpecHash(r: Record): Hash<Spec> {
    if r.approval.None? then NoHash else r.approval.value.hash
  }

  predicate SpecApproved(s: State, path: string) {
    path in s.files && SpecHash(s.record) == HashOf(s.files[path].spec)
  }

  /** A missing file has an empty hash. */
  function CurrentSpec(s: State, path: string): Hash<Spec> {
    if path in s.files then HashOf(s.files[path].spec) else NoHash
  }

  function PlanHash(s: State): Hash<Plan> {
    if s.plan.None? then NoHash else HashOf(s.plan.value)
  }

  predicate PlanApproved(s: State, path: string) {
    && s.record.planApproval.Some?
    && s.record.planApproval.value.spec.HashOf? && s.record.planApproval.value.plan.HashOf?
    && s.record.planApproval.value.spec == CurrentSpec(s, path)
    && s.record.planApproval.value.plan == PlanHash(s)
  }

  /** What policy asks for at the stages `slice-start`, `workflow-run` and `release` about the spec file
      that it is given: the one that the plan names for `slice start`, else the feature's own. */
  predicate GateOpen(s: State, path: string) {
    SpecApproved(s, path) && PlanApproved(s, path)
  }

  // ---- rewriting the status of a slice in the plan file ----

  predicate Matches(e: Entry, slice: string) {
    e.Slice? && SlicePlan.Strip(e.name) == slice
  }

  /** The index of the first matching slice, or the number of slices. */
  function FirstMatch(slices: seq<Entry>, slice: string): (i: nat)
    ensures i <= |slices|
    ensures forall k | 0 <= k < i :: !Matches(slices[k], slice)
    ensures i < |slices| ==> Matches(slices[i], slice)
  {
    if slices == [] || Matches(slices[0], slice) then 0 else 1 + FirstMatch(slices[1..], slice)
  }

  function Verified(e: Entry, passed: bool, report: string): Entry
    requires e.Slice?
  {
    e.(status := if passed then "verification-passed" else "verification-failed",
       report := Some(report), result := Some(if passed then "passed" else "failed"))
  }

  /** The plan file after `update_plan_slice_status`: rewritten in the tool's layout if a slice matches. */
  function Updated(p: Plan, slice: string, passed: bool, report: string): Plan {
    var i := FirstMatch(p.slices, slice);
    if i == |p.slices| then p
    else Plan(None, p.specPath, p.slices[i := Verified(p.slices[i], passed, report)], p.rest)
  }

  predicate HasSlice(p: Option<Plan>, slice: string) {
    p.Some? && exists i | 0 <= i < |p.value.slices| :: p.value.slices[i].Slice? && p.value.slices[i].name == slice
  }

  // ---- commands ----

  function ReviewStep(s: State, ready: bool): (State, Outcome) {
    if s.Own() !in s.files then (s, Refused(NoSpec))
    else
      var own := s.files[s.Own()];
      var review := ReviewRecord(ready, HashOf(own.spec), own.mtime);
      (s.(record := s.record.(status := "reviewing-spec", review := Some(review))), Done)
  }

  function SpecApproveStep(s: State, approver: string, sound: bool, mtime: int): (State, Outcome) {
    if s.Own() !in s.files then (s, Refused(NoSpec))
    else if s.record.review.None? then (s, Refused(NoReview))
    else
      var own, review := s.files[s.Own()], s.record.review.value;
      if !review.ready then (s, Refused(NotReady))
      else if review.mtime != own.mtime then (s, Refused(ChangedSinceReview))
      else if approver == "" then (s, Refused(NoApprover))
      else if review.hash.HashOf? && review.hash.content != own.spec then (s, Refused(ChangedSinceReview))
      else if !sound then (s, Refused(NotSound))
      else
        var spec := WithStatus(own.spec, "approved");
        var approval := SpecApproval(approver, HashOf(own.spec), HashOf(spec), mtime);
        (s.(files := s.files[s.Own() := File(spec, mtime)], record := s.record.(status := "approved-spec", approval := Some(approval))), Done)
  }

  function MakePlanStep(s: State, valid: bool, slices: seq<Entry>, rest: string): (State, Outcome) {
    if s.Own() !in s.files then (s, Refused(NoSpec))
    else if Normalized(s.files[s.Own()].spec.status) == "released" then (s, Refused(AlreadyReleased))
    else if Normalized(s.files[s.Own()].spec.status) != "approved" then (s, Refused(NotApproved))
    else if !valid then (s, Refused(InvalidPlan))
    else
      var record := s.record.(status := "planned");
      var record' := if record.planApproval.Some? then record.(previousPlanApproval := record.planApproval, planApproval := None) else record;
      (s.(plan := Some(Plan(None, Some(s.name), slices, rest)), record := record'), Done)
  }

  function PlanApproveStep(s: State, approver: string): (State, Outcome) {
    if s.Own() !in s.files then (s, Refused(NoSpec))
    else if s.plan.None? then (s, Refused(NoPlan))
    else if !SpecApproved(s, s.Own()) then (s, Refused(NotApproved))
    else if approver == "" then (s, Refused(NoApprover))
    else
      var approval := PlanApproval(approver, CurrentSpec(s, s.Own()), PlanHash(s));
      (s.(record := s.record.(status := "plan-approved", planApproval := Some(approval))), Done)
  }

  /** The spec that counts is the one that the plan names. The policy check cannot do without it; the
      plan verdict alone takes a missing file for a changed one. */
  function SliceStartStep(s: State, slice: string, policy: bool, worktree: bool): (State, Outcome) {
    if s.plan.None? then (s, Refused(NoPlan))
    else if !HasSlice(s.plan, slice) then (s, Refused(NoSlice))
    else if policy && s.Named() !in s.files then (s, Refused(NoSpec))
    else if !(if policy then GateOpen(s, s.Named()) else PlanApproved(s, s.Named())) then (s, Refused(GateClosed))
    else if !worktree then (s, Refused(NoWorktree))
    else (s.(record := s.record.(status := "slice-started")), Done)
  }

  /** The plan states a spec path, and there is such a file. */
  predicate NamesSpec(s: State) {
    s.plan.Some? && s.plan.value.specPath.Some? && s.Named() in s.files
  }

  function SliceVerifyStep(s: State, slice: string, passed: bool, report: string): (State, Outcome) {
    if s.plan.None? then (s, Refused(NoPlan))
    else if !HasSlice(s.plan, slice) then (s, Refused(NoSlice))
    else if !NamesSpec(s) then (s, Refused(NoSpec))
    else
      (s.(plan := Some(Updated(s.plan.value, slice, passed, report)),
          record := s.record.(status := if passed then "in-review" else "implementing")), Done)
  }

  function Step(s: State, c: Command): (State, Outcome) {
    match c
    case EditSpec(path, file) => (s.(files := if file.None? then s.files - {path} else s.files[path := file.value]), Done)
    case EditPlan(plan) => (s.(plan := plan), Done)
    case Review(ready) => ReviewStep(s, ready)
    case SpecApprove(approver, sound, mtime) => SpecApproveStep(s, approver, sound, mtime)
    case MakePlan(valid, slices, rest) => MakePlanStep(s, valid, slices, rest)
    case PlanApprove(approver) => PlanApproveStep(s, approver)
    case SliceStart(slice, policy, worktree) => SliceStartStep(s, slice, policy, worktree)
    case SliceVerify(slice, passed, report) => SliceVerifyStep(s, slice, passed, report)
  }

  // ---- when each command is done, and what it then does ----

  /** A review needs the own spec, and records its bytes and modification time. */
  lemma {:induction false} ReviewExactly(s: State, ready: bool)
    ensures
      var (t, r) := Step(s, Review(ready));
      var own := s.resolve(s.name);
      && (r == Done <==> own in s.files)
      && (r != Done ==> t == s && r == Refused(NoSpec))
      && (r == Done ==>
            t == s.(record := t.record) && t.record.status == "reviewing-spec"
            && t.record.review == Some(ReviewRecord(ready, HashOf(s.files[own].spec), s.files[own].mtime))
            && t.record.approval == s.record.approval && t.record.planApproval == s.record.planApproval)
  {
  }

  /** A spec is approved iff it exists, was reviewed and found ready, has the modification time and, if one
      was recorded, the hash of that review, somebody approves it, and the final check passes. Otherwise
      nothing changes, and the first of these that fails is named. */
  lemma {:induction false} SpecApproveExactly(s: State, approver: string, sound: bool, mtime: int)
    ensures
      var (t, r) := Step(s, SpecApprove(approver, sound, mtime));
      var own, review := s.resolve(s.name), s.record.review;
      && (r == Done <==>
            && own in s.files && review.Some? && review.value.ready && review.value.mtime == s.files[own].mtime
            && approver != "" && (review.value.hash == NoHash || review.value.hash == HashOf(s.files[own].spec)) && sound)
      && (r != Done ==> t == s && r == Refused(
            if own !in s.files then NoSpec else if review == None then NoReview else if !review.value.ready then NotReady
            else if review.value.mtime != s.files[own].mtime then ChangedSinceReview else if approver == "" then NoApprover
            else if review.value.hash != NoHash && review.value.hash != HashOf(s.files[own].spec) then ChangedSinceReview else NotSound))
      && (r == Done ==>
            var approved := Spec(Some("approved"), s.files[own].spec.rest);
            && t == s.(files := s.files[own := File(approved, mtime)], record := t.record) && t.record.status == "approved-spec"
            && t.record.approval == Some(SpecApproval(approver, HashOf(s.files[own].spec), HashOf(approved), mtime))
            && t.record.review == review && t.record.planApproval == s.record.planApproval)
  {
  }

  /** A plan is made iff the spec exists, its status, stripped and in lower case, is `approved`, and the
      plan is valid. It then replaces the plan file and drops the plan approval. */
  lemma {:induction false} MakePlanExactly(s: State, valid: bool, slices: seq<Entry>, rest: string)
    ensures
      var (t, r) := Step(s, MakePlan(valid, slices, rest));
      var own := s.resolve(s.name);
      && (r == Done <==> own in s.files && HasStatus(s.files[own].spec, "approved") && valid)
      && (r != Done ==> t == s && r == Refused(
            if own !in s.files then NoSpec else if HasStatus(s.files[own].spec, "released") then AlreadyReleased
            else if !HasStatus(s.files[own].spec, "approved") then NotApproved else InvalidPlan))
      && (r == Done ==>
            && t == s.(plan := Some(Plan(None, Some(s.name), slices, rest)), record := t.record) && t.record.status == "planned"
            && t.record.planApproval == None
            && t.record.previousPlanApproval == (if s.record.planApproval.Some? then s.record.planApproval else s.record.previousPlanApproval)
            && t.record.review == s.record.review && t.record.approval == s.record.approval)
  {
  }

  /** The status line of the spec, whatever its case and the whitespace around it. */
  predicate HasStatus(spec: Spec, status: string) {
    spec.status.Some? && SlicePlan.LowerAll(SlicePlan.Strip(spec.status.value)) == status
  }

  /** A plan is approved iff the spec and the plan exist, the spec has the bytes of its approval, and
      somebody approves it. */
  lemma {:induction false} PlanApproveExactly(s: State, approver: string)
    ensures
      var (t, r) := Step(s, PlanApprove(approver));
      var own := s.resolve(s.name);
      var current := own in s.files && s.record.approval.Some? && s.record.approval.value.hash == HashOf(s.files[own].spec);
      && (r == Done <==> s.plan.Some? && current && approver != "")
      && (r != Done ==> t == s && r == Refused(
            if own !in s.files then NoSpec else if s.plan == None then NoPlan else if !current then NotApproved else NoApprover))
      && (r == Done ==>
            && t == s.(record := t.record) && t.record.status == "plan-approved"
            && t.record.planApproval == Some(PlanApproval(approver, HashOf(s.files[own].spec), HashOf(s.plan.value)))
            && t.record.review == s.record.review && t.record.approval == s.record.approval)
  {
  }

  /** `slice` is, as written, the name of a slice of the plan. */
  predicate Named(p: Plan, slice: string) {
    exists i :: 0 <= i < |p.slices| && p.slices[i].Slice? && p.slices[i].name == slice
  }

  /** A slice starts iff the plan exists and has it, the file that the plan names has the hash of the plan
      approval and, with policy, of the spec approval too, the plan has the hash of its approval, and the
      worktree can be made. */
  lemma {:induction false} SliceStartExactly(s: State, slice: string, policy: bool, worktree: bool)
    ensures
      var (t, r) := Step(s, SliceStart(slice, policy, worktree));
      var named := s.resolve(if s.plan.Some? && s.plan.value.specPath.Some? then s.plan.value.specPath.value else "");
      var matching := named in s.files && s.record.planApproval.Some? && s.plan.Some?
                      && s.record.planApproval.value.spec == HashOf(s.files[named].spec)
                      && s.record.planApproval.value.plan == HashOf(s.plan.value);
      var approved := named in s.files && s.record.approval.Some? && s.record.approval.value.hash == HashOf(s.files[named].spec);
      && (r == Done <==> s.plan.Some? && Named(s.plan.value, slice) && matching && (policy ==> approved) && worktree)
      && (r != Done ==> t == s && r == Refused(
            if s.plan == None then NoPlan else if !Named(s.plan.value, slice) then NoSlice
            else if policy && named !in s.files then NoSpec else if !(matching && (policy ==> approved)) then GateClosed else NoWorktree))
      && (r == Done ==> t == s.(record := s.record.(status := "slice-started")))
  {
  }

  /** A verification is recorded iff the plan exists and has the slice and the spec file that it names
      exists. It then writes its result into the first slice whose stripped name is the one given. */
  lemma {:induction false} SliceVerifyExactly(s: State, slice: string, passed: bool, report: string)
    ensures
      var (t, r) := Step(s, SliceVerify(slice, passed, report));
      && (r == Done <==> s.plan.Some? && Named(s.plan.value, slice) && s.plan.value.specPath.Some? && s.resolve(s.plan.value.specPath.value) in s.files)
      && (r != Done ==> t == s && r == Refused(if s.plan == None then NoPlan else if !Named(s.plan.value, slice) then NoSlice else NoSpec))
      && (r == Done ==>
            && t == s.(plan := t.plan, record := s.record.(status := if passed then "in-review" else "implementing"))
            && t.plan.Some? && Rewritten(s.plan.value, t.plan.value, slice, passed, report))
  {
    if s.plan.Some? {
      var p := s.plan.value;
      var i := FirstMatch(p.slices, slice);
      assert i < |p.slices| ==> FirstNamed(p.slices, slice, i);
    }
  }

  /** Slice `i` is the first one with that stripped name. */
  ghost predicate FirstNamed(slices: seq<Entry>, slice: string, i: nat) {
    && i < |slices| && slices[i].Slice? && SlicePlan.Strip(slices[i].name) == slice
    && forall k | 0 <= k < i && slices[k].Slice? :: SlicePlan.Strip(slices[k].name) != slice
  }

  ghost predicate Rewritten(p: Plan, p': Plan, slice: string, passed: bool, report: string) {
    if exists i: nat :: FirstNamed(p.slices, slice, i) then
      && p'.layout == None && p'.specPath == p.specPath && p'.rest == p.rest && |p'.slices| == |p.slices|
      && exists i: nat ::
           && FirstNamed(p.slices, slice, i)
           && p'.slices[i] == Slice(p.slices[i].name, if passed then "verification-passed" else "verification-failed",
                                    Some(report), Some(if passed then "passed" else "failed"), p.slices[i].rest)
           && forall k | 0 <= k < |p.slices| && k != i :: p'.slices[k] == p.slices[k]
    else p' == p
  }

  // ---- histories ----

  function After(s: State, h: seq<Command>): State {
    if h == [] then s else Step(After(s, h[..|h| - 1]), h[|h| - 1]).0
  }

  datatype Kind = Reviewing | ApprovingSpec | Planning | ApprovingPlan

  predicate OfKind(c: Command, k: Kind) {
    match k
    case Reviewing => c.Review?
    case ApprovingSpec => c.SpecApprove?
    case Planning => c.MakePlan?
    case ApprovingPlan => c.PlanApprove?
  }

  /** Command `i` of the history is of kind `k` and was not refused. */
  predicate DoneAt(s: State, h: seq<Command>, i: nat, k: Kind)
    requires i < |h|
  {
    OfKind(h[i], k) && Step(After(s, h[..i]), h[i]).1 == Done
  }

  /** The latest successful command of kind `k`, or -1. */
  function Latest(s: State, h: seq<Command>, k: Kind): (i: int)
    ensures -1 <= i < |h|
  {
    if h == [] then -1
    else if DoneAt(s, h, |h| - 1, k) then |h| - 1
    else Latest(s, h[..|h| - 1], k)
  }

  lemma {:induction false} LatestMeaning(s: State, h: seq<Command>, k: Kind)
    ensures Latest(s, h, k) >= 0 ==> DoneAt(s, h, Latest(s, h, k), k)
    ensures forall m | Latest(s, h, k) < m < |h| :: !DoneAt(s, h, m, k)
  {
    if h != [] {
      var front := h[..|h| - 1];
      LatestMeaning(s, front, k);
      forall m | 0 <= m < |front| ensures DoneAt(s, front, m, k) == DoneAt(s, h, m, k) {
        assert front[..m] == h[..m] && front[m] == h[m];
      }
    }
  }

  /** The state before command `i`. */
  function At(s: State, h: seq<Command>, i: nat): State
    requires i <= |h|
  {
    After(s, h[..i])
  }

  lemma {:induction false} AtFront(s: State, h: seq<Command>, i: nat)
    requires i < |h|
    ensures At(s, h[..|h| - 1], i) == At(s, h, i)
    ensures forall k :: Latest(s, h[..|h| - 1][..i], k) == Latest(s, h[..i], k)
  {
    assert h[..|h| - 1][..i] == h[..i];
  }

  /** Nothing moves the feature's own spec. */
  lemma {:induction false} SamePlace(s: State, h: seq<Command>)
    ensures After(s, h).resolve == s.resolve && After(s, h).name == s.name && After(s, h).Own() == s.Own()
  {
    if h != [] {
      SamePlace(s, h[..|h| - 1]);
    }
  }

  /** The bytes of the feature's own spec before command `i`. */
  function OwnAt(s: State, h: seq<Command>, i: nat): Option<Spec>
    requires i <= |h|
  {
    At(s, h, i).SpecAt(s.Own())
  }

  /** The spec approval at `a` approved the bytes that the latest review before it had found ready. */
  ghost predicate ReviewedBefore(s: State, h: seq<Command>, a: nat)
    requires a <= |h|
  {
    var r := Latest(s, h[..a], Reviewing);
    r >= 0 && h[r] == Review(true) && OwnAt(s, h, r).Some? && OwnAt(s, h, r) == OwnAt(s, h, a)
  }

  ghost predicate ReviewExplained(s: State, h: seq<Command>, record: Record) {
    var r := Latest(s, h, Reviewing);
    if r < 0 then record.review == None
    else
      && h[r].Review? && s.Own() in At(s, h, r).files
      && record.review == Some(ReviewRecord(h[r].ready, HashOf(At(s, h, r).files[s.Own()].spec), At(s, h, r).files[s.Own()].mtime))
  }

  ghost predicate ApprovalExplained(s: State, h: seq<Command>, record: Record) {
    var a := Latest(s, h, ApprovingSpec);
    if a < 0 then record.approval == None
    else
      && ReviewedBefore(s, h, a)
      && record.approval.Some? && record.approval.value.hash == HashOf(WithStatus(OwnAt(s, h, a).value, "approved"))
  }

  ghost predicate PlanExplained(s: State, h: seq<Command>, record: Record) {
    var p, b := Latest(s, h, Planning), Latest(s, h, ApprovingPlan);
    if b <= p then record.planApproval == None
    else
      && record.planApproval.Some?
      && SpecApproved(At(s, h, b), s.Own()) && At(s, h, b).plan.Some?
      && record.planApproval.value.spec == CurrentSpec(At(s, h, b), s.Own()) && record.planApproval.value.plan == PlanHash(At(s, h, b))
  }

  /** The record says what the history says. */
  ghost predicate Explained(s: State, h: seq<Command>) {
    var record := After(s, h).record;
    ReviewExplained(s, h, record) && ApprovalExplained(s, h, record) && PlanExplained(s, h, record)
  }

  lemma {:induction false} OnlyReviewsReview(s: State, c: Command)
    ensures !(c.Review? && Step(s, c).1 == Done) ==> Step(s, c).0.record.review == s.record.review
    ensures c.Review? && Step(s, c).1 == Done ==>
              && s.Own() in s.files
              && Step(s, c).0.record.review == Some(ReviewRecord(c.ready, HashOf(s.files[s.Own()].spec), s.files[s.Own()].mtime))
  {
  }

  lemma {:induction false} ReviewKept(s: State, h: seq<Command>)
    requires h != [] && ReviewExplained(s, h[..|h| - 1], After(s, h[..|h| - 1]).record)
    ensures ReviewExplained(s, h, After(s, h).record)
  {
    var front := h[..|h| - 1];
    SamePlace(s, front);
    OnlyReviewsReview(After(s, front), h[|h| - 1]);
    var r := Latest(s, front, Reviewing);
    if r >= 0 {
      AtFront(s, h, r);
    }
  }

  lemma {:induction false} NewApproval(s: State, h: seq<Command>)
    requires h != [] && DoneAt(s, h, |h| - 1, ApprovingSpec)
    requires ReviewExplained(s, h[..|h| - 1], After(s, h[..|h| - 1]).record)
    ensures ApprovalExplained(s, h, After(s, h).record)
  {
    var front := h[..|h| - 1];
    SamePlace(s, front);
    var r := Latest(s, front, Reviewing);
    if r >= 0 {
      AtFront(s, h, r);
      assert front[r] == h[r];
    }
  }

  lemma {:induction false} ReviewedKept(s: State, h: seq<Command>, a: nat)
    requires a < |h| && ReviewedBefore(s, h[..|h| - 1], a)
    ensures ReviewedBefore(s, h, a)
  {
    var front := h[..|h| - 1];
    AtFront(s, h, a);
    var r := Latest(s, front[..a], Reviewing);
    AtFront(s, h, r);
    assert front[r] == h[r];
  }

  lemma {:induction false} OnlyApprovalsApprove(s: State, c: Command)
    requires !(c.SpecApprove? && Step(s, c).1 == Done)
    ensures Step(s, c).0.record.approval == s.record.approval
  {
  }

  lemma {:induction false} OldApproval(s: State, h: seq<Command>)
    requires h != [] && !DoneAt(s, h, |h| - 1, ApprovingSpec)
    requires ApprovalExplained(s, h[..|h| - 1], After(s, h[..|h| - 1]).record)
    ensures ApprovalExplained(s, h, After(s, h).record)
  {
    var front := h[..|h| - 1];
    var a := Latest(s, front, ApprovingSpec);
    OnlyApprovalsApprove(After(s, front), h[|h| - 1]);
    if a >= 0 {
      AtFront(s, h, a);
      ReviewedKept(s, h, a);
    }
  }

  lemma {:induction false} ApprovalStep(s: State, h: seq<Command>)
    requires h != [] && Explained(s, h[..|h| - 1])
    ensures ApprovalExplained(s, h, After(s, h).record)
  {
    if DoneAt(s, h, |h| - 1, ApprovingSpec) {
      NewApproval(s, h);
    } else {
      OldApproval(s, h);
    }
  }

  /** What a command does to the recorded plan approval. */
  lemma {:induction false} OnlyPlansPlan(s: State, c: Command)
    ensures
      var t := Step(s, c).0;
      if c.MakePlan? && Step(s, c).1 == Done then t.record.planApproval == None
      else if c.PlanApprove? && Step(s, c).1 == Done then
        && SpecApproved(s, s.Own()) && s.plan.Some? && t.record.planApproval.Some?
        && t.record.planApproval.value.spec == CurrentSpec(s, s.Own()) && t.record.planApproval.value.plan == PlanHash(s)
      else t.record.planApproval == s.record.planApproval
  {
  }

  lemma {:induction false} PlanStep(s: State, h: seq<Command>)
    requires h != [] && PlanExplained(s, h[..|h| - 1], After(s, h[..|h| - 1]).record)
    ensures PlanExplained(s, h, After(s, h).record)
  {
    var front := h[..|h| - 1];
    SamePlace(s, front);
    OnlyPlansPlan(After(s, front), h[|h| - 1]);
    var b := Latest(s, front, ApprovingPlan);
    if b >= 0 {
      AtFront(s, h, b);
    }
  }

  lemma {:induction false} RecordExplained(s: State, h: seq<Command>)
    requires s.record == NO_RECORD
    ensures Explained(s, h)
  {
    if h != [] {
      RecordExplained(s, h[..|h| - 1]);
      ReviewKept(s, h);
      ApprovalStep(s, h);
      PlanStep(s, h);
    }
  }

  /** Approval history. Whenever the gate is open for a spec file, however the files were edited before,
      there is a latest spec approval `a`, and that file is byte for byte what it made of the feature's
      own spec: the bytes that the latest review before `a` found ready, with the status set to approved.
      And there is a latest plan approval `b`, no re-plan came after it, and that file and the plan are
      the bytes that it saw of the own spec and of the plan, under a spec approval that was current. */
  lemma {:induction false} GateHistory(s: State, h: seq<Command>, path: string)
    requires s.record == NO_RECORD && GateOpen(After(s, h), path)
    ensures
      var t, a, b := After(s, h), Latest(s, h, ApprovingSpec), Latest(s, h, ApprovingPlan);
      && a >= 0 && ReviewedBefore(s, h, a) && t.SpecAt(path) == Some(WithStatus(OwnAt(s, h, a).value, "approved"))
      && Normalized(t.SpecAt(path).value.status) == "approved"
      && b >= 0 && Latest(s, h, Planning) < b
      && t.SpecAt(path) == OwnAt(s, h, b) && t.plan == At(s, h, b).plan && SpecApproved(At(s, h, b), s.Own())
  {
    RecordExplained(s, h);
    ApprovedNormal();
  }

  /** A slice that starts, with or without the policy hook, starts on the bytes of the latest plan
      approval, made since the last re-plan and under a spec approval that was current: on its plan, and
      on a spec file, the one that the plan names, with the bytes that the own spec had then. With the
      hook the gate is open for that file. */
  lemma {:induction false} StartedOnApprovedPlan(s: State, h: seq<Command>, slice: string, policy: bool)
    requires s.record == NO_RECORD && Step(After(s, h), SliceStart(slice, policy, true)).1 == Done
    ensures
      var t, b := After(s, h), Latest(s, h, ApprovingPlan);
      && b >= 0 && Latest(s, h, Planning) < b && SpecApproved(At(s, h, b), s.Own())
      && t.SpecAt(t.Named()) == OwnAt(s, h, b) && t.plan == At(s, h, b).plan
      && (policy ==> GateOpen(t, t.Named()))
  {
    RecordExplained(s, h);
  }

  // ---- the spec that the plan names ----

  predicate WritesOwnPath(s: State) {
    s.plan.Some? && s.plan.value.specPath == Some(s.name)
  }

  lemma {:induction false} PathStays(s: State, c: Command)
    requires (WritesOwnPath(s) && !c.EditPlan?) || (c.MakePlan? && Step(s, c).1 == Done)
    ensures WritesOwnPath(Step(s, c).0)
  {
  }

  /** The plan that the tool makes names the feature's own spec, until someone edits it. */
  lemma {:induction false} PlanNamesOwn(s: State, h: seq<Command>)
    requires Latest(s, h, Planning) >= 0
    requires forall m | Latest(s, h, Planning) < m < |h| :: !h[m].EditPlan?
    ensures WritesOwnPath(After(s, h)) && After(s, h).Named() == s.Own()
  {
    var front := h[..|h| - 1];
    SamePlace(s, h);
    if !DoneAt(s, h, |h| - 1, Planning) {
      forall m | Latest(s, front, Planning) < m < |front| ensures !front[m].EditPlan? {
        assert front[m] == h[m];
      }
      PlanNamesOwn(s, front);
    }
    PathStays(After(s, front), h[|h| - 1]);
  }

  /** When a slice starts, the gate is open for the feature's own spec exactly if the plan names it or
      names a file with the same bytes. It does as long as nobody edits the plan that the tool made. */
  lemma {:induction false} OwnCovered(s: State, h: seq<Command>, slice: string)
    requires Step(After(s, h), SliceStart(slice, true, true)).1 == Done
    ensures
      var t := After(s, h);
      && (SpecApproved(t, s.Own()) <==> t.Named() == s.Own() || t.SpecAt(t.Named()) == t.SpecAt(s.Own()))
      && (GateOpen(t, s.Own()) <==> SpecApproved(t, s.Own()))
    ensures Latest(s, h, Planning) >= 0 && (forall m | Latest(s, h, Planning) < m < |h| :: !h[m].EditPlan?) ==> GateOpen(After(s, h), s.Own())
  {
    if Latest(s, h, Planning) >= 0 && (forall m | Latest(s, h, Planning) < m < |h| :: !h[m].EditPlan?) {
      PlanNamesOwn(s, h);
    }
  }

  /** With an edited plan it may start although the own spec has changed: the plan names a copy of the
      approved spec, the plan approval records the hash of the own spec, and then that one is edited. */
  function CopyHistory(s: State, copy: string, approved: Spec, plan: Plan, changed: File): seq<Command> {
    [Review(true), SpecApprove("me", true, 1), EditSpec(s.resolve(copy), Some(File(approved, 1))), EditPlan(Some(plan)),
     PlanApprove("me"), EditSpec(s.Own(), Some(changed))]
  }

  lemma {:induction false} AfterSnoc(s: State, h: seq<Command>, c: Command)
    ensures After(s, h + [c]) == Step(After(s, h), c).0
  {
    assert (h + [c])[..|h|] == h;
  }

  lemma {:induction false} AfterSix(s: State, a: Command, b: Command, c: Command, d: Command, e: Command, f: Command)
    ensures After(s, [a, b, c, d, e, f]) == Step(Step(Step(Step(Step(Step(s, a).0, b).0, c).0, d).0, e).0, f).0
  {
    AfterFour(s, a, b, c, d);
    AfterSnoc(s, [a, b, c, d], e);
    AfterSnoc(s, [a, b, c, d, e], f);
    assert [a, b, c, d] + [e] == [a, b, c, d, e] && [a, b, c, d, e] + [f] == [a, b, c, d, e, f];
  }

  /** This happens from any state, for any other file, any plan that names it and any new text. */
  lemma {:induction false} CopyStarts(s: State, copy: string, plan: Plan, changed: File, slice: string)
    requires s.Own() in s.files && s.resolve(copy) != s.Own() && plan.specPath == Some(copy) && HasSlice(Some(plan), slice)
    requires changed.spec != WithStatus(s.files[s.Own()].spec, "approved")
    ensures
      var approved := WithStatus(s.files[s.Own()].spec, "approved");
      var t := After(s, CopyHistory(s, copy, approved, plan, changed));
      && Step(t, SliceStart(slice, true, true)).1 == Done
      && t.SpecAt(t.Own()) == Some(changed.spec) && !SpecApproved(t, t.Own())
  {
    var approved := WithStatus(s.files[s.Own()].spec, "approved");
    var path := s.resolve(copy);
    AfterSix(s, Review(true), SpecApprove("me", true, 1), EditSpec(path, Some(File(approved, 1))), EditPlan(Some(plan)),
             PlanApprove("me"), EditSpec(s.Own(), Some(changed)));
    var t1 := Step(Step(s, Review(true)).0, SpecApprove("me", true, 1)).0;
    assert t1.SpecAt(t1.Own()) == Some(approved) && SpecHash(t1.record) == HashOf(approved) && t1.resolve == s.resolve;
    var t2 := Step(Step(t1, EditSpec(path, Some(File(approved, 1)))).0, EditPlan(Some(plan))).0;
    assert SpecApproved(t2, t2.Own()) && t2.Named() == path;
    var t3 := Step(t2, PlanApprove("me")).0;
    assert GateOpen(t3, path);
    var t4 := Step(t3, EditSpec(s.Own(), Some(changed))).0;
    assert GateOpen(t4, path) && t4.plan == Some(plan);
  }

  lemma {:induction false} ApprovedNormal()
    ensures Normalized(Some("approved")) == "approved"
  {
  }

  lemma {:induction false} AfterFour(s: State, a: Command, b: Command, c: Command, d: Command)
    ensures After(s, [a, b, c, d]) == Step(Step(Step(Step(s, a).0, b).0, c).0, d).0
  {
    assert [a, b, c, d][..3] == [a, b, c] && [a, b, c][..2] == [a, b] && [a, b][..1] == [a] && [a][..0] == [];
    assert After(s, [a]) == Step(s, a).0;
    assert After(s, [a, b]) == Step(After(s, [a]), b).0;
    assert After(s, [a, b, c]) == Step(After(s, [a, b]), c).0;
  }

  lemma {:induction false} ReviewedApproves(s: State, approver: string, mtime: int)
    requires approver != "" && s.Own() in s.files
    ensures
      var t := Step(Step(s, Review(true)).0, SpecApprove(approver, true, mtime)).0;
      t.Own() == s.Own() && SpecApproved(t, t.Own()) && Normalized(t.files[t.Own()].spec.status) == "approved"
  {
    ApprovedNormal();
  }

  lemma {:induction false} PlannedApproves(t: State, approver: string, slices: seq<Entry>, rest: string)
    requires approver != "" && SpecApproved(t, t.Own()) && Normalized(t.files[t.Own()].spec.status) == "approved"
    ensures
      var e := Step(Step(t, MakePlan(true, slices, rest)).0, PlanApprove(approver)).0;
      GateOpen(e, t.Own()) && e.Named() == t.Own()
  {
  }

  /** If and only if there is a spec, a review that finds it ready, its approval, a plan and its approval
      open the gate, whatever was recorded before, and the plan names that spec. */
  lemma {:induction false} GateOpens(s: State, approver: string, mtime: int, slices: seq<Entry>, rest: string)
    requires approver != ""
    ensures
      var t := After(s, [Review(true), SpecApprove(approver, true, mtime), MakePlan(true, slices, rest), PlanApprove(approver)]);
      && (GateOpen(t, s.Own()) <==> s.Own() in s.files)
      && (s.Own() in s.files ==> t.Named() == s.Own())
  {
    AfterFour(s, Review(true), SpecApprove(approver, true, mtime), MakePlan(true, slices, rest), PlanApprove(approver));
    if s.Own() in s.files {
      ReviewedApproves(s, approver, mtime);
      PlannedApproves(Step(Step(s, Review(true)).0, SpecApprove(approver, true, mtime)).0, approver, slices, rest);
    }
  }

  // ---- edits close the gate ----

  /** No command from `i` on is a spec approval, a re-plan or a plan approval that succeeded. */
  ghost predicate NoDecisionFrom(s: State, h: seq<Command>, i: nat) {
    forall m, k | i <= m < |h| && k != Reviewing :: !DoneAt(s, h, m, k)
  }

  lemma {:induction false} ApprovalsKept(s: State, h: seq<Command>, i: nat)
    requires i <= |h| && NoDecisionFrom(s, h, i)
    ensures After(s, h).record.approval == At(s, h, i).record.approval
    ensures After(s, h).record.planApproval == At(s, h, i).record.planApproval
    decreases |h|
  {
    if i == |h| {
      assert h[..i] == h;
    } else {
      var front := h[..|h| - 1];
      forall m, k | i <= m < |front| && k != Reviewing ensures !DoneAt(s, front, m, k) {
        assert front[..m] == h[..m] && front[m] == h[m] && !DoneAt(s, h, m, k);
      }
      ApprovalsKept(s, front, i);
      assert front[..i] == h[..i];
      assert !DoneAt(s, h, |h| - 1, ApprovingSpec) && !DoneAt(s, h, |h| - 1, Planning) && !DoneAt(s, h, |h| - 1, ApprovingPlan);
    }
  }

  /** From a point where the gate is open for a file, and as long as nothing is approved or re-planned, the
      gate is open for a file exactly when that file and the plan have the bytes of then: any differing
      edit closes it, and putting the bytes back opens it again, whatever the modification times. */
  lemma {:induction false} GateBetween(s: State, h: seq<Command>, i: nat, path: string, now: string)
    requires i <= |h| && GateOpen(At(s, h, i), path) && NoDecisionFrom(s, h, i)
    ensures GateOpen(After(s, h), now) <==> After(s, h).SpecAt(now) == At(s, h, i).SpecAt(path) && After(s, h).plan == At(s, h, i).plan
  {
    ApprovalsKept(s, h, i);
  }

  /** Verifying a slice keeps an open gate open exactly when it leaves the plan file as it is: when the plan
      names no spec and the command is refused, when no slice has that stripped name, or when the file has
      the tool's layout and the first such slice already carries this result and report. Otherwise the
      plan has to be approved again. */
  lemma {:induction false} VerifyClosesGate(s: State, path: string, slice: string, passed: bool, report: string)
    requires GateOpen(s, path) && HasSlice(s.plan, slice)
    ensures
      var plan, t := s.plan.value, Step(s, SliceVerify(slice, passed, report)).0;
      var i := FirstMatch(plan.slices, slice);
      && (GateOpen(t, path) <==> t.plan == s.plan)
      && (GateOpen(t, path) <==>
            !NamesSpec(s) || i == |plan.slices| || (plan.layout == None && plan.slices[i] == Verified(plan.slices[i], passed, report)))
  {
    var plan := s.plan.value;
    var i := FirstMatch(plan.slices, slice);
    if i < |plan.slices| {
      var slices' := plan.slices[i := Verified(plan.slices[i], passed, report)];
      assert slices'[i] == Verified(plan.slices[i], passed, report);
      assert slices' == plan.slices <==> plan.slices[i] == Verified(plan.slices[i], passed, report);
    }
  }
}
