/** The policy check of a feature: which approvals a stage needs, and why it is blocked. */
module Policy {
  import opened Wrappers
  import opened ApprovalGate
  import opened Text
  import SlicePlan

  datatype Stage = PlanStage | SliceStartStage | WorkflowRunStage | ReleaseStage

  datatype Check = Check(name: string, required: bool, passed: bool, reasons: seq<string>, action: string)
  {
    predicate Blocking() { required && !passed }
  }

  /** The two exceptions, or a verdict. */
  datatype Answer = BadStage | MissingSpec | Answered(verdict: Verdict)

  datatype Verdict = Verdict(stage: Stage, allowed: bool, checks: seq<Check>, blockedReasons: seq<string>, nextActions: seq<string>)

  /** `stage.strip().replace("_", "-")`, looked up in the table of requirements. */
  function NormalizeStage(stage: string): Option<Stage> {
    match Dashed(SlicePlan.Strip(stage))
    case "plan" => Some(PlanStage)
    case "slice-start" => Some(SliceStartStage)
    case "workflow-run" => Some(WorkflowRunStage)
    case "release" => Some(ReleaseStage)
    case _ => None
  }

  function Dashed(s: string): string {
    seq(|s|, i requires 0 <= i < |s| => if s[i] == '_' then '-' else s[i])
  }

  lemma {:induction false} DashedIs(s: string, t: string)
    requires '_' !in t
    ensures Dashed(s) == t <==> |s| == |t| && forall i | 0 <= i < |s| :: s[i] == t[i] || (s[i] == '_' && t[i] == '-')
  {
    if |s| == |t| && forall i | 0 <= i < |s| :: s[i] == t[i] || (s[i] == '_' && t[i] == '-') {
      forall i | 0 <= i < |t| ensures Dashed(s)[i] == t[i] {
        assert t[i] in t;
      }
    }
  }

  lemma {:induction false} Undashed(s: string, t: string)
    requires '_' !in t && '-' !in t
    ensures Dashed(s) == t <==> s == t
  {
    DashedIs(s, t);
    if Dashed(s) == t {
      forall i | 0 <= i < |s| ensures s[i] == t[i] {
        assert t[i] in t;
      }
      assert s == t;
    }
  }

  /** The texts that mean a stage; any other is an error. */
  lemma {:induction false} StageExactly(stage: string)
    ensures
      var r, s := NormalizeStage(stage), SlicePlan.Strip(stage);
      && (r == Some(PlanStage) <==> s == "plan")
      && (r == Some(SliceStartStage) <==> s == "slice-start" || s == "slice_start")
      && (r == Some(WorkflowRunStage) <==> s == "workflow-run" || s == "workflow_run")
      && (r == Some(ReleaseStage) <==> s == "release")
  {
    var s := SlicePlan.Strip(stage);
    Undashed(s, "plan");
    Undashed(s, "release");
    TwoWords(s, "slice", "start");
    TwoWords(s, "workflow", "run");
    assert "slice" + ("-" + "start") == "slice-start" && "slice" + ("_" + "start") == "slice_start";
    assert "workflow" + ("-" + "run") == "workflow-run" && "workflow" + ("_" + "run") == "workflow_run";
  }

  lemma {:induction false} TwoWords(s: string, a: string, b: string)
    requires '_' !in a && '-' !in a && '_' !in b && '-' !in b
    ensures Dashed(s) == a + ("-" + b) <==> s == a + ("-" + b) || s == a + ("_" + b)
  {
    var t, u := a + ("-" + b), a + ("_" + b);
    forall i | 0 <= i < |t| && i != |a| ensures t[i] != '-' && t[i] != '_' {
      assert t[i] in a || t[i] in b;
    }
    DashedIs(s, t);
    if Dashed(s) == t {
      assert s[|a|] == '-' || s[|a|] == '_';
      if s[|a|] == '-' {
        assert s == t;
      } else {
        assert s == u;
      }
    }
    if s == t || s == u {
      assert forall i | 0 <= i < |s| :: s[i] == t[i] || (s[i] == '_' && t[i] == '-');
    }
  }

  const SPEC := "spec_approval"
  const PLAN := "plan_approval"

  function Requirements(stage: Stage): set<string> {
    if stage == PlanStage then {SPEC} else {SPEC, PLAN}
  }

  /** `invalid_reasons` of the spec. A changed modification time is reported but does not count. */
  function SpecReasons(s: State, path: string): seq<string>
    requires path in s.files
  {
    (if s.record.approval.None? then ["missing_approval"]
     else if SpecHash(s.record).NoHash? then ["missing_spec_hash"]
     else if SpecHash(s.record) != HashOf(s.files[path].spec) then ["spec_hash_changed"]
     else [])
    + (if s.record.approval.Some? && s.record.approval.value.mtime != 0 && s.record.approval.value.mtime != s.files[path].mtime
       then ["spec_mtime_changed"] else [])
  }

  /** `invalid_reasons` of the plan. */
  function PlanReasons(s: State, path: string): seq<string> {
    (if s.plan.None? then ["missing_plan"] else [])
    + (if s.record.planApproval.None? then ["missing_plan_approval"]
       else if s.record.planApproval.value.plan.NoHash? then ["missing_plan_hash"]
       else if s.record.planApproval.value.plan != PlanHash(s) then ["plan_hash_changed"]
       else [])
    + (if s.record.planApproval.Some? && s.record.planApproval.value.spec.NoHash? then ["missing_spec_hash"]
       else if s.record.planApproval.Some? && s.record.planApproval.value.spec != CurrentSpec(s, path) then ["spec_hash_changed"]
       else [])
  }

  /** The verdicts and their reasons agree: a plan is approved exactly when there is no reason against it,
      a spec exactly when there is none but a changed modification time. */
  lemma {:induction false} ReasonsExact(s: State, path: string)
    ensures PlanApproved(s, path) <==> PlanReasons(s, path) == []
    ensures path in s.files ==> (SpecApproved(s, path) <==> forall r | r in SpecReasons(s, path) :: r == "spec_mtime_changed")
    ensures path in s.files && !SpecApproved(s, path) ==> SpecReasons(s, path) != []
  {
    if path in s.files && !SpecApproved(s, path) {
      assert SpecReasons(s, path)[0] in SpecReasons(s, path);
    }
  }

  /** Which reasons are given against a spec that exists, and in which order. */
  lemma {:induction false} SpecReasonsExactly(s: State, path: string)
    requires path in s.files
    ensures
      var reasons, approval := SpecReasons(s, path), s.record.approval;
      && ("missing_approval" in reasons <==> approval == None)
      && ("missing_spec_hash" in reasons <==> approval.Some? && approval.value.hash == NoHash)
      && ("spec_hash_changed" in reasons <==> approval.Some? && approval.value.hash.HashOf? && approval.value.hash.content != s.files[path].spec)
      && ("spec_mtime_changed" in reasons <==> approval.Some? && approval.value.mtime != 0 && approval.value.mtime != s.files[path].mtime)
      && (forall i | 0 <= i < |reasons| :: reasons[i] in {"missing_approval", "missing_spec_hash", "spec_hash_changed", "spec_mtime_changed"})
      && (forall i | 0 <= i < |reasons| - 1 :: reasons[i] != "spec_mtime_changed") && NoDuplicates(reasons)
  {
    var approval := s.record.approval;
    var first := if approval.None? then ["missing_approval"] else if approval.value.hash.NoHash? then ["missing_spec_hash"]
                 else if approval.value.hash.content != s.files[path].spec then ["spec_hash_changed"] else [];
    assert SpecReasons(s, path) == first + if approval.Some? && approval.value.mtime != 0 && approval.value.mtime != s.files[path].mtime
                                           then ["spec_mtime_changed"] else [];
  }

  /** Which reasons are given against a plan, and in which order. */
  lemma {:induction false} PlanReasonsExactly(s: State, path: string)
    ensures
      var reasons, approval := PlanReasons(s, path), s.record.planApproval;
      var spec := if path in s.files then HashOf(s.files[path].spec) else NoHash;
      var plan := if s.plan.Some? then HashOf(s.plan.value) else NoHash;
      reasons ==
        (if s.plan == None then ["missing_plan"] else [])
        + (if approval == None then ["missing_plan_approval"]
           else
             (if approval.value.plan == NoHash then ["missing_plan_hash"] else if approval.value.plan != plan then ["plan_hash_changed"] else [])
             + (if approval.value.spec == NoHash then ["missing_spec_hash"] else if approval.value.spec != spec then ["spec_hash_changed"] else []))
  {
  }

  function Tagged(name: string, reasons: seq<string>): seq<string> {
    seq(|reasons|, i requires 0 <= i < |reasons| => name + ":" + reasons[i])
  }

  function ApproveSpec(slug: string): string {
    "python3 ./flow spec approve " + slug
  }

  function ApprovePlan(slug: string): string {
    "python3 ./flow plan-approve " + slug
  }

  lemma {:induction false} StripRightKeeps(s: string, i: nat)
    requires i < |s| && !SlicePlan.IsSpace(s[i])
    ensures i < |SlicePlan.StripRight(s)| && SlicePlan.StripRight(s)[i] == s[i]
    decreases |s|
  {
    if SlicePlan.IsSpace(s[|s| - 1]) {
      StripRightKeeps(s[..|s| - 1], i);
    }
  }

  /** Both actions survive stripping, and differ. */
  lemma {:induction false} ActionsDiffer(slug: string)
    ensures SlicePlan.Strip(ApproveSpec(slug)) != "" && SlicePlan.Strip(ApprovePlan(slug)) != ""
    ensures SlicePlan.Strip(ApproveSpec(slug)) != SlicePlan.Strip(ApprovePlan(slug))
  {
    var a, b := ApproveSpec(slug), ApprovePlan(slug);
    assert a[0] == 'p' && a[15] == 's' && b[0] == 'p' && b[15] == 'p';
    StripRightKeeps(a, 15);
    StripRightKeeps(b, 15);
  }

  /** What the verdict says for a stage, in terms of the two approvals. */
  ghost predicate Explains(s: State, path: string, slug: string, v: Verdict)
    requires path in s.files
  {
    var specBlocks := !SpecApproved(s, path);
    var planBlocks := v.stage != PlanStage && !PlanApproved(s, path);
    && v.allowed == !(specBlocks || planBlocks)
    && v.blockedReasons == (if specBlocks then Tagged("spec_approval", SpecReasons(s, path)) else [])
                           + (if planBlocks then Tagged("plan_approval", PlanReasons(s, path)) else [])
    && v.nextActions == (if specBlocks then [SlicePlan.Strip("python3 ./flow spec approve " + slug)] else [])
                        + (if planBlocks then [SlicePlan.Strip("python3 ./flow plan-approve " + slug)] else [])
    && v.checks == [Check("spec_approval", true, SpecApproved(s, path), SpecReasons(s, path),
                          if SpecApproved(s, path) then "" else "python3 ./flow spec approve " + slug),
                    Check("plan_approval", v.stage != PlanStage, PlanApproved(s, path), PlanReasons(s, path),
                          if PlanApproved(s, path) then "" else "python3 ./flow plan-approve " + slug)]
  }

  lemma {:induction false} TaggedMeaning(name: string, reasons: seq<string>)
    ensures |Tagged(name, reasons)| == |reasons| && forall i | 0 <= i < |reasons| :: Tagged(name, reasons)[i] == name + (":" + reasons[i])
  {
    forall i | 0 <= i < |reasons| ensures name + ":" + reasons[i] == name + (":" + reasons[i]) {
    }
  }

  /** The check of the spec file `path`; without such a file there is no verdict. */
  method PolicyCheck(stage: string, slug: string, s: State, path: string) returns (a: Answer)
    ensures a.BadStage? <==> NormalizeStage(stage).None?
    ensures a.MissingSpec? <==> NormalizeStage(stage).Some? && path !in s.files
    ensures a.Answered? ==> a.verdict.stage == NormalizeStage(stage).value && Explains(s, path, slug, a.verdict)
    ensures a.Answered? ==> (a.verdict.blockedReasons == [] <==> a.verdict.allowed)
    ensures a.Answered? && a.verdict.stage != PlanStage ==> (a.verdict.allowed <==> GateOpen(s, path))
  {
    var normalized := NormalizeStage(stage);
    if normalized.None? {
      return BadStage;
    }
    if path !in s.files {
      return MissingSpec;
    }
    var requirements := Requirements(normalized.value);
    var specAction := if SpecApproved(s, path) then "" else ApproveSpec(slug);
    var planAction := if PlanApproved(s, path) then "" else ApprovePlan(slug);
    var checks := [Check(SPEC, SPEC in requirements, SpecApproved(s, path), SpecReasons(s, path), specAction),
                   Check(PLAN, PLAN in requirements, PlanApproved(s, path), PlanReasons(s, path), planAction)];
    var reasons, actions := Collect(checks);
    ReasonsExact(s, path);
    ActionsDiffer(slug);
    CollectedTwo(checks[0], checks[1]);
    a := Answered(Verdict(normalized.value, !checks[0].Blocking() && !checks[1].Blocking(), checks, reasons, actions));
  }

  /** The reasons and the distinct actions of the blocking checks, in order. */
  function Collected(checks: seq<Check>): (r: (seq<string>, seq<string>)) {
    if checks == [] then ([], [])
    else
      var (reasons, actions) := Collected(checks[..|checks| - 1]);
      var c := checks[|checks| - 1];
      if !c.Blocking() then (reasons, actions)
      else
        (reasons + Tagged(c.name, c.reasons),
         if SlicePlan.Strip(c.action) != "" && SlicePlan.Strip(c.action) !in actions then actions + [SlicePlan.Strip(c.action)] else actions)
  }

  method Collect(checks: seq<Check>) returns (reasons: seq<string>, actions: seq<string>)
    ensures (reasons, actions) == Collected(checks)
  {
    reasons, actions := [], [];
    for i := 0 to |checks|
      invariant (reasons, actions) == Collected(checks[..i])
    {
      assert checks[..i + 1][..i] == checks[..i];
      var c := checks[i];
      if c.Blocking() {
        ghost var before := reasons;
        for k := 0 to |c.reasons|
          invariant reasons == before + Tagged(c.name, c.reasons)[..k]
        {
          assert Tagged(c.name, c.reasons)[..k + 1] == Tagged(c.name, c.reasons)[..k] + [c.name + ":" + c.reasons[k]];
          reasons := reasons + [c.name + ":" + c.reasons[k]];
        }
        assert Tagged(c.name, c.reasons)[..|c.reasons|] == Tagged(c.name, c.reasons);
        var action := SlicePlan.Strip(c.action);
        if action != "" && action !in actions {
          actions := actions + [action];
        }
      }
    }
    assert checks[..|checks|] == checks;
  }

  lemma {:induction false} CollectedTwo(a: Check, b: Check)
    ensures
      var (reasons, actions) := Collected([a, b]);
      var x, y := SlicePlan.Strip(a.action), SlicePlan.Strip(b.action);
      && reasons == (if a.Blocking() then Tagged(a.name, a.reasons) else []) + (if b.Blocking() then Tagged(b.name, b.reasons) else [])
      && (x != "" && y != "" && x != y ==>
            actions == (if a.Blocking() then [x] else []) + (if b.Blocking() then [y] else []))
      && (x == "" && !a.Blocking() && y != "" ==> actions == if b.Blocking() then [y] else [])
      && (y == "" && !b.Blocking() && x != "" ==> actions == if a.Blocking() then [x] else [])
      && (!a.Blocking() && !b.Blocking() ==> actions == [])
  {
    assert [a, b][..1] == [a] && [a][..0] == [];
    assert Collected([]) == ([], []);
    assert Collected([a]) == if a.Blocking() then ([] + Tagged(a.name, a.reasons), if SlicePlan.Strip(a.action) != "" then [] + [SlicePlan.Strip(a.action)] else []) else ([], []);
  }
}
