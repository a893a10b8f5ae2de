/** The commands of one feature as methods on its files and its state record. Each method is one step of
    ApprovalGate. */
module FeatureWorkspace {
  import opened Wrappers
  import opened ApprovalGate
  import SlicePlan

  class Workspace {
    const resolve: string -> string
    const name: string
    var files: map<string, File>
    var plan: Option<ApprovalGate.Plan>
    var record: Record

    function Now(): State
      reads this
    {
      State(resolve, name, files, plan, record)
    }

    constructor (resolve: string -> string, name: string, files: map<string, File>, plan: Option<ApprovalGate.Plan>)
      ensures Now() == State(resolve, name, files, plan, NO_RECORD)
    {
      this.resolve, this.name, this.files, this.plan, record := resolve, name, files, plan, NO_RECORD;
    }

    /** `resolve_spec` */
    method OwnFile() returns (own: Option<File>)
      ensures own == if Now().Own() in files then Some(files[Now().Own()]) else None
    {
      own := if resolve(name) in files then Some(files[resolve(name)]) else None;
    }

    method SpecReview(ready: bool) returns (r: Outcome)
      modifies this`record
      ensures (Now(), r) == Step(old(Now()), Review(ready))
    {
      var own := OwnFile();
      if own.None? {
        return Refused(NoSpec);
      }
      record := record.(status := "reviewing-spec", review := Some(ReviewRecord(ready, HashOf(own.value.spec), own.value.mtime)));
      r := Done;
    }

    /** The new modification time is that of the rewritten file. */
    method ApproveSpec(approver: string, sound: bool, rewritten: int) returns (r: Outcome)
      modifies this`files, this`record
      ensures (Now(), r) == Step(old(Now()), SpecApprove(approver, sound, rewritten))
    {
      var own := OwnFile();
      if own.None? {
        return Refused(NoSpec);
      }
      if record.review.None? {
        return Refused(NoReview);
      }
      var spec, review := own.value.spec, record.review.value;
      if !review.ready {
        return Refused(NotReady);
      }
      if review.mtime != own.value.mtime {
        return Refused(ChangedSinceReview);
      }
      if approver == "" {
        return Refused(NoApprover);
      }
      if review.hash != NoHash && review.hash != HashOf(spec) {
        return Refused(ChangedSinceReview);
      }
      if !sound {
        return Refused(NotSound);
      }
      var approved := WithStatus(spec, "approved");
      files := files[resolve(name) := File(approved, rewritten)];
      record := record.(status := "approved-spec", approval := Some(SpecApproval(approver, HashOf(spec), HashOf(approved), rewritten)));
      r := Done;
    }

    method PlanFeature(valid: bool, slices: seq<Entry>, rest: string) returns (r: Outcome)
      modifies this`plan, this`record
      ensures (Now(), r) == Step(old(Now()), MakePlan(valid, slices, rest))
    {
      var own := OwnFile();
      if own.None? {
        return Refused(NoSpec);
      }
      var status := Normalized(own.value.spec.status);
      if status == "released" {
        return Refused(AlreadyReleased);
      }
      if status != "approved" {
        return Refused(NotApproved);
      }
      if !valid {
        return Refused(InvalidPlan);
      }
      plan := Some(Plan(None, Some(name), slices, rest));
      var previous := record.planApproval;
      record := record.(status := "planned");
      if previous.Some? {
        record := record.(previousPlanApproval := previous);
        record := record.(planApproval := None);
      }
      r := Done;
    }

    method ApprovePlan(approver: string) returns (r: Outcome)
      modifies this`record
      ensures (Now(), r) == Step(old(Now()), PlanApprove(approver))
    {
      var own := OwnFile();
      if own.None? {
        return Refused(NoSpec);
      }
      if plan.None? {
        return Refused(NoPlan);
      }
      if !SpecApproved(Now(), resolve(name)) {
        return Refused(NotApproved);
      }
      if approver == "" {
        return Refused(NoApprover);
      }
      var approval := PlanApproval(approver, HashOf(own.value.spec), HashOf(plan.value));
      record := record.(status := "plan-approved", planApproval := Some(approval));
      r := Done;
    }

    /** `load_plan_and_slice` compares names as they are; the status update strips them. */
    method FindSlice(slice: string) returns (found: bool)
      requires plan.Some?
      ensures found == HasSlice(plan, slice)
    {
      var slices := plan.value.slices;
      for i := 0 to |slices|
        invariant forall k | 0 <= k < i :: !(slices[k].Slice? && slices[k].name == slice)
      {
        if slices[i].Slice? && slices[i].name == slice {
          return true;
        }
      }
      found := false;
    }

    method StartSlice(slice: string, policy: bool, worktree: bool) returns (r: Outcome)
      modifies this`record
      ensures (Now(), r) == Step(old(Now()), SliceStart(slice, policy, worktree))
    {
      if plan.None? {
        return Refused(NoPlan);
      }
      var found := FindSlice(slice);
      if !found {
        return Refused(NoSlice);
      }
      var named := Now().Named();
      if policy && named !in files {
        return Refused(NoSpec);
      }
      var open := if policy then GateOpen(Now(), named) else PlanApproved(Now(), named);
      if !open {
        return Refused(GateClosed);
      }
      if !worktree {
        return Refused(NoWorktree);
      }
      record := record.(status := "slice-started");
      r := Done;
    }

    method VerifySlice(slice: string, passed: bool, report: string) returns (r: Outcome)
      modifies this`plan, this`record
      ensures (Now(), r) == Step(old(Now()), SliceVerify(slice, passed, report))
    {
      if plan.None? {
        return Refused(NoPlan);
      }
      var found := FindSlice(slice);
      if !found {
        return Refused(NoSlice);
      }
      if plan.value.specPath.None? || Now().Named() !in files {
        return Refused(NoSpec);
      }
      record := record.(status := if passed then "in-review" else "implementing");
      UpdatePlanSliceStatus(slice, passed, report);
      r := Done;
    }

    /** The first slice with that stripped name is updated and the file rewritten; without one the file
        is left alone. */
    method UpdatePlanSliceStatus(slice: string, passed: bool, report: string)
      requires plan.Some?
      modifies this`plan
      ensures plan == Some(Updated(old(plan).value, slice, passed, report))
    {
      var slices := plan.value.slices;
      var i := 0;
      while i < |slices| && !(slices[i].Slice? && SlicePlan.Strip(slices[i].name) == slice)
        invariant i <= |slices|
        invariant forall k | 0 <= k < i :: !Matches(slices[k], slice)
      {
        i := i + 1;
      }
      FirstMatchUnique(slices, slice, i);
      if i < |slices| {
        plan := Some(Plan(None, plan.value.specPath, slices[i := Verified(slices[i], passed, report)], plan.value.rest));
      }
    }
  }

  lemma {:induction false} FirstMatchUnique(slices: seq<Entry>, slice: string, i: nat)
    requires i <= |slices| && (forall k | 0 <= k < i :: !Matches(slices[k], slice))
    requires i < |slices| ==> Matches(slices[i], slice)
    ensures FirstMatch(slices, slice) == i
  {
    if slices != [] && i > 0 {
      forall k | 0 <= k < i - 1 ensures !Matches(slices[1..][k], slice) {
        assert slices[1..][k] == slices[k + 1];
      }
      FirstMatchUnique(slices[1..], slice, i - 1);
    }
  }
}
