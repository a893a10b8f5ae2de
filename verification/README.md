# SoftOS flowctl in Dafny

A Dafny 4.11 model of the parts of `flowctl` that decide what runs, when, and on whose authority:
the slice scheduler and its locks, the human approval gate, the ACP client session with its
command-line fallback, and the selection of independent reviewers. `dafny verify dfyconfig.toml`
checks everything.

## The modules

- `Wrappers`, `Text`, `IsoTime`: optional values; strings in code-point order; the printed timestamps of the lock database and
  their calendar.
- `LockStore`, `LockBackend`, `SharedLocks`: the lease protocol of the SQLite lock backend. `LockStore`
  gives each operation as a function on a table of rows and an event log and proves the laws of whole
  histories. `LockBackend` is the backend as a class whose methods are those functions.
- `SlicePlan`: how a plan file becomes jobs and lock requests.
- `JobPhases`: what happens to the status of each slice, with capacities, locks and timing abstracted
  away; schedule independence and the outcome equations are proved here.
- `SchedulerCore`, `LocalLocks`, `SchedulerRuns`: the state of the scheduler as values, its moves, its
  invariant, and whole runs with the in-memory lock table.
- `Scheduler`: `run_slice_scheduler` as a class. Without a backend every method is a move of
  `SchedulerRuns`, and `Run` is the whole loop with its termination. With a backend `TickGlobal` is one
  pass of the loop.
- `Cluster`: any number of scheduler runs over one lock store, interleaved store operation by store
  operation, halted anywhere, with slices that outlive their loop, and resumed.
- `Contention`: one attempt of a slice to start in a cluster; exactly when it succeeds, exactly when two
  slices execute together, and how the leases of a halted run are taken over.
- `RunPaths`: the share of one run in a cluster history. Each method of `Scheduler` that uses the backend
  states which path of its run it is, so the results of `Cluster` are about that class.
- `ApprovalGate`, `FeatureWorkspace`, `Policy`: spec files and the plan file, the state record, the commands that
  change them, and the policy check.
- `AcpSession`, `AcpTransport`, `AgentRun`: the ACP session as a state machine over decoded messages, the
  client as a class, and the choice of transport.
- `ReviewerSelection`: filtering, ordering, regrouping and the recomputed exclusion reasons.

## What the proofs show about the code

- Two ended schedules agree even when the dependencies are cyclic; acyclicity is needed for ending, not
  for agreeing. `JobPhases.CyclicNeverEnds` and `SchedulerRuns.EndsOnlyIf` give the exact condition for
  ending: acyclic known dependencies, and capacities that admit every slice by itself.
- After a run took the locks of a slice at t0 with ttl d, another run that tries a slice at t1 leaves both
  executing exactly if the slices do not compete, or their owners (run id, feature, slice) are equal, or
  t0 + d <= t1, where a d below one counts as one (`Contention.TogetherExactly`). The run id defaults to the feature slug
  (`flowctl/multiagent.py:131`), so two runs of one feature without an explicit id share the owners of all
  their slices, and the store renews the lease for the second one.
- So mutual exclusion over whole histories (`Cluster.MutualExclusion`) asks for timely heartbeats and for
  runs without a common owner, and for nothing else: a resumed run may find its own leftover rows, and
  the slices of a halted run may go on. Once those have ended and their leases have lapsed, others take
  over (`Contention.Takeover`).
- A negative number of retries still gives every slice one attempt (`SchedulerRuns.Budget`).
- All-or-nothing acquisition does not need distinct request names: a second release of the same name is
  reported as missing and does not raise. It does need a slice that holds nothing yet.
- A whole-repo slice and a hot-area slice of one repo do not compete; `SlicePlan.CompeteExactly` lists
  exactly which slices do.
- Areas inferred from patterns are not stripped but the lock requests strip them, so two areas of one
  slice can collapse into one request name (`SlicePlan.RequestNamesDistinct`).
- A lock on a hot area is named by repo, colon and area, so area `b:c` of repo `a` and area `c` of repo
  `a:b` are one lock (`SlicePlan.CompeteExactly`).
- The gate looks at hashes only. A changed modification time is reported as a reason but never blocks,
  and putting the approved bytes back reopens the gate (`ApprovalGate.GateBetween`).
- Verifying a slice rewrites the plan file and thereby normally closes the gate;
  `ApprovalGate.VerifyClosesGate` says exactly when it stays open.
- `slice start` checks the spec file that the plan names (`flowctl/features.py:1003-1005`), not the
  feature's own spec. The plan that the tool makes names the own spec, but an edited one may name a copy,
  and then a slice starts although the own spec was changed after its approval
  (`ApprovalGate.CopyStarts`). `ApprovalGate.OwnCovered` says exactly when the own spec is covered: when
  the plan names it, or the named file has the same bytes.
- A slice started without the policy hook is checked against the plan approval alone
  (`ApprovalGate.StartedOnApprovedPlan`).
- The `allow_once` permission policy answers `allow-once` only if that is the first option that looks
  like an allowance (`AcpSession.AllowedExactly`).
- Review candidates and exclusions partition the resources exactly when the preferred chain
  repeats no eligible resource (`ReviewerSelection.Partition`).

## Model

| member | source | states |
|---|---|---|
| `Text.SortDistinct` | flowctl/multiagent.py:61-93 | sorting the set of a list gives a strictly ascending list of the same elements; `Text.AscendingUnique` says there is only one |
| `Text.AscendingUnique` | flowctl/multiagent.py:156 | two ascending lists with the same elements are equal, so the name order of the jobs is determined |
| `IsoTime.KnownDates` | flowctl/locks.py:396-400 | leap years, the day numbers of known dates and the last representable second are those of the Gregorian calendar |
| `IsoTime.NextDay` | flowctl/locks.py:396-400 | the day after a date, over month and year ends, has the next day number |
| `IsoTime.PrintLayout` | flowctl/locks.py:10-11 | the printed timestamp spells year, month, day, hour, minute and second at the places of ISO 8601, with the UTC offset |
| `IsoTime.TextOrder` | flowctl/locks.py:325-342 | comparing two printed whole-second UTC timestamps as text agrees with comparing their instants |
| `IsoTime.ParsePrint` | flowctl/locks.py:396-400 | parsing a printed timestamp gives the moment back |
| `IsoTime.FreshExpiry` | flowctl/locks.py:396-400 | a fresh expiry is exactly ttl seconds later for a ttl of at least one and one second later otherwise, as an instant and as text; it overflows exactly past the last representable instant |
| `LockStore.OwnershipStep` | flowctl/locks.py:75-288 | ownership of a lock is gained only by the owner's granted acquire and lost only by its release or by lapsing, a row changes only by its owner's own calls, and an operation that raises changes nothing |
| `LockStore.AcquireExact` | flowctl/locks.py:75-188 | the whole table, the whole log and the answer after an acquire that is granted, renewed, denied or overflows |
| `LockStore.BeatExact` | flowctl/locks.py:190-238 | the whole table and log after a heartbeat that succeeds |
| `LockStore.ReleaseExact` | flowctl/locks.py:240-279 | the whole table, log and answer after a release |
| `LockStore.SweepExact` | flowctl/locks.py:325-342 | a sweep takes away exactly the rows whose expiry has come and logs each for its owner |
| `LockStore.StepFaithful` | flowctl/locks.py:89-176 | every operation appends events that keep the log consistent with the table |
| `LockStore.LogReplay` | flowctl/locks.py:202-279 | after any sequence of operations, including ones that raise, folding the log rebuilds the table |
| `LockStore.LogReplayFromEmpty` | flowctl/locks.py:325-367 | from the empty database the folded log equals the lock names, owners, acquired_at and heartbeat_at of the table |
| `LockStore.HeldThroughout` | flowctl/locks.py:190-238 | an owner that holds a lock after calls among which it never acquired it held it throughout, on one grant |
| `LockStore.LeaseContinuity` | flowctl/locks.py:202-225 | between a grant and a later successful heartbeat of the same owner nobody else was granted the lock, whatever the clock did |
| `LockStore.HeartbeatExact` | flowctl/locks.py:200-225 | a heartbeat succeeds exactly for an unlapsed lease of its owner; otherwise it raises for the stated reason and the store, sweep included, is unchanged |
| `LockStore.LeaseWindow` | flowctl/locks.py:87-188 | with a clock that does not run back, after a grant or heartbeat at t with ttl d every acquire by another owner before t + d (t + 1 for d below one) is denied for the holder and the first one from then on is granted |
| `LockStore.RowsOrdered` | flowctl/locks.py:89-156 | every row keeps acquired_at <= heartbeat_at < expires_at |
| `LockBackend.GlobalLockBackend.Acquire` | flowctl/locks.py:75-188 | the method commits exactly the table, log and outcome of the specified acquire |
| `LockBackend.GlobalLockBackend.Heartbeat` | flowctl/locks.py:190-238 | the same for heartbeat, including both errors and their rollback |
| `LockBackend.GlobalLockBackend.Release` | flowctl/locks.py:240-279 | the same for release, which expires nothing first and reports a missing lock without raising |
| `LockBackend.GlobalLockBackend.ExpireStale` | flowctl/locks.py:281-288 | the sweep removes exactly the stale rows and returns each once |
| `LockBackend.GlobalLockBackend.ExpireStaleLocked` | flowctl/locks.py:325-342 | one deletion and one event per stale row, in the order the database returns them |
| `SlicePlan.ComputeHotAreas` | flowctl/multiagent.py:61-76 | declared areas, else the single explicit one, else areas inferred from patterns |
| `SlicePlan.HotAreasMeaning` | flowctl/multiagent.py:61-76 | exactly which hot areas a slice has |
| `SlicePlan.SplitJoins` | flowctl/multiagent.py:72 | splitting a pattern at its slashes loses nothing and leaves no slash in a part |
| `SlicePlan.ContainsMeaning` | flowctl/multiagent.py:87-91 | the hints for inferred locks are substrings of the target |
| `SlicePlan.StripMeaning` | flowctl/multiagent.py:134 | stripping takes the whitespace at both ends away and nothing else |
| `SlicePlan.StrippedInOrder` | flowctl/multiagent.py:62 | every entry that is not blank is kept, stripped, once and in its order |
| `SlicePlan.AreaMeaning` | flowctl/multiagent.py:69-76 | the area of a pattern is its first two parts between slashes and backslashes that are neither empty nor `**`, or the only one |
| `SlicePlan.ComputeSemanticLocks` | flowctl/multiagent.py:79-93 | declared locks, else those inferred from targets |
| `SlicePlan.SemanticLocksMeaning` | flowctl/multiagent.py:79-93 | exactly which semantic locks a slice has |
| `SlicePlan.BuildJobs` | flowctl/multiagent.py:132-153 | the jobs map built from the plan payload, whose jobs `JobNames` and `JobFields` describe |
| `SlicePlan.JobNames` | flowctl/multiagent.py:134-138 | a name is a job iff some slice has it after stripping, and unnamed slices are dropped |
| `SlicePlan.LastPayloadWins` | flowctl/multiagent.py:134-138 | a later slice of the same name replaces an earlier one |
| `SlicePlan.JobFields` | flowctl/multiagent.py:139-153 | every field of a job from the last plan entry of its name: the stripped repo, exactly the declared dependencies in order, which hot areas and semantic locks it has, and its targets |
| `SlicePlan.ComputeGlobalLockRequests` | flowctl/multiagent.py:104-118 | the requests of a job, in order |
| `SlicePlan.AsksMeaning` | flowctl/multiagent.py:104-118 | which lock names a job asks for |
| `SlicePlan.RequestsInOrder` | flowctl/multiagent.py:104-118 | the requests of a job one by one, with their scopes and the repo |
| `SlicePlan.CompeteExactly` | flowctl/multiagent.py:104-118 | two jobs ask for a common lock iff they share a semantic lock, are both whole-repo jobs of one repo, or have the same concatenation of repo, colon and area: repo `a` with area `b:c` and repo `a:b` with area `c` compete |
| `SlicePlan.RequestNamesDistinct` | flowctl/multiagent.py:104-118 | the request names of a job repeat iff its stripped locks or areas do |
| `JobPhases.TerminalKept` | flowctl/multiagent.py:293-321 | passed, failed and blocked are final, so passed parents stay passed |
| `JobPhases.HistoryJustified` | flowctl/multiagent.py:366-379 | at every point each status and attempt count is explained by the return codes and the parents |
| `JobPhases.Agreement` | flowctl/multiagent.py:293-338 | two histories with the same return codes give every slice that is finished in both the same status and attempt count |
| `JobPhases.ScheduleIndependence` | flowctl/multiagent.py:351-405 | any two histories that end, end in the same statuses and attempt counts |
| `JobPhases.EndedIsOutcome` | flowctl/multiagent.py:293-312 | an ended history solves the recursive outcome equations: blocked iff a known parent failed or is blocked, else passed iff an attempt up to the limit returns 0 |
| `JobPhases.OutcomeUnique` | flowctl/multiagent.py:293-338 | with acyclic known dependencies the outcome equations have one solution |
| `JobPhases.BlockedIffFailedAncestor` | flowctl/multiagent.py:293-312 | blocked iff some known ancestor failed |
| `JobPhases.BlockedReachesFailed` | flowctl/multiagent.py:293-312 | at every point every blocked slice has a dependency path to a failed one |
| `JobPhases.SomethingEnabled` | flowctl/multiagent.py:293-321 | with nothing running and something unfinished an acyclic plan has a slice to start or to block |
| `JobPhases.StepDecreases` | flowctl/multiagent.py:351-405 | every start, finish and block lowers a measure over attempts and phases |
| `JobPhases.CyclicNeverEnds` | flowctl/multiagent.py:316-321 | with a dependency cycle the run in which every attempt succeeds never ends |
| `SchedulerCore.BeginConsistent` | flowctl/multiagent.py:314-334 | starting a slice keeps exact counters within capacity, disjoint targets and exact totals |
| `SchedulerCore.FinalizeConsistent` | flowctl/multiagent.py:356-379 | finishing a slice keeps them |
| `SchedulerCore.FinalizeCounters` | flowctl/multiagent.py:361-364 | the counters that a finish lowers are at least one, so the clamps at zero never act |
| `SchedulerCore.PassConsistent` | flowctl/multiagent.py:380-383 | a blocking pass keeps the invariant and the totals |
| `SchedulerCore.OverlapMeaning` | flowctl/multiagent.py:154-160 | two slices overlap iff an owned target of each is the same nonempty text after stripping |
| `SchedulerCore.GateMeaning` | flowctl/multiagent.py:314-334 | in a consistent state the gate is open iff every declared dependency that is a slice has passed, fewer slices run in the repo and on each hot area than the capacities admit, and nothing that runs overlaps |
| `SchedulerCore.BlocksExactly` | flowctl/multiagent.py:293-312 | one pass blocks exactly the pending slices with a dependency that failed or was blocked before, or that the pass blocked earlier |
| `LocalLocks.AcquireExact` | flowctl/multiagent.py:228-250 | a slice that does not run gets its locks iff all are free, and the table stays exact either way |
| `LocalLocks.ReleaseExact` | flowctl/multiagent.py:265-268 | releasing removes exactly the locks of the slice |
| `LocalLocks.AcquireWrites` | flowctl/multiagent.py:228-250 | which rows and events an acquire writes, with every lease ending ttl seconds from now, or one denial for the first lock that is held |
| `LocalLocks.BeatWrites` | flowctl/multiagent.py:287-291 | a heartbeat ends the leases of running slices ttl seconds from now and touches nothing else |
| `LocalLocks.ExpiryUnreachable` | flowctl/multiagent.py:228-237 | for every clock reading and ttl the sweep removes nothing and logs nothing |
| `LocalLocks.ExactDisjoint` | flowctl/multiagent.py:238-250 | running slices have disjoint semantic locks |
| `LocalLocks.AcquiresMatchReleases` | flowctl/multiagent.py:174-183 | in a log that brackets, acquires and releases of each lock by each slice pair up, and no expiry occurs |
| `SchedulerRuns.ReachableState` | flowctl/multiagent.py:351-405 | in every reachable state the counters are exact and within capacity, running slices share no target, started slices have passed parents, totals, failed flag and dead-letter queue are exact, and blocked slices lead to failed ones |
| `SchedulerRuns.Budget` | flowctl/multiagent.py:371 | in every reachable state no slice has been tried more than maxRetries + 1 times (once for a negative number), and the dead letters are the failed slices, each once, with exactly that attempt |
| `SchedulerRuns.LocalBudget` | flowctl/multiagent.py:371 | the same for every run with the in-memory lock table |
| `SchedulerRuns.StartedFromPayloads` | flowctl/multiagent.py:314-321 | from the plan entries to any run: a slice that was ever started has passed every declared dependency that names a slice, and in an ended run one that failed or is blocked leaves it blocked and untried |
| `SchedulerRuns.SameOutcome` | flowctl/multiagent.py:293-405 | runs with the same return codes and retry budget agree, under any capacities, lock times, lock modes and interleavings, and an ended run gives each slice what dependencies, budget and codes decide |
| `SchedulerRuns.LocalLocksExact` | flowctl/multiagent.py:228-291 | in every reachable state the lock table is exactly the semantic locks of the running slices; with nothing running it is empty and every acquire is matched by a release |
| `SchedulerRuns.TimesIrrelevant` | flowctl/multiagent.py:287-291 | the same moves at other times and under another ttl give the same statuses, owners and lock events |
| `SchedulerRuns.TryOutcome` | flowctl/multiagent.py:314-338 | a pending slice that is tried starts exactly if the gate is open and its locks are free |
| `SchedulerRuns.NoDeadlock` | flowctl/multiagent.py:351-405 | whenever nothing runs and something is unfinished, the next pass blocks a slice or some slice starts as soon as it is tried |
| `SchedulerRuns.CompletedIffEnded` | flowctl/multiagent.py:351 | the loop condition says exactly that some slice is unfinished |
| `SchedulerRuns.LocalOutcome` | flowctl/multiagent.py:351-405 | every ended run in memory: blocked iff a declared dependency failed or is blocked, else passed iff one of maxRetries + 1 attempts returns 0, at the first that does, else failed after the last, with a dead letter that carries its code |
| `SchedulerRuns.EndsOnlyIf` | flowctl/multiagent.py:314-328 | if the run in which every attempt succeeds ends, the plan is acyclic and the capacities admit each slice |
| `Scheduler.OverlapPairs` | flowctl/multiagent.py:154-160 | the overlap graph is exactly the ordered pairs of slices that share a stripped owned target |
| `Scheduler.SliceScheduler.constructor` | flowctl/multiagent.py:131-172 | a fresh scheduler over the jobs of the plan; with a backend it is a fresh run of a cluster |
| `Scheduler.SliceScheduler.MarkDependencyBlocked` | flowctl/multiagent.py:293-312 | one pass in name order, in which a slice blocked earlier counts for later ones, and the number blocked |
| `Scheduler.SliceScheduler.PropagateFailures` | flowctl/multiagent.py:380-383 | the pass and the totals that follow it |
| `Scheduler.SliceScheduler.GateOpen` | flowctl/multiagent.py:314-334 | parents, repo capacity, hot-area capacities and overlaps, stated without the overlap graph |
| `Scheduler.SliceScheduler.BeatTable` | flowctl/multiagent.py:287-291 | the heartbeat renews exactly the leases of running slices |
| `Scheduler.SliceScheduler.SweepTable` | flowctl/multiagent.py:228-237 | lapsed leases of running slices are renewed, others removed and logged |
| `Scheduler.SliceScheduler.AcquireLocal` | flowctl/multiagent.py:228-250 | sweep, then all the locks or a logged denial for the first held one |
| `Scheduler.SliceScheduler.ReleaseLocal` | flowctl/multiagent.py:265-268 | every lock of the slice is removed and logged once |
| `Scheduler.SliceScheduler.LowerCounters` | flowctl/multiagent.py:361-364 | the slice leaves the running set and the counters |
| `Scheduler.SliceScheduler.RecordResult` | flowctl/multiagent.py:366-379 | passed, retried or dead-lettered |
| `Scheduler.SliceScheduler.StartCore` | flowctl/multiagent.py:395-401 | status, attempt, running set and counters of a start |
| `Scheduler.SliceScheduler.CollectLocal` | flowctl/multiagent.py:355-379 | a finished future is one legal move of the run, and lowers the measure |
| `Scheduler.SliceScheduler.TryStartLocal` | flowctl/multiagent.py:391-404 | a tried slice starts exactly if it is startable |
| `Scheduler.SliceScheduler.SchedulePass` | flowctl/multiagent.py:384-404 | exactly the waiting slices are tried, in name order, and a pass that starts nothing changes nothing and leaves no startable slice |
| `Scheduler.SliceScheduler.Tick` | flowctl/multiagent.py:351-405 | a round is one heartbeat, the results of exactly the finished futures, one propagation and then a try of every waiting slice in name order; it lowers the measure, or nothing was done and either something runs or the run cannot go on |
| `Scheduler.SliceScheduler.Run` | flowctl/multiagent.py:349-449 | for every return-code function, every finite delay of every attempt and every clock the loop ends, each slice with the status that dependencies, maxRetries + 1 attempts and return codes decide, exact dead letters, an empty lock table and the right overall status |
| `Scheduler.SliceScheduler.EndedGlobal` | flowctl/multiagent.py:351-405 | the same statuses and dead letters for a scheduler with a backend that has ended |
| `Scheduler.SliceScheduler.AcquireGlobal` | flowctl/multiagent.py:186-227 | with prompt clock readings: all requested locks are held, or the rows are those from before up to leases that had lapsed; and for a slice that may be tried the calls are the cluster's sweep, acquires in order and rollback for this run |
| `Scheduler.SliceScheduler.ReleaseRequests` | flowctl/multiagent.py:216-224 | a completed release takes away exactly the rows that the slice owned, and is the path on which the run gives back exactly these requests, in order |
| `Scheduler.SliceScheduler.ReleaseGlobal` | flowctl/multiagent.py:252-264 | the same for a finished slice, whose list of locks is then empty |
| `Scheduler.SliceScheduler.HeartbeatGlobal` | flowctl/multiagent.py:270-286 | a round without an error means that every lease of every running slice was still held when it began, and heartbeats exactly what the running slices acquired |
| `Scheduler.SliceScheduler.TickGlobal` | flowctl/multiagent.py:351-405 | one pass with a backend is a cluster history of this run from its old to its new state: heartbeats of all that running slices hold, the results of exactly the finished futures with their releases, one propagation, and an attempt at every slice that is still pending with an open gate; if the backend raises, the history ends halted with the same slices executing |
| `SharedLocks.BeatMeansHeld` | flowctl/locks.py:200-225 | a heartbeat that succeeds after only heartbeats proves that the lock was held from the start |
| `SharedLocks.GrantStep` | flowctl/multiagent.py:193-207 | one step of the acquisition loop, including the renewal of a name requested twice |
| `Cluster.StepInvariant` | flowctl/multiagent.py:186-286 | every store operation of every run, and every halt, ending and resumption, keeps leases in use in the store |
| `Cluster.MutualExclusion` | flowctl/multiagent.py:104-118 | from any store, over any interleaving of runs that share no owner, with timely leases, no two executing slices in any runs compete for a lock, slices of halted runs included |
| `Cluster.NoLeakedLeases` | flowctl/multiagent.py:252-264 | a run that began owning nothing and was not halted or resumed owns rows only for slices it executes or is dealing with, whether or not leases are timely |
| `Cluster.RunsConsistent` | flowctl/multiagent.py:351-405 | every run in the cluster keeps the scheduler invariant |
| `Cluster.CoreRun` | flowctl/multiagent.py:351-405 | the shared part of each run went, since it was last resumed, through a legal run of its own with the same return codes |
| `Cluster.ClusterOutcome` | flowctl/multiagent.py:351-405 | a run with the shared store ends with the statuses of any other run with the same return codes |
| `Cluster.ClusterDecided` | flowctl/multiagent.py:366-379 | a run in the cluster that ends gives each slice what dependencies, maxRetries + 1 attempts and return codes decide |
| `Contention.AttemptExact` | flowctl/multiagent.py:186-227 | an attempt succeeds iff each lock that the slice asks for is free, its own, or lapsed by then |
| `Contention.TogetherExactly` | flowctl/locks.py:87-176 | after one run took the locks of a slice at t0 with ttl d, another run's attempt at t1 leaves both slices executing iff they do not compete, or their owners are equal, or t0 + d <= t1 (t0 + 1 for d below one) |
| `Contention.Takeover` | flowctl/locks.py:325-342 | the slices of a halted run can end, and once its leases have lapsed a competing slice of another run gets all its locks, with timely leases throughout |
| `Contention.LapseBreaks` | flowctl/multiagent.py:186-227 | the instance with two runs of one whole-repo slice and a lapsed lease |
| `Contention.SharedIdentityBreaks` | flowctl/multiagent.py:131 | the instance with one owner and no time passing |
| `RunPaths.PathLifts` | flowctl/multiagent.py:351-405 | what one scheduler does between two points where others may step in is a piece of a history of the whole cluster |
| `RunPaths.HistoryLeads` | flowctl/multiagent.py:186-286 | the store calls of a cluster history are a legal sequence of operations that leads from its first store to its last |
| `ApprovalGate.RecordExplained` | flowctl/features.py:509-605 | for every history of edits and commands the state record says exactly what the latest successful review, approvals and re-plan did |
| `ApprovalGate.ReviewExactly` | flowctl/features.py:399-524 | when a review is recorded, and what it records |
| `ApprovalGate.SpecApproveExactly` | flowctl/features.py:549-605 | a spec is approved iff it was reviewed and found ready, is unchanged since by modification time and hash, somebody approves it and the final check passes; else nothing changes and the first failing check is named |
| `ApprovalGate.MakePlanExactly` | flowctl/features.py:830-974 | a plan is made iff the spec exists, its status stripped and lowered is `approved`, and the plan is valid; else nothing changes and the first failing check is named |
| `ApprovalGate.PlanApproveExactly` | flowctl/features.py:777-807 | a plan is approved iff spec and plan exist, the spec has the approved bytes and somebody approves it |
| `ApprovalGate.SliceStartExactly` | flowctl/features.py:1001-1033 | a slice starts iff the plan has it, the hashes of the named file and of the plan match what the stage asks for, and the worktree can be made |
| `ApprovalGate.SliceVerifyExactly` | flowctl/features.py:1173-1376 | a verification is recorded iff plan, slice and named spec exist, and which entry of the plan it rewrites and how |
| `ApprovalGate.GateHistory` | flowctl/policy.py:44-86 | a gate that is open for a spec file means that the file has the bytes that the latest spec approval made of the own spec, reviewed and ready before, and that it and the plan have the bytes of a plan approval made after the last re-plan |
| `ApprovalGate.GateOpens` | flowctl/features.py:533-974 | from any state a ready review, its approval, a plan and its approval open the gate iff the spec exists, and the plan then names it |
| `ApprovalGate.GateBetween` | flowctl/features.py:610-731 | between decisions the gate is open for a file iff that file and the plan have the approved bytes |
| `ApprovalGate.VerifyClosesGate` | flowctl/features.py:1367-1376 | verifying a slice keeps the gate open iff it leaves the plan bytes unchanged, and exactly when that is |
| `ApprovalGate.StartedOnApprovedPlan` | flowctl/features.py:1003-1033 | a slice that starts, with or without the policy hook, starts on the plan of the latest plan approval, and the spec file that the plan names has the bytes of the own spec then |
| `ApprovalGate.OwnCovered` | flowctl/features.py:1003-1013 | when a slice starts, the own spec has the approved bytes iff the plan names it or the named file has the same bytes; it does if nobody edited the tool's plan |
| `ApprovalGate.PlanNamesOwn` | flowctl/features.py:911-931 | the plan names the own spec from the latest plan command on, verifications included, until it is edited |
| `ApprovalGate.CopyStarts` | flowctl/features.py:1003-1013 | from any state with a spec, for any other file and any plan that names it, there is a history after which a slice starts although the own spec differs from the approved bytes |
| `FeatureWorkspace.Workspace.SpecReview` | flowctl/features.py:399-524 | the review record of the own spec |
| `FeatureWorkspace.Workspace.ApproveSpec` | flowctl/features.py:533-605 | the checks in their order, the rewritten spec and the approval record |
| `FeatureWorkspace.Workspace.PlanFeature` | flowctl/features.py:812-974 | the status checks, the new plan file and the dropped plan approval |
| `FeatureWorkspace.Workspace.ApprovePlan` | flowctl/features.py:766-807 | the plan approval record |
| `FeatureWorkspace.Workspace.FindSlice` | flowctl/features.py:72-89 | the slice is looked up by its unstripped name |
| `FeatureWorkspace.Workspace.StartSlice` | flowctl/features.py:989-1143 | the gate about the spec file that the plan names decides whether a slice starts; a missing file is an error with policy and a closed gate without |
| `FeatureWorkspace.Workspace.VerifySlice` | flowctl/features.py:1340-1376 | the record and the plan file after a verification |
| `FeatureWorkspace.Workspace.UpdatePlanSliceStatus` | flowctl/features.py:92-119 | the first slice with that stripped name is updated and the file rewritten; otherwise the file is left alone |
| `Policy.ReasonsExact` | flowctl/features.py:610-731 | the plan is approved iff there is no reason against it, the spec iff there is none but a changed modification time |
| `Policy.StageExactly` | flowctl/policy.py:18-24 | which texts mean which stage |
| `Policy.SpecReasonsExactly` | flowctl/features.py:617-632 | when each reason is given against a spec |
| `Policy.PlanReasonsExactly` | flowctl/features.py:695-720 | the reasons given against a plan, in order |
| `Policy.PolicyCheck` | flowctl/policy.py:44-86 | allowed iff the approvals that the stage requires hold for the given spec file; the two checks, the reasons and the actions of each; the two errors |
| `AcpSession.SessionOrder` | flowctl/acp_transport.py:262-354 | for every stream: at a loop head the requests sent are a prefix of initialize, optional authenticate, session/new, prompt with increasing ids and exactly the last is pending; results follow submission; errors carry the right flag |
| `AcpSession.OtherResponsesIgnored` | flowctl/acp_transport.py:308-311 | a response with any other id changes nothing |
| `AcpSession.ResultExact` | flowctl/acp_transport.py:273-354 | a result comes exactly from a cancellation that could be sent or from the response to the prompt, and what its exit code means |
| `AcpSession.PromptAnswered` | flowctl/acp_transport.py:337-354 | the result of the response to the prompt: cancelled by its stop reason, the final text the first nonempty of result, text and stop reason, failed by that text alone |
| `AcpSession.FailureExactly` | flowctl/acp_transport.py:275-326 | when a session fails and in which phase |
| `AcpSession.CrashExactly` | flowctl/acp_transport.py:290-340 | when it ends by an exception that the client does not declare |
| `AcpSession.PermissionAnswered` | flowctl/acp_transport.py:180-203 | what a permission request is answered and what is recorded |
| `AcpSession.SessionOpened` | flowctl/acp_transport.py:327-336 | the prompt goes to the session that the child opened |
| `AcpSession.LaunchExactly` | flowctl/acp_transport.py:245-263 | a child that does not start, has no stdin or breaks at once |
| `AcpSession.StreamedText` | flowctl/acp_transport.py:298-307 | the streamed text of a result is the concatenation of the chunks received |
| `AcpSession.AllowedExactly` | flowctl/acp_transport.py:165-203 | when a permission request is answered with allow-once |
| `AcpSession.ConverseSane` | flowctl/acp_transport.py:245-270 | the same order also when the child does not start, has no stdin or breaks at once |
| `AcpTransport.Transport.Decide` | flowctl/acp_transport.py:165-197 | the answer to a permission request |
| `AcpTransport.Transport.Take` | flowctl/acp_transport.py:272-341 | one turn of the loop: cancellation, silence, end of stream, bad messages, permission requests, updates and responses |
| `AcpTransport.Transport.Resolve` | flowctl/acp_transport.py:311-341 | the response to the pending request |
| `AcpTransport.Transport.Run` | flowctl/acp_transport.py:218-354 | the whole session, and what was passed to the stream writer |
| `AgentRun.AtMostOnce` | flowctl/agent_process_execution.py:1214-1284 | for every configuration and every message stream the work is handed to at most one transport, at most once |
| `AgentRun.FallbackExactly` | flowctl/agent_process_execution.py:1267-1284 | exactly when the command line is used |
| `AgentRun.OutcomeExactly` | flowctl/agent_process_execution.py:1214-1284 | what comes of every run: transport, status, exit code, output and fallback for every configuration and everything the world answers |
| `AgentRun.PromptStatus` | flowctl/agent_process_execution.py:1239-1252 | from the agent's answer to the prompt to the status of the run |
| `AgentRun.AcpSuccessDelivered` | flowctl/agent_process_execution.py:1230-1266 | a run that completes handed over its work exactly once, by the transport it reports |
| `AgentRun.RunAgentProcess` | flowctl/agent_process_execution.py:1150-1284 | the transport part of an agent run |
| `ReviewerSelection.Partition` | flowctl/agent_roles.py:204-260 | each resource appears exactly once among candidates and exclusions iff the chain repeats no eligible resource; nothing else appears |
| `ReviewerSelection.CandidateCount` | flowctl/agent_resources.py:401-434 | how often each resource is offered |
| `ReviewerSelection.ReasonsTrue` | flowctl/agent_roles.py:233-247 | every exclusion names a rule that its resource breaks, and `filtered_out` never occurs |
| `ReviewerSelection.ReasonsExactly` | flowctl/agent_roles.py:233-247 | the reason of each exclusion, by the first rule that the resource breaks |
| `ReviewerSelection.CandidateOrder` | flowctl/agent_roles.py:248-260 | other cost tiers first; in each group the chain in its order, then priority and id |
| `ReviewerSelection.Eligible` | flowctl/agent_resources.py:379-398 | candidates are exactly the resources with another executor and model resolution that pass the filter |
| `ReviewerSelection.EligibleExactly` | flowctl/agent_resources.py:379-398 | the same in terms of the resource, the evidence and the needs |
| `ReviewerSelection.AvailabilityExactly` | flowctl/agent_resources.py:146-165 | which evidence means which state, and that anything else is unknown |
| `ReviewerSelection.NormalizeAvailability` | flowctl/agent_resources.py:146-165 | evidence becomes one of the ten states |
| `ReviewerSelection.FilterResources` | flowctl/agent_resources.py:379-398 | the filter loop |
| `ReviewerSelection.SortByPriority` | flowctl/agent_resources.py:423-429 | the remainder is a permutation sorted by priority and id |
| `ReviewerSelection.SelectReviewers` | flowctl/agent_roles.py:175-268 | the whole selection: missing implementer, no candidate, or candidates with exclusions |
| `ReviewerSelection.SelectExactly` | flowctl/agent_roles.py:175-268 | when each of the three comes about, and with which candidates and exclusions |

## Left out

- Threads, `ThreadPoolExecutor` and sleeping: futures finish after an arbitrary finite number of polls, or at arbitrary steps; `max_workers` bounds nothing here, as it does not bound the running set in the code.
- SQLite itself: each transaction is one atomic step on a map and a sequence; busy timeouts and database errors are not modelled.
- Clock readings are parameters. The backend reads the clock before it takes its transaction, so commits need not be in clock order; only `LeaseWindow` and `RowsOrdered` ask for a clock that does not run back.
- Expiries past the last representable timestamp end the operation with an error; the Python exception type is not modelled.
- The iteration order of dictionaries and of the rows returned by SQL is left open.
- Whitespace and letter case are those of Python's ASCII range.
- The start callable is assumed to return a code; the exceptions it may raise, wait reasons, the text of failure reasons, workers, timestamps of jobs and the report assembled at the end of the scheduler are not modelled.
- Scheduler.SliceScheduler.TickGlobal: makes no claim that a run with a shared store ends, because other runs may hold its locks for ever; the events that the scheduler logs itself in this mode are left out, since the report takes the events of the store instead.
- Scheduler.SliceScheduler.Poll: the executor is a table of remaining polls per running slice.
- Contention.TogetherExactly: two attempts, one after the other; what other runs do in between is covered by `Cluster.MutualExclusion` only.
- SHA-256 is taken as injective; file system races inside one command are left out. A spec path that means a directory counts as a missing file. `slice start` and `slice verify` find the named file by one function, as the plan directory lies two levels below the workspace.
- The analyses behind a review, the final check before an approval, the contents of a new plan, Git worktrees, and the verification of a slice itself are parameters of the commands; delegation of a verification to the workspace container is left out.
- A state record that was written by hand or by an older version is not modelled: histories start from an empty record.
- JSON decoding, `select`, timeouts and process handling of the ACP client: the input is a sequence of decoded messages, silences and failures. No time bound is claimed.
- A permission handler or stream writer that raises, and the `_write_lock`, are left out. The variables of one ACP run are fields of the client object instead of locals.
- The contract that is applied to the output of reviewer runs, environment overlays, model resolution and run reports of an agent run are left out.
- `flowctl/parser.py`, `flowctl/ci.py`, `flowctl/doctor.py`, `flowctl/stack.py`, `flowctl/providers.py`, `flowctl/gateway_ops.py`, `flowctl/release.py`, `flowctl/admin.py`, `flowctl/evidence.py` and `flowctl/quality_gates.py`: wiring and I/O around external tools, which would add only easy members.
