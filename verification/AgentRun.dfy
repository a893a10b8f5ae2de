/** How one agent run chooses its transport, and when it falls back from ACP to the command line. */
module AgentRun {
  import opened Wrappers
  import opened AcpSession
  import opened AcpTransport
  import SlicePlan

  datatype Executor = Executor(transport: string, adapter: string, acpExecutable: Option<string>, allowCliFallback: bool, policy: Policy)

  /** What the world answers: whether the ACP executable is found, what happens in the ACP session,
      whether the CLI executable is there and how its process ends. */
  datatype World = World(acpFound: bool, launch: Launch, turns: seq<Turn>, cliFound: bool, cli: Process)

  datatype Process = Exited(code: int, stdout: string) | NotStarted

  datatype Outcome =
    | Unsupported
    | RuntimeFailure
    | ExecutorUnavailable
    | Aborted
    | Waiting
    | Ran(exitCode: int, transportUsed: string, status: string, taskFailed: bool, cancelled: bool, fallback: bool, stdout: string)

  /** The outcome, and how often the work was handed over: as a prompt, as a process. */
  datatype Account = Account(outcome: Outcome, prompts: nat, processes: nat)

  const STOP_REASONS := {"end_turn", "completed", "cancelled", "canceled"}

  function Requested(transport: string, ex: Executor): string {
    if transport != "" then transport else ex.transport
  }

  /** `cursor` and `opencode` serve ACP themselves. */
  predicate AcpConfigured(ex: Executor) {
    ex.acpExecutable.Some? || ex.adapter == "cursor" || ex.adapter == "opencode"
  }

  /** The ACP session of the run, if it gets that far. */
  function Conversation(ex: Executor, w: World): Option<Status> {
    if AcpConfigured(ex) && w.acpFound then Some(Converse(ex.policy, 1, w.launch, w.turns)) else None
  }

  function CliRun(w: World, prompts: nat, fallback: bool): Account {
    if !w.cliFound then Account(ExecutorUnavailable, prompts, 0)
    else if w.cli.NotStarted? then Account(Aborted, prompts, 1)
    else Account(Ran(w.cli.code, "cli", if w.cli.code == 0 then "success" else "failure", w.cli.code != 0, false, fallback, w.cli.stdout), prompts, 1)
  }

  /** The streamed text, or the final text when nothing was streamed and it is more than a stop reason. */
  function AcpOutput(r: Result): string {
    if r.streamedText != "" then r.streamedText
    else if SlicePlan.LowerAll(r.finalResult) in STOP_REASONS then ""
    else r.finalResult
  }

  function AcpRan(s: Session, r: Result): Account {
    Account(Ran(r.exitCode, "acp", if r.cancelled then "cancelled" else if r.exitCode != 0 then "failure" else "success",
                r.failed || (!r.cancelled && r.exitCode != 0), r.cancelled, false, AcpOutput(r)), Prompts(s.sent), 0)
  }

  function AcpFirst(requested: string, ex: Executor, w: World): Account {
    match Conversation(ex, w)
    case None =>
      if requested == "acp" || !ex.allowCliFallback then Account(RuntimeFailure, 0, 0) else CliRun(w, 0, true)
    case Some(Going(s)) => Account(Waiting, Prompts(s.sent), 0)
    case Some(Crashed(s)) => Account(Aborted, Prompts(s.sent), 0)
    case Some(Finished(s, r)) => AcpRan(s, r)
    case Some(Failed(s, _, submitted)) =>
      if requested == "acp" || submitted || !ex.allowCliFallback then Account(RuntimeFailure, Prompts(s.sent), 0)
      else CliRun(w, Prompts(s.sent), true)
  }

  function Execute(transport: string, ex: Executor, w: World): Account {
    var requested := Requested(transport, ex);
    if requested !in {"cli", "acp", "auto"} then Account(Unsupported, 0, 0)
    else if requested == "cli" then CliRun(w, 0, false)
    else AcpFirst(requested, ex, w)
  }

  lemma {:induction false} ConversationSane(ex: Executor, w: World)
    ensures Conversation(ex, w).Some? ==> Sane(ex.policy, 1, Conversation(ex, w).value)
    ensures Conversation(ex, w).Some? && Conversation(ex, w).value.Going? ==> Prompts(Conversation(ex, w).value.s.sent) <= 1
  {
    ConverseSane(ex.policy, 1, w.launch, w.turns);
    var st := Converse(ex.policy, 1, w.launch, w.turns);
    if st.Going? {
      var k :| InOrder(ex.policy, 1, st.s, k);
      InOrderPrompts(ex.policy, 1, st.s, k);
    }
  }

  /** At-most-once delivery: whatever the configuration and whatever the ACP child sends, the work is
      handed over at most once, as an ACP prompt or as a CLI process; at every moment of the session,
      and even if it ends in an unforeseen exception. */
  lemma {:induction false} AtMostOnce(transport: string, ex: Executor, w: World)
    ensures Execute(transport, ex, w).prompts + Execute(transport, ex, w).processes <= 1
  {
    ConversationSane(ex, w);
  }

  /** The command line is used exactly when it was asked for, or, in auto mode with the fallback allowed,
      when ACP could not be probed or failed before any prompt was handed over. */
  lemma {:induction false} FallbackExactly(transport: string, ex: Executor, w: World)
    ensures
      var requested, c := Requested(transport, ex), Conversation(ex, w);
      Execute(transport, ex, w).processes == 1 <==>
        w.cliFound
        && (requested == "cli"
            || (requested == "auto" && ex.allowCliFallback
                && (c.None? || (c.value.Failed? && Prompts(c.value.s.sent) == 0))))
  {
    ConversationSane(ex, w);
  }

  /** A run that reports success over ACP has handed over its prompt and none of it to the CLI. */
  lemma {:induction false} AcpSuccessDelivered(transport: string, ex: Executor, w: World)
    ensures var a := Execute(transport, ex, w);
            a.outcome.Ran? ==> a.prompts == (if a.outcome.transportUsed == "acp" then 1 else 0) && a.prompts + a.processes == 1
  {
    ConversationSane(ex, w);
  }

  /** What comes of a run that the command line does. */
  ghost predicate ByCli(w: World, prompts: nat, fallback: bool, a: Account) {
    if !w.cliFound then a == Account(ExecutorUnavailable, prompts, 0)
    else if w.cli == NotStarted then a == Account(Aborted, prompts, 1)
    else
      && a.prompts == prompts && a.processes == 1 && a.outcome.Ran?
      && a.outcome.transportUsed == "cli" && a.outcome.fallback == fallback && !a.outcome.cancelled
      && a.outcome.exitCode == w.cli.code && a.outcome.stdout == w.cli.stdout
      && (a.outcome.status == "success" <==> w.cli.code == 0) && (a.outcome.status == "failure" <==> w.cli.code != 0)
      && (a.outcome.taskFailed <==> w.cli.code != 0)
  }

  /** What comes of a run whose ACP session ended with result `r`. */
  ghost predicate ByAcp(r: Result, a: Account) {
    && a.processes == 0 && a.outcome.Ran? && a.outcome.transportUsed == "acp" && !a.outcome.fallback
    && a.outcome.exitCode == r.exitCode && a.outcome.cancelled == r.cancelled
    && (a.outcome.status == "cancelled" <==> r.cancelled)
    && (a.outcome.status == "success" <==> !r.cancelled && r.exitCode == 0)
    && (a.outcome.status == "failure" <==> !r.cancelled && r.exitCode != 0)
    && (a.outcome.taskFailed <==> r.failed || (!r.cancelled && r.exitCode != 0))
    && (r.streamedText != "" ==> a.outcome.stdout == r.streamedText)
    && (r.streamedText == "" ==>
          a.outcome.stdout == if SlicePlan.LowerAll(r.finalResult) == "end_turn" || SlicePlan.LowerAll(r.finalResult) == "completed"
                                 || SlicePlan.LowerAll(r.finalResult) == "cancelled" || SlicePlan.LowerAll(r.finalResult) == "canceled"
                              then "" else r.finalResult)
  }

  /** What comes of every run, for every configuration and everything the world answers. */
  lemma {:induction false} OutcomeExactly(transport: string, ex: Executor, w: World)
    ensures
      var requested, a := if transport == "" then ex.transport else transport, Execute(transport, ex, w);
      var only := requested == "acp" || !ex.allowCliFallback;
      if requested == "cli" then ByCli(w, 0, false, a)
      else if requested != "acp" && requested != "auto" then a == Account(Unsupported, 0, 0)
      else if !w.acpFound || (ex.acpExecutable == None && ex.adapter != "cursor" && ex.adapter != "opencode") then
        if only then a == Account(RuntimeFailure, 0, 0) else ByCli(w, 0, true, a)
      else
        match Converse(ex.policy, 1, w.launch, w.turns)
        case Going(_) => a.outcome == Waiting && a.processes == 0
        case Crashed(_) => a.outcome == Aborted && a.processes == 0
        case Finished(_, r) => ByAcp(r, a)
        case Failed(s, _, submitted) =>
          if only || submitted then a.outcome == RuntimeFailure && a.processes == 0 else ByCli(w, Prompts(s.sent), true, a)
  {
  }

  /** From the agent's answer to the prompt to the status of the run: cancelled by the stop reason alone,
      otherwise failed by the final text alone, otherwise a success. */
  lemma {:induction false} PromptStatus(transport: string, ex: Executor, w: World, n: nat, k: nat)
    requires var requested := if transport == "" then ex.transport else transport; requested == "acp" || requested == "auto"
    requires w.acpFound && ex.acpExecutable.Some? && w.launch == Launched && n < |w.turns|
    requires Play(ex.policy, Opening(1), w.turns[..n]).Going?
    requires InOrder(ex.policy, 1, Play(ex.policy, Opening(1), w.turns[..n]).s, k) && k == |Script(ex.policy, 1)|
    requires AnswersPrompt(w.turns[n], k) && !w.turns[n].cancel
    ensures
      var o, p := Execute(transport, ex, w).outcome, w.turns[n].input.message.payload;
      var final := if p.NotObject? then "" else if p.result != "" then p.result else if p.text != "" then p.text else p.stopReason;
      var stopped := p.Object? && (SlicePlan.LowerAll(p.stopReason) == "cancelled" || SlicePlan.LowerAll(p.stopReason) == "canceled");
      var failed := SlicePlan.LowerAll(final) == "error" || SlicePlan.LowerAll(final) == "failed" || SlicePlan.LowerAll(final) == "failure";
      && o.Ran? && o.transportUsed == "acp"
      && o.status == (if stopped then "cancelled" else if failed then "failure" else "success")
      && o.exitCode == (if stopped then 130 else if failed then 1 else 0)
      && (o.taskFailed <==> failed)
  {
    var s := Play(ex.policy, Opening(1), w.turns[..n]).s;
    PromptAnswered(ex.policy, 1, s, k, w.turns[n]);
    assert w.turns[..n + 1][..n] == w.turns[..n];
    EndedStays(ex.policy, Opening(1), w.turns, n + 1);
    OutcomeExactly(transport, ex, w);
  }

  /** The transport part of `run_agent_process`. */
  method RunAgentProcess(transport: string, ex: Executor, w: World) returns (a: Account)
    ensures a == Execute(transport, ex, w)
  {
    var requested := if transport != "" then transport else ex.transport;
    if requested != "cli" && requested != "acp" && requested != "auto" {
      return Account(Unsupported, 0, 0);
    }
    if requested == "cli" {
      a := RunCli(w, 0, false);
      return;
    }
    var prompts: nat := 0;
    var submitted := false;
    if AcpConfigured(ex) && w.acpFound {
      var acp := new Transport(ex.policy);
      var status := acp.Run(w.launch, w.turns);
      prompts := Prompts(status.s.sent);
      match status {
        case Going(_) => return Account(Waiting, prompts, 0);
        case Crashed(_) => return Account(Aborted, prompts, 0);
        case Finished(_, r) =>
          var result := "success";
          var taskFailed := r.failed;
          if r.cancelled {
            result := "cancelled";
          } else if r.exitCode != 0 {
            result := "failure";
            taskFailed := true;
          }
          return Account(Ran(r.exitCode, "acp", result, taskFailed, r.cancelled, false, AcpOutput(r)), prompts, 0);
        case Failed(_, _, afterSubmission) =>
          submitted := afterSubmission;
      }
    }
    if requested == "acp" || submitted || !ex.allowCliFallback {
      return Account(RuntimeFailure, prompts, 0);
    }
    a := RunCli(w, prompts, true);
  }

  method RunCli(w: World, prompts: nat, fallback: bool) returns (a: Account)
    ensures a == CliRun(w, prompts, fallback)
  {
    if !w.cliFound {
      return Account(ExecutorUnavailable, prompts, 0);
    }
    match w.cli {
      case NotStarted => a := Account(Aborted, prompts, 1);
      case Exited(code, stdout) =>
        a := Account(Ran(code, "cli", if code == 0 then "success" else "failure", code != 0, false, fallback, stdout), prompts, 1);
    }
  }
}
