/** The ACP client session: a JSON-RPC request/response exchange over the stdio of a child process,
    driven by whatever the child writes. Messages arrive decoded. */
module AcpSession {
  import opened Wrappers
  import SlicePlan

  // ---- what the child sends ----

  /** A JSON id as Python compares it with the integer ids of requests: numbers (and booleans, which are
      0 and 1) by value; strings and null match nothing; lists and objects cannot be looked up at all. */
  datatype Id = Number(value: real) | Unmatched | Unhashable

  /** The `result` of a response; absent or falsy values are the empty string. */
  datatype Payload = NotObject | Object(sessionId: string, stopReason: string, result: string, text: string)

  datatype PermissionOption = PermissionOption(id: string, kind: string)

  datatype Message =
    | PermissionRequest(options: seq<PermissionOption>)
    | SessionUpdate(chunk: bool, text: string)
    | Response(id: Id, error: bool, payload: Payload)

  datatype Input =
    | Quiet(exited: bool, late: bool)
    | Closed
    | InvalidJson
    | NoMessage
    | Received(message: Message)

  /** One turn of the loop: whether cancellation has been requested, whether writing to the child works,
      and what there is to read. */
  datatype Turn = Turn(cancel: bool, writable: bool, input: Input)

  // ---- what the client sends ----

  datatype Operation = Initialize | Authenticate | SessionNew | Prompt

  datatype Sent = Request(id: int, op: Operation) | Answer(decision: string) | CancelNotice

  // ---- the session ----

  datatype Policy = Policy(authMethod: string, permission: string)

  datatype Session = Session(
    nextId: int, pending: map<int, Operation>, submitted: bool, session: Option<string>,
    updates: seq<string>, decisions: seq<string>, sent: seq<Sent>)

  datatype Result = Result(exitCode: int, finalResult: string, streamedText: string, session: Option<string>,
                           cancelled: bool, submitted: bool, failed: bool)

  datatype Phase = RuntimePhase | ProtocolPhase | InPhase(op: Operation)

  datatype Status =
    | Going(s: Session)
    | Finished(s: Session, result: Result)
    | Failed(s: Session, phase: Phase, submitted: bool)
    | Crashed(s: Session)

  // ---- permissions ----

  predicate Allows(o: PermissionOption) {
    SlicePlan.Contains(SlicePlan.LowerAll(o.id), "allow") || SlicePlan.Contains(SlicePlan.LowerAll(o.kind), "allow")
  }

  predicate Rejects(o: PermissionOption) {
    SlicePlan.Contains(SlicePlan.LowerAll(o.id), "reject") || SlicePlan.Contains(SlicePlan.LowerAll(o.id), "deny")
  }

  function FirstAllow(options: seq<PermissionOption>): Option<string> {
    if options == [] then None else if Allows(options[0]) then Some(options[0].id) else FirstAllow(options[1..])
  }

  function FirstReject(options: seq<PermissionOption>): Option<string> {
    if options == [] then None else if Rejects(options[0]) then Some(options[0].id) else FirstReject(options[1..])
  }

  /** `_permission_decision`, before the answer is restricted to the two known options. */
  function Preferred(options: seq<PermissionOption>, permission: string): string {
    if permission == "allow_once" && FirstAllow(options).Some? then FirstAllow(options).value
    else if FirstReject(options).Some? then FirstReject(options).value
    else "reject-once"
  }

  function Decision(options: seq<PermissionOption>, permission: string): (d: string)
    ensures d == "allow-once" || d == "reject-once"
  {
    var d := Preferred(options, permission);
    if d == "allow-once" || d == "reject-once" then d else "reject-once"
  }

  lemma {:induction false} FirstRejectRejects(options: seq<PermissionOption>)
    ensures FirstReject(options).Some? ==> exists o | o in options :: Rejects(o) && o.id == FirstReject(options).value
  {
    if options != [] && !Rejects(options[0]) {
      FirstRejectRejects(options[1..]);
    }
  }

  /** `hint` is somewhere in the text, in whatever case. */
  predicate Hints(text: string, hint: string) {
    exists i :: 0 <= i <= |text| && hint <= SlicePlan.LowerAll(text)[i..]
  }

  lemma {:induction false} HintsMeaning(text: string, hint: string)
    ensures SlicePlan.Contains(SlicePlan.LowerAll(text), hint) <==> Hints(text, hint)
  {
    SlicePlan.ContainsMeaning(SlicePlan.LowerAll(text), hint);
  }

  /** Option `i` is the first one that looks like an allowance, by its id or its kind. */
  ghost predicate FirstAllowance(options: seq<PermissionOption>, i: nat) {
    && i < |options| && (Hints(options[i].id, "allow") || Hints(options[i].kind, "allow"))
    && forall k | 0 <= k < i :: !Hints(options[k].id, "allow") && !Hints(options[k].kind, "allow")
  }

  lemma {:induction false} AllowanceFound(options: seq<PermissionOption>) returns (i: nat)
    ensures FirstAllow(options).Some? <==> FirstAllowance(options, i)
    ensures FirstAllow(options).Some? ==> FirstAllow(options).value == options[i].id
    ensures FirstAllow(options).None? ==> forall k: nat :: !FirstAllowance(options, k)
  {
    i := 0;
    if options != [] {
      HintsMeaning(options[0].id, "allow");
      HintsMeaning(options[0].kind, "allow");
      if !Allows(options[0]) {
        var m := AllowanceFound(options[1..]);
        i := m + 1;
        assert forall k | 0 < k < |options| :: options[1..][k - 1] == options[k];
        forall k: nat ensures FirstAllowance(options, k) <==> k > 0 && FirstAllowance(options[1..], k - 1) {
          FirstShifts(options, k);
        }
      }
    }
  }

  lemma {:induction false} FirstShifts(options: seq<PermissionOption>, k: nat)
    requires options != [] && !Hints(options[0].id, "allow") && !Hints(options[0].kind, "allow")
    ensures FirstAllowance(options, k) <==> k > 0 && FirstAllowance(options[1..], k - 1)
  {
    if 0 < k < |options| {
      var rest := options[1..];
      assert rest[k - 1] == options[k];
      if FirstAllowance(options, k) {
        forall m | 0 <= m < k - 1 ensures !Hints(rest[m].id, "allow") && !Hints(rest[m].kind, "allow") {
          assert rest[m] == options[m + 1];
        }
      }
      if FirstAllowance(rest, k - 1) {
        forall m | 0 <= m < k ensures !Hints(options[m].id, "allow") && !Hints(options[m].kind, "allow") {
          assert m > 0 ==> rest[m - 1] == options[m];
        }
      }
    }
  }

  lemma {:induction false} FirstUnique(options: seq<PermissionOption>, i: nat, k: nat)
    requires FirstAllowance(options, i) && FirstAllowance(options, k)
    ensures i == k
  {
  }

  /** Permission is given exactly when the policy allows it and the first option that looks like an
      allowance is the one-time one; an offer that puts any other allowance first is rejected. The answer
      is never anything but one-time permission or rejection. */
  lemma {:induction false} AllowedExactly(options: seq<PermissionOption>, permission: string)
    ensures Decision(options, permission) == "allow-once" <==>
              permission == "allow_once" && exists i: nat :: FirstAllowance(options, i) && options[i].id == "allow-once"
    ensures Decision(options, permission) != "allow-once" ==> Decision(options, permission) == "reject-once"
  {
    FirstRejectRejects(options);
    forall o | o in options && o.id == "allow-once" ensures !Rejects(o) {
      OneTimeIsNoRejection(o);
    }
    var i := AllowanceFound(options);
    forall k: nat | FirstAllowance(options, k) && FirstAllow(options).Some? ensures k == i {
      FirstUnique(options, i, k);
    }
    assert FirstAllow(options) == Some("allow-once") <==> exists k: nat :: FirstAllowance(options, k) && options[k].id == "allow-once";
  }

  lemma {:induction false} OneTimeIsNoRejection(o: PermissionOption)
    requires o.id == "allow-once"
    ensures !Rejects(o)
  {
    var s := SlicePlan.LowerAll(o.id);
    assert 'r' !in s && 'd' !in s;
    Absent(s, "reject");
    Absent(s, "deny");
  }

  lemma {:induction false} Absent(s: string, t: string)
    requires t != "" && t[0] !in s
    ensures !SlicePlan.Contains(s, t)
  {
    if s != "" {
      Absent(s[1..], t);
      assert s[0] != t[0];
    }
  }

  // ---- one turn ----

  function Opening(first: int): Session {
    Session(first + 1, map[first := Initialize], false, None, [], [], [Request(first, Initialize)])
  }

  function Ask(s: Session, op: Operation): Session {
    s.(nextId := s.nextId + 1, pending := s.pending[s.nextId := op], sent := s.sent + [Request(s.nextId, op)])
  }

  function Join(texts: seq<string>): string {
    if texts == [] then "" else Join(texts[..|texts| - 1]) + texts[|texts| - 1]
  }

  function FinalText(p: Payload): string {
    if p.NotObject? then "" else if p.result != "" then p.result else if p.text != "" then p.text else p.stopReason
  }

  predicate StopsCancelled(p: Payload) {
    p.Object? && SlicePlan.LowerAll(p.stopReason) in {"cancelled", "canceled"}
  }

  function Close(s: Session, finalResult: string, cancelled: bool): Status {
    var failed := SlicePlan.LowerAll(finalResult) in {"error", "failed", "failure"};
    Finished(s, Result(if cancelled then 130 else if failed then 1 else 0, finalResult, Join(s.updates), s.session, cancelled, s.submitted, failed))
  }

  /** Sending a request that may fail half way; it counts as sent either way. */
  function Asked(s: Session, op: Operation, writable: bool): Status {
    if writable then Going(Ask(s, op).(submitted := s.submitted || op == Prompt)) else Crashed(Ask(s, op))
  }

  /** The response to a request, which is no longer pending in `s`. */
  function OnResult(policy: Policy, s: Session, op: Operation, p: Payload, writable: bool): Status {
    match op
    case Initialize => Asked(s, if policy.authMethod != "" then Authenticate else SessionNew, writable)
    case Authenticate => Asked(s, SessionNew, writable)
    case SessionNew =>
      if p.NotObject? || p.sessionId == "" then Failed(s, InPhase(SessionNew), false)
      else Asked(s.(session := Some(p.sessionId)), Prompt, writable)
    case Prompt => Close(s, FinalText(p), StopsCancelled(p))
  }

  /** The request that the id matches, if it matches one. */
  function Match(pending: map<int, Operation>, id: Id): Option<int> {
    if id.Number? && id.value == id.value.Floor as real && id.value.Floor in pending then Some(id.value.Floor) else None
  }

  function OnMessage(policy: Policy, s: Session, m: Message, writable: bool): Status {
    match m
    case PermissionRequest(options) =>
      var d := Decision(options, policy.permission);
      var t := s.(decisions := s.decisions + [d], sent := s.sent + [Answer(d)]);
      if writable then Going(t) else Crashed(t)
    case SessionUpdate(chunk, text) =>
      if chunk && text != "" then Going(s.(updates := s.updates + [text])) else Going(s)
    case Response(id, error, payload) =>
      if id.Unhashable? then Crashed(s)
      else if Match(s.pending, id).None? then Going(s)
      else
        var k := Match(s.pending, id).value;
        var t := s.(pending := s.pending - {k});
        if error then Failed(t, InPhase(s.pending[k]), s.submitted)
        else OnResult(policy, t, s.pending[k], payload, writable)
  }

  function OnInput(policy: Policy, s: Session, i: Input, writable: bool): Status {
    match i
    case Quiet(exited, late) => if exited || late then Failed(s, RuntimePhase, s.submitted) else Going(s)
    case Closed => Failed(s, ProtocolPhase, s.submitted)
    case InvalidJson => Failed(s, ProtocolPhase, s.submitted)
    case NoMessage => Going(s)
    case Received(m) => OnMessage(policy, s, m, writable)
  }

  /** A requested cancellation ends the session if there is one and the notice can be written. */
  function OnTurn(policy: Policy, s: Session, t: Turn): Status {
    if t.cancel && s.session.Some? && t.writable then Close(s.(sent := s.sent + [CancelNotice]), "", true)
    else OnInput(policy, s, t.input, t.writable)
  }

  /** The loop, for as long as there are turns. */
  function Play(policy: Policy, s: Session, turns: seq<Turn>): Status {
    if turns == [] then Going(s)
    else
      match Play(policy, s, turns[..|turns| - 1])
      case Going(t) => OnTurn(policy, t, turns[|turns| - 1])
      case ended => ended
  }

  // ---- session order ----

  function Requests(sent: seq<Sent>): seq<Sent> {
    if sent == [] then []
    else
      var last := sent[|sent| - 1];
      Requests(sent[..|sent| - 1]) + if last.Request? then [last] else []
  }

  /** The requests of a whole session, in order. */
  function Script(policy: Policy, first: int): seq<Sent> {
    if policy.authMethod == ""
    then [Request(first, Initialize), Request(first + 1, SessionNew), Request(first + 2, Prompt)]
    else [Request(first, Initialize), Request(first + 1, Authenticate), Request(first + 2, SessionNew), Request(first + 3, Prompt)]
  }

  /** At a loop head: the requests sent so far are the first `k` of the script and exactly the last of
      them is pending; the prompt has been submitted, and there is a session, exactly when that is all
      of the script. */
  ghost predicate InOrder(policy: Policy, first: int, s: Session, k: nat) {
    && 1 <= k <= |Script(policy, first)|
    && Requests(s.sent) == Script(policy, first)[..k]
    && s.pending == map[first + k - 1 := Script(policy, first)[k - 1].op]
    && s.nextId == first + k
    && (s.submitted <==> k == |Script(policy, first)|)
    && (s.session.Some? <==> k == |Script(policy, first)|)
  }

  /** The prompts that have been handed to the child. */
  function Prompts(sent: seq<Sent>): nat {
    if sent == [] then 0
    else
      var last := sent[|sent| - 1];
      Prompts(sent[..|sent| - 1]) + if last.Request? && last.op == Prompt then 1 else 0
  }

  lemma {:induction false} RequestsSnoc(sent: seq<Sent>, x: Sent)
    ensures Requests(sent + [x]) == Requests(sent) + if x.Request? then [x] else []
    ensures Prompts(sent + [x]) == Prompts(sent) + if x.Request? && x.op == Prompt then 1 else 0
  {
    assert (sent + [x])[..|sent + [x]| - 1] == sent;
  }

  lemma {:induction false} PromptsOfRequests(sent: seq<Sent>)
    ensures Prompts(sent) == Prompts(Requests(sent))
  {
    if sent != [] {
      var front, last := sent[..|sent| - 1], sent[|sent| - 1];
      PromptsOfRequests(front);
      RequestsSnoc(Requests(front), last);
      assert Requests(front) + [] == Requests(front);
    }
  }

  // ---- every turn keeps the order ----

  ghost predicate Ordered(policy: Policy, first: int, s: Session) {
    exists k :: InOrder(policy, first, s, k)
  }

  lemma {:induction false} OpeningInOrder(policy: Policy, first: int)
    ensures InOrder(policy, first, Opening(first), 1)
  {
    var one, script := Request(first, Initialize), Script(policy, first);
    RequestsSnoc([], one);
    assert [] + [one] == [one];
    assert Requests([one]) == [one];
    assert |script| >= 3 && script[0] == one;
    assert script[..1] == [one];
  }

  /** Sending the next request of the script. */
  lemma {:induction false} AskInOrder(policy: Policy, first: int, s: Session, k: nat, session: Option<string>)
    requires InOrder(policy, first, s, k) && k < |Script(policy, first)|
    requires session.Some? <==> k + 1 == |Script(policy, first)|
    ensures
      var op := Script(policy, first)[k].op;
      var t := Ask(s.(pending := s.pending - {first + k - 1}, session := session), op);
      InOrder(policy, first, t.(submitted := k + 1 == |Script(policy, first)|), k + 1)
  {
    var op := Script(policy, first)[k].op;
    RequestsSnoc(s.sent, Request(s.nextId, op));
    assert Script(policy, first)[..k + 1] == Script(policy, first)[..k] + [Script(policy, first)[k]];
  }

  lemma {:induction false} AnswerInOrder(policy: Policy, first: int, s: Session, k: nat, x: Sent, decisions: seq<string>, updates: seq<string>)
    requires InOrder(policy, first, s, k) && !x.Request?
    ensures InOrder(policy, first, s.(sent := s.sent + [x]), k)
    ensures InOrder(policy, first, s.(decisions := decisions), k) && InOrder(policy, first, s.(updates := updates), k)
    ensures InOrder(policy, first, s.(decisions := decisions, sent := s.sent + [x]), k)
  {
    RequestsSnoc(s.sent, x);
  }

  /** What holds of a session however it stands: at a loop head the requests are in order; a result
      comes only after the prompt was submitted; an error says whether the prompt was submitted; and the
      prompt is handed over at most once. */
  ghost predicate Sane(policy: Policy, first: int, st: Status) {
    match st
    case Going(s) => Ordered(policy, first, s)
    case Finished(s, r) => r.submitted && r.session.Some? && r.session == s.session && Prompts(s.sent) == 1
    case Failed(s, _, submitted) => Prompts(s.sent) == if submitted then 1 else 0
    case Crashed(s) => Prompts(s.sent) <= 1
  }

  lemma {:induction false} InOrderPrompts(policy: Policy, first: int, s: Session, k: nat)
    requires InOrder(policy, first, s, k)
    ensures Prompts(s.sent) == if s.submitted then 1 else 0
  {
    PromptsOfRequests(s.sent);
    PrefixPrompts(policy, first, k);
  }

  lemma {:induction false} AskedSane(policy: Policy, first: int, s: Session, k: nat, session: Option<string>, writable: bool)
    requires InOrder(policy, first, s, k) && k < |Script(policy, first)|
    requires session.Some? <==> k + 1 == |Script(policy, first)|
    ensures Sane(policy, first, Asked(s.(pending := s.pending - {first + k - 1}, session := session), Script(policy, first)[k].op, writable))
  {
    var op := Script(policy, first)[k].op;
    InOrderPrompts(policy, first, s, k);
    AskInOrder(policy, first, s, k, session);
    RequestsSnoc(s.sent, Request(s.nextId, op));
    assert op == Prompt <==> k + 1 == |Script(policy, first)|;
  }

  lemma {:induction false} ResponseSane(policy: Policy, first: int, s: Session, k: nat, id: Id, error: bool, p: Payload, writable: bool)
    requires InOrder(policy, first, s, k)
    ensures Sane(policy, first, OnMessage(policy, s, Response(id, error, p), writable))
  {
    var script, m := Script(policy, first), Match(s.pending, id);
    InOrderPrompts(policy, first, s, k);
    if !id.Unhashable? && m.Some? && !error && k < |script| {
      assert m.value == first + k - 1 && s.pending[m.value] == script[k - 1].op;
      if k + 1 < |script| {
        AskedSane(policy, first, s, k, s.session, writable);
      } else if p.Object? && p.sessionId != "" {
        AskedSane(policy, first, s, k, Some(p.sessionId), writable);
      }
    }
  }

  lemma {:induction false} PermissionSane(policy: Policy, first: int, s: Session, k: nat, options: seq<PermissionOption>, writable: bool)
    requires InOrder(policy, first, s, k)
    ensures Sane(policy, first, OnMessage(policy, s, PermissionRequest(options), writable))
  {
    var d := Decision(options, policy.permission);
    InOrderPrompts(policy, first, s, k);
    RequestsSnoc(s.sent, Answer(d));
    AnswerInOrder(policy, first, s, k, Answer(d), s.decisions + [d], s.updates);
  }

  lemma {:induction false} TurnSane(policy: Policy, first: int, s: Session, k: nat, t: Turn)
    requires InOrder(policy, first, s, k)
    ensures Sane(policy, first, OnTurn(policy, s, t))
  {
    InOrderPrompts(policy, first, s, k);
    if t.cancel && s.session.Some? && t.writable {
      RequestsSnoc(s.sent, CancelNotice);
    } else if t.input.Received? {
      match t.input.message
      case PermissionRequest(options) => PermissionSane(policy, first, s, k, options, t.writable);
      case SessionUpdate(_, text) => AnswerInOrder(policy, first, s, k, CancelNotice, s.decisions, s.updates + [text]);
      case Response(id, error, p) => ResponseSane(policy, first, s, k, id, error, p, t.writable);
    }
  }

  /** Session order, for every stream of messages and every moment of cancellation. */
  lemma {:induction false} SessionOrder(policy: Policy, first: int, turns: seq<Turn>)
    ensures Sane(policy, first, Play(policy, Opening(first), turns))
    decreases |turns|
  {
    if turns == [] {
      OpeningInOrder(policy, first);
    } else {
      var front := turns[..|turns| - 1];
      SessionOrder(policy, first, front);
      if Play(policy, Opening(first), front).Going? {
        var s := Play(policy, Opening(first), front).s;
        var k :| InOrder(policy, first, s, k);
        TurnSane(policy, first, s, k, turns[|turns| - 1]);
      }
    }
  }

  /** At a loop head, a response to anything but the one pending request changes nothing, unless its id
      cannot be looked up. */
  lemma {:induction false} OtherResponsesIgnored(policy: Policy, first: int, s: Session, k: nat, id: Id, error: bool, p: Payload, writable: bool)
    requires InOrder(policy, first, s, k) && !id.Unhashable? && id != Number((first + k - 1) as real)
    ensures OnMessage(policy, s, Response(id, error, p), writable) == Going(s)
  {
  }

  /** The turn is a response without error to the pending prompt. */
  predicate AnswersPrompt(t: Turn, id: int) {
    && t.input.Received? && t.input.message.Response? && !t.input.message.error
    && t.input.message.id == Number(id as real)
  }

  /** How a session can end with a result: by a cancellation whose notice was written, or by the response
      to the pending prompt; the exit code tells cancelled, failed and finished work apart. */
  lemma {:induction false} ResultExact(policy: Policy, first: int, s: Session, k: nat, t: Turn)
    requires InOrder(policy, first, s, k)
    ensures
      var cancels := t.cancel && s.session.Some? && t.writable;
      OnTurn(policy, s, t).Finished? <==> cancels || (k == |Script(policy, first)| && AnswersPrompt(t, first + k - 1))
    ensures
      var st := OnTurn(policy, s, t);
      st.Finished? ==>
        && (st.result.exitCode == 130 <==> st.result.cancelled)
        && (st.result.exitCode == 0 <==> !st.result.cancelled && !st.result.failed)
        && st.result.exitCode in {0, 1, 130}
        && (t.cancel && t.writable ==> st.result.cancelled && st.result.finalResult == "" && !st.result.failed && st.s.sent == s.sent + [CancelNotice])
        && st.result.session == s.session && st.result.submitted
  {
    var script := Script(policy, first);
    if k < |script| {
      assert script[k - 1].op != Prompt;
    } else {
      assert script[k - 1].op == Prompt;
    }
  }

  /** The response to the prompt, unless the session is cancelled first. It counts as cancelled by its stop
      reason, its final text is the first nonempty one of its three texts, and that text alone says whether
      the work failed. */
  lemma {:induction false} PromptAnswered(policy: Policy, first: int, s: Session, k: nat, t: Turn)
    requires InOrder(policy, first, s, k) && k == |Script(policy, first)| && AnswersPrompt(t, first + k - 1)
    requires !(t.cancel && t.writable)
    ensures OnTurn(policy, s, t).Finished?
    ensures
      var r, p := OnTurn(policy, s, t).result, t.input.message.payload;
      && (r.cancelled <==> p.Object? && (SlicePlan.LowerAll(p.stopReason) == "cancelled" || SlicePlan.LowerAll(p.stopReason) == "canceled"))
      && (p.NotObject? ==> r.finalResult == "")
      && (p.Object? && p.result != "" ==> r.finalResult == p.result)
      && (p.Object? && p.result == "" && p.text != "" ==> r.finalResult == p.text)
      && (p.Object? && p.result == "" && p.text == "" ==> r.finalResult == p.stopReason)
      && (r.failed <==> SlicePlan.LowerAll(r.finalResult) == "error" || SlicePlan.LowerAll(r.finalResult) == "failed"
                        || SlicePlan.LowerAll(r.finalResult) == "failure")
      && r.exitCode == (if r.cancelled then 130 else if r.failed then 1 else 0)
      && r.submitted && r.session == s.session
  {
    assert Script(policy, first)[k - 1].op == Prompt;
  }

  /** The response is one to the pending request, without error. */
  predicate Answers(m: Message, id: int) {
    m.Response? && !m.error && m.id == Number(id as real)
  }

  /** A permission request is answered at once with what is then recorded; nothing else changes. */
  lemma {:induction false} PermissionAnswered(policy: Policy, s: Session, t: Turn)
    requires t.input.Received? && t.input.message.PermissionRequest? && !(t.cancel && s.session.Some? && t.writable)
    ensures
      var d := if policy.permission == "allow_once" && exists i: nat ::
                    FirstAllowance(t.input.message.options, i) && t.input.message.options[i].id == "allow-once"
               then "allow-once" else "reject-once";
      var s' := s.(decisions := s.decisions + [d], sent := s.sent + [Answer(d)]);
      OnTurn(policy, s, t) == if t.writable then Going(s') else Crashed(s')
  {
    AllowedExactly(t.input.message.options, policy.permission);
  }

  /** The session that the prompt goes to is the one that the child has opened. */
  lemma {:induction false} SessionOpened(policy: Policy, first: int, s: Session, k: nat, t: Turn)
    requires InOrder(policy, first, s, k) && Script(policy, first)[k - 1].op == SessionNew && t.writable
    requires t.input.Received? && Answers(t.input.message, first + k - 1)
    requires t.input.message.payload.Object? && t.input.message.payload.sessionId != ""
    ensures
      var st := OnTurn(policy, s, t);
      && st.Going? && st.s.session == Some(t.input.message.payload.sessionId) && st.s.submitted
      && st.s.sent == s.sent + [Request(first + k, Prompt)] && st.s.updates == s.updates && st.s.decisions == s.decisions
  {
    assert k < |Script(policy, first)|;
  }

  /** How a session fails, and in which phase: the child is silent too long or gone, its output ends or is no
      JSON, it answers the pending request with an error, or it opens no session. */
  lemma {:induction false} FailureExactly(policy: Policy, first: int, s: Session, k: nat, t: Turn)
    requires InOrder(policy, first, s, k) && !(t.cancel && s.session.Some? && t.writable)
    ensures
      var st, op, id := OnTurn(policy, s, t), Script(policy, first)[k - 1].op, first + k - 1;
      var silent := t.input.Quiet? && (t.input.exited || t.input.late);
      var broken := t.input.Closed? || t.input.InvalidJson?;
      var refused := t.input.Received? && t.input.message.Response? && t.input.message.error && t.input.message.id == Number(id as real);
      var unopened := t.input.Received? && op == SessionNew && Answers(t.input.message, id)
                      && (t.input.message.payload.NotObject? || t.input.message.payload.sessionId == "");
      && (st.Failed? <==> silent || broken || refused || unopened)
      && (st.Failed? ==> st.phase == (if silent then RuntimePhase else if broken then ProtocolPhase else InPhase(op)))
      && (st.Failed? ==> (st.submitted <==> k == |Script(policy, first)|))
  {
    var script := Script(policy, first);
    assert script[k - 1].op == Prompt <==> k == |script|;
  }

  /** When writing to the child fails, or the id of a response cannot be looked up, the exception is not one
      that the client declares: with an answer to a permission request, or with the next request. */
  lemma {:induction false} CrashExactly(policy: Policy, first: int, s: Session, k: nat, t: Turn)
    requires InOrder(policy, first, s, k) && !(t.cancel && s.session.Some? && t.writable)
    ensures
      var op, id := Script(policy, first)[k - 1].op, first + k - 1;
      OnTurn(policy, s, t).Crashed? <==>
        t.input.Received? &&
        var m := t.input.message;
        || (m.Response? && m.id.Unhashable?)
        || (!t.writable && m.PermissionRequest?)
        || (!t.writable && Answers(m, id) && op != Prompt && (op == SessionNew ==> m.payload.Object? && m.payload.sessionId != ""))
  {
    var script := Script(policy, first);
    assert script[k - 1].op == Prompt <==> k == |script|;
  }

  // ---- the streamed text ----

  lemma {:induction false} JoinConcat(a: seq<string>, b: seq<string>)
    ensures Join(a + b) == Join(a) + Join(b)
    ensures forall x :: Join([x]) == x
  {
    forall x: string ensures Join([x]) == x {
      assert [x][..0] == [] && Join([]) == "";
    }
    if b == [] {
      assert a + b == a;
    } else {
      JoinConcat(a, b[..|b| - 1]);
      assert (a + b)[..|a + b| - 1] == a + b[..|b| - 1] && (a + b)[|a + b| - 1] == b[|b| - 1];
    }
  }

  /** The texts that the child streamed, as the turns show them. */
  function Streamed(turns: seq<Turn>): seq<string> {
    if turns == [] then []
    else
      var t := turns[|turns| - 1];
      Streamed(turns[..|turns| - 1])
      + if t.input.Received? && t.input.message.SessionUpdate? && t.input.message.chunk && t.input.message.text != ""
        then [t.input.message.text] else []
  }

  lemma {:induction false} UpdatesAreStreamed(policy: Policy, first: int, turns: seq<Turn>)
    requires Play(policy, Opening(first), turns).Going?
    ensures Play(policy, Opening(first), turns).s.updates == Streamed(turns)
    decreases |turns|
  {
    if turns != [] {
      UpdatesAreStreamed(policy, first, turns[..|turns| - 1]);
    }
  }

  /** The streamed text of a result is the concatenation of all chunks received before its last turn, in
      order, whatever came between them. */
  lemma {:induction false} StreamedText(policy: Policy, first: int, turns: seq<Turn>, last: Turn)
    requires Play(policy, Opening(first), turns).Going?
    requires OnTurn(policy, Play(policy, Opening(first), turns).s, last).Finished?
    ensures OnTurn(policy, Play(policy, Opening(first), turns).s, last).result.streamedText == Join(Streamed(turns))
  {
    UpdatesAreStreamed(policy, first, turns);
  }

  /** Once a session has ended, further turns do not matter. */
  lemma {:induction false} EndedStays(policy: Policy, s: Session, turns: seq<Turn>, n: nat)
    requires n <= |turns| && !Play(policy, s, turns[..n]).Going?
    ensures Play(policy, s, turns) == Play(policy, s, turns[..n])
    decreases |turns|
  {
    if n == |turns| {
      assert turns[..n] == turns;
    } else {
      var front := turns[..|turns| - 1];
      assert front[..n] == turns[..n];
      EndedStays(policy, s, front, n);
    }
  }

  /** A proper prefix of the script has no prompt, the whole script one. */
  lemma {:induction false} PrefixPrompts(policy: Policy, first: int, k: nat)
    requires k <= |Script(policy, first)|
    ensures Prompts(Script(policy, first)[..k]) == if k == |Script(policy, first)| then 1 else 0
    decreases k
  {
    var script := Script(policy, first);
    if k > 0 {
      PrefixPrompts(policy, first, k - 1);
      assert script[..k] == script[..k - 1] + [script[k - 1]];
      RequestsSnoc(script[..k - 1], script[k - 1]);
    }
  }

  // ---- the whole run ----

  datatype Launch = NotLaunched | NoStdin | BrokenAtOnce | Launched

  const NOTHING_SENT := Session(0, map[], false, None, [], [], [])

  /** A run of the transport: the child may fail to start, lack a stdin or not take the first request. */
  function Converse(policy: Policy, first: int, launch: Launch, turns: seq<Turn>): Status {
    match launch
    case NotLaunched => Failed(NOTHING_SENT.(nextId := first), RuntimePhase, false)
    case NoStdin => Failed(NOTHING_SENT.(nextId := first + 1), RuntimePhase, false)
    case BrokenAtOnce => Crashed(Opening(first))
    case Launched => Play(policy, Opening(first), turns)
  }

  /** A child that does not start, or has no stdin, is a failure at run time before anything was sent; one
      that breaks on the first request is an exception that the client does not declare. */
  lemma {:induction false} LaunchExactly(policy: Policy, first: int, launch: Launch, turns: seq<Turn>)
    ensures
      var st := Converse(policy, first, launch, turns);
      match launch
      case NotLaunched => st.Failed? && st.phase == RuntimePhase && !st.submitted && st.s.sent == []
      case NoStdin => st.Failed? && st.phase == RuntimePhase && !st.submitted && st.s.sent == []
      case BrokenAtOnce => st.Crashed? && st.s.sent == [Request(first, Initialize)]
      case Launched => turns == [] ==> st.Going? && st.s.sent == [Request(first, Initialize)]
  {
  }

  lemma {:induction false} ConverseSane(policy: Policy, first: int, launch: Launch, turns: seq<Turn>)
    ensures Sane(policy, first, Converse(policy, first, launch, turns))
  {
    SessionOrder(policy, first, turns);
    RequestsSnoc([], Request(first, Initialize));
    assert [] + [Request(first, Initialize)] == [Request(first, Initialize)];
  }
}
