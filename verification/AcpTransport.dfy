/** The ACP client as an object: the counter of ids, the session id and what it has written to the child
    are fields that its methods update. */
module AcpTransport {
  import opened Wrappers
  import opened AcpSession

  class Transport {
    const policy: Policy
    var nextId: int

    // The variables of a run.
    var pending: map<int, Operation>
    var submitted: bool
    var session: Option<string>
    var updates: seq<string>
    var decisions: seq<string>

    /** What has been written to the child, including a last message that may have failed. */
    var sent: seq<Sent>

    /** What has been passed to the stream writer. */
    var written: seq<string>

    function Now(): Session
      reads this
    {
      Session(nextId, pending, submitted, session, updates, decisions, sent)
    }

    constructor (policy: Policy)
      ensures this.policy == policy && nextId == 1
    {
      this.policy, nextId := policy, 1;
      pending, submitted, session, updates, decisions, sent, written := map[], false, None, [], [], [], [];
    }

    method Ask(op: Operation)
      modifies this`nextId, this`pending, this`sent
      ensures Now() == AcpSession.Ask(old(Now()), op)
    {
      sent := sent + [Request(nextId, op)];
      pending := pending[nextId := op];
      nextId := nextId + 1;
    }

    /** `_permission_decision` and the restriction of its answer to the two known options. */
    method Decide(options: seq<PermissionOption>) returns (d: string)
      ensures d == Decision(options, policy.permission)
    {
      d := "reject-once";
      var allow := FindAllowance(options);
      if policy.permission == "allow_once" && allow < |options| {
        d := options[allow].id;
      } else {
        var reject := FindRejection(options);
        if reject < |options| {
          d := options[reject].id;
        }
      }
      if d != "allow-once" && d != "reject-once" {
        d := "reject-once";
      }
    }

    static method FindAllowance(options: seq<PermissionOption>) returns (i: nat)
      ensures FirstAllow(options) == if i < |options| then Some(options[i].id) else None
    {
      i := 0;
      assert options[0..] == options;
      while i < |options| && !Allows(options[i])
        invariant i <= |options| && FirstAllow(options) == FirstAllow(options[i..])
      {
        assert options[i..][0] == options[i] && options[i..][1..] == options[i + 1..];
        i := i + 1;
      }
    }

    static method FindRejection(options: seq<PermissionOption>) returns (i: nat)
      ensures FirstReject(options) == if i < |options| then Some(options[i].id) else None
    {
      i := 0;
      assert options[0..] == options;
      while i < |options| && !Rejects(options[i])
        invariant i <= |options| && FirstReject(options) == FirstReject(options[i..])
      {
        assert options[i..][0] == options[i] && options[i..][1..] == options[i + 1..];
        i := i + 1;
      }
    }

    /** One turn; `ended` is how the session ended, if it did. */
    method Take(t: Turn) returns (ended: Option<Status>)
      modifies this
      ensures if ended.Some? then ended.value == OnTurn(policy, old(Now()), t) && !ended.value.Going?
              else OnTurn(policy, old(Now()), t) == Going(Now())
      ensures old(written) == old(updates) ==> written == updates
      ensures ended.Some? ==> ended.value.s.updates == updates
    {
      ended := None;
      if t.cancel && session.Some? && t.writable {
        sent := sent + [CancelNotice];
        return Some(Close(Now(), "", true));
      }
      match t.input
      case Quiet(exited, late) =>
        if exited || late {
          return Some(Failed(Now(), RuntimePhase, submitted));
        }
      case Closed => return Some(Failed(Now(), ProtocolPhase, submitted));
      case InvalidJson => return Some(Failed(Now(), ProtocolPhase, submitted));
      case NoMessage =>
      case Received(m) =>
        match m {
          case PermissionRequest(options) =>
            var d := Decide(options);
            decisions, sent := decisions + [d], sent + [Answer(d)];
            if !t.writable {
              return Some(Crashed(Now()));
            }
          case SessionUpdate(chunk, text) =>
            if chunk && text != "" {
              updates, written := updates + [text], written + [text];
            }
          case Response(id, error, payload) =>
            if id.Unhashable? {
              return Some(Crashed(Now()));
            }
            var k := Match(pending, id);
            if k.Some? {
              ended := Resolve(k.value, error, payload, t.writable);
            }
        }
    }

    /** The response to the pending request `k`. */
    method Resolve(k: int, error: bool, payload: Payload, writable: bool) returns (ended: Option<Status>)
      requires k in pending
      modifies this`nextId, this`pending, this`submitted, this`session, this`sent
      ensures
        var s := old(Now());
        var t := s.(pending := s.pending - {k});
        var next := if error then Failed(t, InPhase(s.pending[k]), s.submitted) else OnResult(policy, t, s.pending[k], payload, writable);
        if ended.Some? then ended.value == next && !next.Going? && next.s.updates == updates else next == Going(Now())
    {
      var op := pending[k];
      pending := pending - {k};
      ended := None;
      if error {
        return Some(Failed(Now(), InPhase(op), submitted));
      }
      match op {
        case Initialize => Ask(if policy.authMethod != "" then Authenticate else SessionNew);
        case Authenticate => Ask(SessionNew);
        case SessionNew =>
          if payload.NotObject? || payload.sessionId == "" {
            return Some(Failed(Now(), InPhase(SessionNew), false));
          }
          session := Some(payload.sessionId);
          Ask(Prompt);
          if writable {
            submitted := true;
          }
        case Prompt => return Some(Close(Now(), FinalText(payload), StopsCancelled(payload)));
      }
      if !writable {
        return Some(Crashed(Now()));
      }
    }

    /** The run of the transport: the status in which the turns leave it, and what it has streamed. */
    method Run(launch: Launch, turns: seq<Turn>) returns (status: Status)
      modifies this
      ensures status == Converse(policy, old(nextId), launch, turns)
      ensures written == status.s.updates
    {
      pending, submitted, session, updates, decisions, sent, written := map[], false, None, [], [], [], [];
      if launch == NotLaunched {
        return Failed(NOTHING_SENT.(nextId := nextId), RuntimePhase, false);
      }
      ghost var first := nextId;
      if launch == NoStdin {
        nextId := nextId + 1;
        return Failed(NOTHING_SENT.(nextId := nextId), RuntimePhase, false);
      }
      Ask(Initialize);
      if launch == BrokenAtOnce {
        return Crashed(Now());
      }
      for i := 0 to |turns|
        invariant Play(policy, Opening(first), turns[..i]) == Going(Now()) && written == updates
      {
        ghost var s := Now();
        assert turns[..i + 1][..i] == turns[..i];
        var ended := Take(turns[i]);
        if ended.Some? {
          EndedStays(policy, Opening(first), turns, i + 1);
          return ended.value;
        }
      }
      assert turns[..|turns|] == turns;
      status := Going(Now());
    }
  }
}
