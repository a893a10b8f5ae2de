/** The lease protocol of the shared lock store. Every operation is one transaction on the table of
    leases and the append-only event log; an operation that raises leaves both as they were, including
    the expiries it had already begun. Times are instants in seconds (see IsoTime for the printed
    form that the database compares). */
module LockStore {
  import opened IsoTime
  import opened Text

  datatype Owner = Owner(runId: string, feature: string, slice: string)

  datatype Row = Row(scope: string, repo: string, owner: Owner, acquiredAt: int, heartbeatAt: int, expiresAt: int)

  datatype EventKind = AcquireEvent | RenewEvent | DeniedEvent | HeartbeatEvent | ReleaseEvent | ExpireEvent

  datatype Event = Event(lock: string, kind: EventKind, actor: Owner, at: int, details: string)

  datatype Store = Store(rows: map<string, Row>, events: seq<Event>)

  datatype Op =
    | Acquire(lock: string, scope: string, repo: string, owner: Owner, ttl: int, details: string)
    | Heartbeat(lock: string, owner: Owner, ttl: int, details: string)
    | Release(lock: string, owner: Owner, details: string)
    | ExpireStale

  datatype Outcome =
    | Granted
    | Renewed
    | Denied(holder: Row)
    | Beat
    | Released
    | Missing
    | Swept
    | LockNotFound
    | LockNotOwned
    | TimeOverflow
  {
    /** The operation raised, so its transaction rolled back. */
    predicate Raised() { LockNotFound? || LockNotOwned? || TimeOverflow? }

    predicate Grants() { Granted? || Renewed? }
  }

  /** One call: the clock reading it took, the operation, and the order in which the database returned
      the stale rows (which SQL leaves open). */
  datatype Call = Call(now: int, op: Op, sweep: seq<string>)

  const EMPTY := Store(map[], [])

  // ---- transactions ----

  function StaleNames(rows: map<string, Row>, now: int): set<string> {
    set l | l in rows && rows[l].expiresAt <= now
  }

  function Record(s: Store, lock: string, kind: EventKind, actor: Owner, at: int, details: string): Store {
    s.(events := s.events + [Event(lock, kind, actor, at, details)])
  }

  function ExpireOne(s: Store, lock: string, now: int): Store
    requires lock in s.rows
  {
    Record(Store(s.rows - {lock}, s.events), lock, ExpireEvent, s.rows[lock].owner, now, "ttl-expired")
  }

  function Expire(s: Store, now: int, sweep: seq<string>): (r: Store)
    requires NoDuplicates(sweep) && forall l | l in sweep :: l in s.rows
    ensures r.rows == s.rows - set l | l in sweep
    decreases sweep
  {
    if sweep == [] then s
    else
      var t := ExpireOne(s, sweep[0], now);
      assert forall l | l in sweep[1..] :: l in t.rows;
      Expire(t, now, sweep[1..])
  }

  function OrDefault(details: string, default: string): string {
    if details == "" then default else details
  }

  /** Every operation but release sweeps the stale rows first. */
  predicate Enabled(s: Store, c: Call) {
    c.op.Release? || Enumerates(c.sweep, StaleNames(s.rows, c.now))
  }

  function AcquireStep(s: Store, c: Call): (Store, Outcome)
    requires c.op.Acquire? && Enabled(s, c)
  {
    var op, now, expires := c.op, c.now, c.now + LeaseSeconds(c.op.ttl);
    if expires > LastInstant() then (s, TimeOverflow)
    else
      var t := Expire(s, now, c.sweep);
      if op.lock !in t.rows then
        var row := Row(op.scope, op.repo, op.owner, now, now, expires);
        (Record(t.(rows := t.rows[op.lock := row]), op.lock, AcquireEvent, op.owner, now, OrDefault(op.details, "new-lock")), Granted)
      else
        var row := t.rows[op.lock];
        if row.owner == op.owner then
          var renewed := row.(scope := op.scope, repo := op.repo, heartbeatAt := now, expiresAt := expires);
          (Record(t.(rows := t.rows[op.lock := renewed]), op.lock, RenewEvent, op.owner, now, OrDefault(op.details, "owner-renew")), Renewed)
        else
          (Record(t, op.lock, DeniedEvent, op.owner, now, OwnedBy(row.owner)), Denied(row))
  }

  function OwnedBy(o: Owner): string {
    "owned-by:" + o.runId + ":" + o.feature + ":" + o.slice
  }

  function HeartbeatStep(s: Store, c: Call): (Store, Outcome)
    requires c.op.Heartbeat? && Enabled(s, c)
  {
    var op, now, expires := c.op, c.now, c.now + LeaseSeconds(c.op.ttl);
    if expires > LastInstant() then (s, TimeOverflow)
    else
      var t := Expire(s, now, c.sweep);
      if op.lock !in t.rows then (s, LockNotFound)
      else if t.rows[op.lock].owner != op.owner then (s, LockNotOwned)
      else
        var beaten := t.rows[op.lock].(heartbeatAt := now, expiresAt := expires);
        (Record(t.(rows := t.rows[op.lock := beaten]), op.lock, HeartbeatEvent, op.owner, now, OrDefault(op.details, "heartbeat")), Beat)
  }

  /** Release does not expire anything first. */
  function ReleaseStep(s: Store, c: Call): (Store, Outcome)
    requires c.op.Release?
  {
    var op := c.op;
    if op.lock !in s.rows then (s, Missing)
    else if s.rows[op.lock].owner != op.owner then (s, LockNotOwned)
    else (Record(s.(rows := s.rows - {op.lock}), op.lock, ReleaseEvent, op.owner, c.now, OrDefault(op.details, "release")), Released)
  }

  function Step(s: Store, c: Call): (Store, Outcome)
    requires Enabled(s, c)
  {
    match c.op
    case Acquire(_, _, _, _, _, _) => AcquireStep(s, c)
    case Heartbeat(_, _, _, _) => HeartbeatStep(s, c)
    case Release(_, _, _) => ReleaseStep(s, c)
    case ExpireStale => (Expire(s, c.now, c.sweep), Swept)
  }

  function Next(s: Store, c: Call): Store
    requires Enabled(s, c)
  {
    Step(s, c).0
  }

  // ---- histories ----

  ghost predicate Legal(s: Store, h: seq<Call>)
    decreases h
  {
    h == [] || (Enabled(s, h[0]) && Legal(Next(s, h[0]), h[1..]))
  }

  /** The store before call `i` of `h`; `StoreAt(s, h, |h|)` is the store after all of `h`. */
  ghost function StoreAt(s: Store, h: seq<Call>, i: nat): Store
    requires Legal(s, h) && i <= |h|
    decreases h
  {
    if i == 0 then s else StoreAt(Next(s, h[0]), h[1..], i - 1)
  }

  lemma {:induction false} EnabledAt(s: Store, h: seq<Call>, i: nat)
    requires Legal(s, h) && i < |h|
    ensures Enabled(StoreAt(s, h, i), h[i])
    ensures StoreAt(s, h, i + 1) == Next(StoreAt(s, h, i), h[i])
    decreases h
  {
    if i > 0 {
      EnabledAt(Next(s, h[0]), h[1..], i - 1);
    }
  }

  ghost function OutcomeAt(s: Store, h: seq<Call>, i: nat): Outcome
    requires Legal(s, h) && i < |h|
  {
    EnabledAt(s, h, i);
    Step(StoreAt(s, h, i), h[i]).1
  }

  predicate Nondecreasing(h: seq<Call>) {
    forall i, j | 0 <= i < j < |h| :: h[i].now <= h[j].now
  }

  // ---- what a step does to one row ----

  predicate Holds(s: Store, l: string, o: Owner) {
    l in s.rows && s.rows[l].owner == o
  }

  predicate Addresses(op: Op, l: string, o: Owner) {
    !op.ExpireStale? && op.lock == l && op.owner == o
  }

  /** Ownership of a lock changes only by its own calls: it is gained by the owner's acquire, and lost by
      the owner's release or by lapsing. */
  lemma OwnershipStep(s: Store, c: Call, l: string, o: Owner)
    requires Enabled(s, c)
    ensures Holds(Next(s, c), l, o) && !Holds(s, l, o) ==> c.op.Acquire? && Addresses(c.op, l, o) && Step(s, c).1.Granted?
    ensures Holds(s, l, o) && !Holds(Next(s, c), l, o) ==>
              (c.op.Release? && Addresses(c.op, l, o)) || (!c.op.Release? && s.rows[l].expiresAt <= c.now)
    ensures Holds(s, l, o) && Holds(Next(s, c), l, o) && !Addresses(c.op, l, o) ==> Next(s, c).rows[l] == s.rows[l]
    ensures Step(s, c).1.Raised() ==> Next(s, c) == s
  {
  }

  // ---- what each operation writes ----

  /** The expiries of a sweep, in its order. */
  function Expiries(s: Store, now: int, sweep: seq<string>): seq<Event>
    requires forall l | l in sweep :: l in s.rows
  {
    seq(|sweep|, i requires 0 <= i < |sweep| => Event(sweep[i], ExpireEvent, s.rows[sweep[i]].owner, now, "ttl-expired"))
  }

  lemma {:induction false} ExpireLogs(s: Store, now: int, sweep: seq<string>)
    requires NoDuplicates(sweep) && forall l | l in sweep :: l in s.rows
    ensures Expire(s, now, sweep).events == s.events + Expiries(s, now, sweep)
    decreases sweep
  {
    if sweep != [] {
      var t := ExpireOne(s, sweep[0], now);
      assert forall l | l in sweep[1..] :: l in t.rows && t.rows[l] == s.rows[l];
      ExpireLogs(t, now, sweep[1..]);
      assert Expiries(s, now, sweep) == [Event(sweep[0], ExpireEvent, s.rows[sweep[0]].owner, now, "ttl-expired")] + Expiries(t, now, sweep[1..]);
    }
  }

  /** The rows that have not lapsed. */
  function Alive(rows: map<string, Row>, now: int): map<string, Row> {
    map l | l in rows && now < rows[l].expiresAt :: rows[l]
  }

  lemma {:induction false} SweepLeaves(s: Store, c: Call)
    requires !c.op.Release? && Enabled(s, c)
    ensures Expire(s, c.now, c.sweep).rows == Alive(s.rows, c.now)
    ensures Expire(s, c.now, c.sweep).events == s.events + Expiries(s, c.now, c.sweep)
  {
    ExpireLogs(s, c.now, c.sweep);
    assert forall l :: l in Alive(s.rows, c.now) <==> l in s.rows && l !in c.sweep;
  }

  /** What an acquire leaves behind. A lock that is free or lapsed is granted from now on, the owner's own
      lease is renewed under its old date of acquisition, and a lease of someone else stays as it is. */
  lemma {:induction false} AcquireExact(s: Store, c: Call)
    requires c.op.Acquire? && Enabled(s, c)
    ensures
      var (t, r) := Step(s, c);
      var op, alive, lapse := c.op, Alive(s.rows, c.now), c.now + if c.op.ttl >= 1 then c.op.ttl else 1;
      var logged := s.events + Expiries(s, c.now, c.sweep);
      if lapse > LastInstant() then t == s && r == TimeOverflow
      else if op.lock !in alive then
        && r == Granted && t.rows == alive[op.lock := Row(op.scope, op.repo, op.owner, c.now, c.now, lapse)]
        && t.events == logged + [Event(op.lock, AcquireEvent, op.owner, c.now, if op.details == "" then "new-lock" else op.details)]
      else if alive[op.lock].owner == op.owner then
        && r == Renewed && t.rows == alive[op.lock := Row(op.scope, op.repo, op.owner, alive[op.lock].acquiredAt, c.now, lapse)]
        && t.events == logged + [Event(op.lock, RenewEvent, op.owner, c.now, if op.details == "" then "owner-renew" else op.details)]
      else
        var o := alive[op.lock].owner;
        && r == Denied(alive[op.lock]) && t.rows == alive
        && t.events == logged + [Event(op.lock, DeniedEvent, op.owner, c.now, "owned-by:" + o.runId + ":" + o.feature + ":" + o.slice)]
  {
    SweepLeaves(s, c);
  }

  /** What a heartbeat that succeeds leaves behind; `HeartbeatExact` says when it does. */
  lemma {:induction false} BeatExact(s: Store, c: Call)
    requires c.op.Heartbeat? && Enabled(s, c) && Step(s, c).1 == Beat
    ensures
      var t, op, alive := Next(s, c), c.op, Alive(s.rows, c.now);
      && op.lock in alive
      && t.rows == alive[op.lock := alive[op.lock].(heartbeatAt := c.now, expiresAt := c.now + if op.ttl >= 1 then op.ttl else 1)]
      && t.events == s.events + Expiries(s, c.now, c.sweep)
                     + [Event(op.lock, HeartbeatEvent, op.owner, c.now, if op.details == "" then "heartbeat" else op.details)]
  {
    SweepLeaves(s, c);
  }

  /** A release by the owner takes its row away, lapsed or not; no other release changes anything. */
  lemma {:induction false} ReleaseExact(s: Store, c: Call)
    requires c.op.Release?
    ensures
      var (t, r) := Step(s, c);
      var op := c.op;
      if op.lock !in s.rows then t == s && r == Missing
      else if s.rows[op.lock].owner != op.owner then t == s && r == LockNotOwned
      else
        && r == Released && (forall l :: l in t.rows <==> l in s.rows && l != op.lock) && (forall l | l in t.rows :: t.rows[l] == s.rows[l])
        && t.events == s.events + [Event(op.lock, ReleaseEvent, op.owner, c.now, if op.details == "" then "release" else op.details)]
  {
  }

  /** A sweep takes away exactly the rows that have lapsed, and logs each for its owner. */
  lemma {:induction false} SweepExact(s: Store, c: Call)
    requires c.op.ExpireStale? && Enabled(s, c)
    ensures Next(s, c).rows == Alive(s.rows, c.now) && Next(s, c).events == s.events + Expiries(s, c.now, c.sweep)
    ensures forall l :: l in c.sweep <==> l in s.rows && s.rows[l].expiresAt <= c.now
  {
    SweepLeaves(s, c);
  }

  // ---- the log replays to the table ----

  datatype Held = Held(owner: Owner, acquiredAt: int, heartbeatAt: int)

  datatype Replayed = Table(held: map<string, Held>) | Inconsistent

  /** Fold the log into a table, rejecting it at the first event that the table so far contradicts: an
      acquire of a held lock, a renewal, heartbeat, release or expiry of a lock that its actor does not
      hold, a denial of a free lock or of the holder itself. */
  function Replay(events: seq<Event>): Replayed {
    if events == [] then Table(map[])
    else
      match Replay(events[..|events| - 1])
      case Inconsistent => Inconsistent
      case Table(m) => ReplayEvent(m, events[|events| - 1])
  }

  function ReplayEvent(m: map<string, Held>, e: Event): Replayed {
    var holds := e.lock in m && m[e.lock].owner == e.actor;
    match e.kind
    case AcquireEvent => if e.lock in m then Inconsistent else Table(m[e.lock := Held(e.actor, e.at, e.at)])
    case RenewEvent => if holds then Table(m[e.lock := m[e.lock].(heartbeatAt := e.at)]) else Inconsistent
    case HeartbeatEvent => if holds then Table(m[e.lock := m[e.lock].(heartbeatAt := e.at)]) else Inconsistent
    case DeniedEvent => if e.lock in m && !holds then Table(m) else Inconsistent
    case ReleaseEvent => if holds then Table(m - {e.lock}) else Inconsistent
    case ExpireEvent => if holds then Table(m - {e.lock}) else Inconsistent
  }

  function Shadow(rows: map<string, Row>): map<string, Held> {
    map l | l in rows :: Held(rows[l].owner, rows[l].acquiredAt, rows[l].heartbeatAt)
  }

  predicate Faithful(s: Store) {
    Replay(s.events) == Table(Shadow(s.rows))
  }

  lemma RecordReplays(s: Store, rows': map<string, Row>, e: Event)
    requires Faithful(s)
    requires ReplayEvent(Shadow(s.rows), e) == Table(Shadow(rows'))
    ensures Faithful(Store(rows', s.events + [e]))
  {
    assert (s.events + [e])[..|s.events + [e]| - 1] == s.events;
  }

  lemma {:induction false} ExpireFaithful(s: Store, now: int, sweep: seq<string>)
    requires Faithful(s)
    requires NoDuplicates(sweep) && forall l | l in sweep :: l in s.rows
    ensures Faithful(Expire(s, now, sweep))
    decreases sweep
  {
    if sweep != [] {
      var l := sweep[0];
      assert Shadow(s.rows - {l}) == Shadow(s.rows) - {l};
      RecordReplays(s, s.rows - {l}, Event(l, ExpireEvent, s.rows[l].owner, now, "ttl-expired"));
      var t := ExpireOne(s, l, now);
      assert forall m | m in sweep[1..] :: m in t.rows;
      ExpireFaithful(t, now, sweep[1..]);
    }
  }

  lemma ExpireFaithfully(s: Store, c: Call)
    requires !c.op.Release? && Enabled(s, c) && Faithful(s)
    ensures Faithful(Expire(s, c.now, c.sweep))
  {
    ExpireFaithful(s, c.now, c.sweep);
  }

  lemma ReleaseFaithful(s: Store, c: Call)
    requires c.op.Release? && Faithful(s)
    ensures Faithful(ReleaseStep(s, c).0)
  {
    var l := c.op.lock;
    if Holds(s, l, c.op.owner) {
      assert Shadow(s.rows - {l}) == Shadow(s.rows) - {l};
      RecordReplays(s, s.rows - {l}, Event(l, ReleaseEvent, c.op.owner, c.now, OrDefault(c.op.details, "release")));
    }
  }

  lemma InsertFaithful(t: Store, l: string, row: Row, details: string)
    requires Faithful(t) && l !in t.rows && row.acquiredAt == row.heartbeatAt
    ensures Faithful(Record(t.(rows := t.rows[l := row]), l, AcquireEvent, row.owner, row.heartbeatAt, details))
  {
    assert Shadow(t.rows[l := row]) == Shadow(t.rows)[l := Held(row.owner, row.acquiredAt, row.heartbeatAt)];
    RecordReplays(t, t.rows[l := row], Event(l, AcquireEvent, row.owner, row.heartbeatAt, details));
  }

  lemma RefreshFaithful(t: Store, l: string, row: Row, kind: EventKind, details: string)
    requires Faithful(t) && Holds(t, l, row.owner) && row.acquiredAt == t.rows[l].acquiredAt
    requires kind.RenewEvent? || kind.HeartbeatEvent?
    ensures Faithful(Record(t.(rows := t.rows[l := row]), l, kind, row.owner, row.heartbeatAt, details))
  {
    assert Shadow(t.rows[l := row]) == Shadow(t.rows)[l := Shadow(t.rows)[l].(heartbeatAt := row.heartbeatAt)];
    RecordReplays(t, t.rows[l := row], Event(l, kind, row.owner, row.heartbeatAt, details));
  }

  lemma HeartbeatFaithful(s: Store, c: Call)
    requires c.op.Heartbeat? && Enabled(s, c) && Faithful(s)
    ensures Faithful(HeartbeatStep(s, c).0)
  {
    ExpireFaithfully(s, c);
    if HeartbeatStep(s, c).1.Beat? {
      var row := HeartbeatStep(s, c).0.rows[c.op.lock];
      RefreshFaithful(Expire(s, c.now, c.sweep), c.op.lock, row, HeartbeatEvent, OrDefault(c.op.details, "heartbeat"));
    }
  }

  lemma AcquireFaithful(s: Store, c: Call)
    requires c.op.Acquire? && Enabled(s, c) && Faithful(s)
    ensures Faithful(AcquireStep(s, c).0)
  {
    ExpireFaithfully(s, c);
    var t, op, l := Expire(s, c.now, c.sweep), c.op, c.op.lock;
    match AcquireStep(s, c).1
    case Granted =>
      InsertFaithful(t, l, AcquireStep(s, c).0.rows[l], OrDefault(op.details, "new-lock"));
    case Renewed =>
      RefreshFaithful(t, l, AcquireStep(s, c).0.rows[l], RenewEvent, OrDefault(op.details, "owner-renew"));
    case Denied(row) =>
      RecordReplays(t, t.rows, Event(l, DeniedEvent, op.owner, c.now, OwnedBy(row.owner)));
    case _ =>
  }

  lemma StepFaithful(s: Store, c: Call)
    requires Enabled(s, c) && Faithful(s)
    ensures Faithful(Next(s, c))
  {
    match c.op
    case Acquire(_, _, _, _, _, _) => AcquireFaithful(s, c);
    case Heartbeat(_, _, _, _) => HeartbeatFaithful(s, c);
    case Release(_, _, _) => ReleaseFaithful(s, c);
    case ExpireStale => ExpireFaithfully(s, c);
  }

  /** After every sequence of operations, whatever the clock did and whichever of them raised, the log
      is consistent and folding it gives the table: its locks, their owners and both timestamps. */
  lemma {:induction false} LogReplay(s: Store, h: seq<Call>)
    requires Legal(s, h) && Faithful(s)
    ensures Faithful(StoreAt(s, h, |h|))
    decreases h
  {
    if h != [] {
      StepFaithful(s, h[0]);
      LogReplay(Next(s, h[0]), h[1..]);
    }
  }

  lemma LogReplayFromEmpty(h: seq<Call>)
    requires Legal(EMPTY, h)
    ensures Replay(StoreAt(EMPTY, h, |h|).events) == Table(Shadow(StoreAt(EMPTY, h, |h|).rows))
  {
    assert Shadow(EMPTY.rows) == map[];
    LogReplay(EMPTY, h);
  }

  // ---- leases ----

  ghost predicate NeverAcquires(h: seq<Call>, l: string, o: Owner) {
    forall c | c in h :: !(c.op.Acquire? && Addresses(c.op, l, o))
  }

  lemma {:induction false} LostStaysLost(s: Store, h: seq<Call>, l: string, o: Owner)
    requires Legal(s, h) && NeverAcquires(h, l, o) && !Holds(s, l, o)
    ensures !Holds(StoreAt(s, h, |h|), l, o)
    decreases h
  {
    if h != [] {
      assert h[0] in h;
      OwnershipStep(s, h[0], l, o);
      LostStaysLost(Next(s, h[0]), h[1..], l, o);
    }
  }

  /** If the owner still holds the lock after calls among which it never acquired it, then it held it
      throughout on the same grant. */
  lemma {:induction false} HeldThroughout(s: Store, h: seq<Call>, l: string, o: Owner, i: nat)
    requires Legal(s, h) && NeverAcquires(h, l, o) && Holds(StoreAt(s, h, |h|), l, o)
    requires i <= |h|
    ensures Holds(s, l, o) && Holds(StoreAt(s, h, i), l, o)
    ensures StoreAt(s, h, i).rows[l].acquiredAt == s.rows[l].acquiredAt
    decreases h
  {
    if h == [] {
      return;
    }
    assert h[0] in h;
    var t := Next(s, h[0]);
    HeldThroughout(t, h[1..], l, o, if i == 0 then 0 else i - 1);
    OwnershipStep(s, h[0], l, o);
    assert Holds(s, l, o);
  }

  /** Lease continuity. A grant to `o`, later calls without an acquire by `o`, then a heartbeat of `o`
      that succeeds: in between nobody was granted the lock, whatever the clock did, and the row is
      still the one of that grant. */
  lemma {:induction false} LeaseContinuity(s: Store, grant: Call, h: seq<Call>, beat: Call, l: string, o: Owner)
    requires Enabled(s, grant) && grant.op.Acquire? && Addresses(grant.op, l, o) && Step(s, grant).1.Grants()
    requires Legal(Next(s, grant), h) && NeverAcquires(h, l, o)
    requires Enabled(StoreAt(Next(s, grant), h, |h|), beat)
    requires beat.op.Heartbeat? && Addresses(beat.op, l, o)
    requires Step(StoreAt(Next(s, grant), h, |h|), beat).1 == Beat
    ensures forall i | 0 <= i < |h| && h[i].op.Acquire? && h[i].op.lock == l ::
              !OutcomeAt(Next(s, grant), h, i).Grants()
    ensures forall i | 0 <= i < |h| && h[i].op.Release? && h[i].op.lock == l ::
              OutcomeAt(Next(s, grant), h, i) == LockNotOwned
    ensures Next(StoreAt(Next(s, grant), h, |h|), beat).rows[l].acquiredAt == Next(s, grant).rows[l].acquiredAt
  {
    var t := Next(s, grant);
    HeldThroughout(t, h, l, o, |h|);
    forall i | 0 <= i < |h| && h[i].op.Acquire? && h[i].op.lock == l
      ensures !OutcomeAt(t, h, i).Grants()
    {
      assert h[i] in h;
      HeldThroughout(t, h, l, o, i);
      HeldThroughout(t, h, l, o, i + 1);
      EnabledAt(t, h, i);
    }
    forall i | 0 <= i < |h| && h[i].op.Release? && h[i].op.lock == l
      ensures OutcomeAt(t, h, i) == LockNotOwned
    {
      HeldThroughout(t, h, l, o, i);
      HeldThroughout(t, h, l, o, i + 1);
      EnabledAt(t, h, i);
    }
  }

  /** A heartbeat succeeds exactly when its owner still has an unlapsed lease (and the new expiry can be
      represented); otherwise it raises and the whole transaction, sweep included, is undone. */
  lemma HeartbeatExact(s: Store, c: Call)
    requires Enabled(s, c) && c.op.Heartbeat?
    ensures Step(s, c).1 == Beat <==>
              Holds(s, c.op.lock, c.op.owner) && c.now < s.rows[c.op.lock].expiresAt
              && c.now + (if c.op.ttl >= 1 then c.op.ttl else 1) <= LastInstant()
    ensures Step(s, c).1 != Beat ==> Step(s, c).1.Raised() && Next(s, c) == s
    ensures Step(s, c).1 == TimeOverflow <==> c.now + (if c.op.ttl >= 1 then c.op.ttl else 1) > LastInstant()
    ensures Step(s, c).1 == LockNotFound ==> c.op.lock !in s.rows || s.rows[c.op.lock].expiresAt <= c.now
    ensures Step(s, c).1 == LockNotOwned ==> c.op.lock in s.rows && s.rows[c.op.lock].owner != c.op.owner && c.now < s.rows[c.op.lock].expiresAt
    ensures Step(s, c).1 in {Beat, TimeOverflow, LockNotFound, LockNotOwned}
  {
  }

  ghost predicate Untouched(h: seq<Call>, l: string, o: Owner) {
    forall c | c in h :: !Addresses(c.op, l, o)
  }

  lemma {:induction false} RowKept(s: Store, h: seq<Call>, l: string, o: Owner)
    requires Legal(s, h) && Untouched(h, l, o) && Holds(s, l, o)
    requires forall c | c in h :: c.now < s.rows[l].expiresAt
    ensures Holds(StoreAt(s, h, |h|), l, o) && StoreAt(s, h, |h|).rows[l] == s.rows[l]
    decreases h
  {
    if h != [] {
      assert h[0] in h;
      OwnershipStep(s, h[0], l, o);
      RowKept(Next(s, h[0]), h[1..], l, o);
    }
  }

  /** Until someone acquires it at or after `e`, lock `l` is either the unlapsed-or-lapsed row of `o` or free. */
  lemma {:induction false} RowOrFree(s: Store, h: seq<Call>, l: string, o: Owner, e: int)
    requires Legal(s, h) && Untouched(h, l, o) && Nondecreasing(h)
    requires l in s.rows ==> Holds(s, l, o) && s.rows[l].expiresAt == e
    requires l !in s.rows ==> forall c | c in h :: e <= c.now
    requires forall c | c in h && c.op.Acquire? && c.op.lock == l :: c.now < e
    ensures l in StoreAt(s, h, |h|).rows ==> Holds(StoreAt(s, h, |h|), l, o) && StoreAt(s, h, |h|).rows[l].expiresAt == e
    decreases h
  {
    if h != [] {
      assert h[0] in h;
      var t := Next(s, h[0]);
      OwnershipStep(s, h[0], l, o);
      if l in s.rows {
        if l in t.rows {
          OwnershipStep(s, h[0], l, t.rows[l].owner);
        } else {
          assert e <= h[0].now;
        }
      } else if l in t.rows {
        OwnershipStep(s, h[0], l, t.rows[l].owner);
        assert false;
      }
      assert forall c | c in h[1..] :: c in h;
      RowOrFree(t, h[1..], l, o, e);
    }
  }

  lemma {:induction false} LegalPrefix(s: Store, h: seq<Call>, i: nat)
    requires Legal(s, h) && i <= |h|
    ensures Legal(s, h[..i]) && StoreAt(s, h[..i], i) == StoreAt(s, h, i)
    decreases h
  {
    if i > 0 {
      LegalPrefix(Next(s, h[0]), h[1..], i - 1);
      assert h[..i][1..] == h[1..][..i - 1];
    }
  }

  lemma {:induction false} DeniedWithin(t: Store, h: seq<Call>, l: string, o: Owner, i: nat)
    requires Legal(t, h) && Untouched(h, l, o) && Nondecreasing(h) && Holds(t, l, o)
    requires i < |h| && h[i].op.Acquire? && h[i].op.lock == l
    requires h[i].now < t.rows[l].expiresAt && h[i].now + LeaseSeconds(h[i].op.ttl) <= LastInstant()
    ensures OutcomeAt(t, h, i).Denied? && OutcomeAt(t, h, i).holder == t.rows[l]
  {
    LegalPrefix(t, h, i);
    EnabledAt(t, h, i);
    var p := h[..i];
    assert h[i] in h;
    assert forall d | d in p :: d in h && d.now <= h[i].now;
    RowKept(t, p, l, o);
  }

  lemma {:induction false} GrantedAfter(t: Store, h: seq<Call>, l: string, o: Owner, i: nat)
    requires Legal(t, h) && Untouched(h, l, o) && Nondecreasing(h) && Holds(t, l, o)
    requires i < |h| && h[i].op.Acquire? && h[i].op.lock == l
    requires t.rows[l].expiresAt <= h[i].now && h[i].now + LeaseSeconds(h[i].op.ttl) <= LastInstant()
    requires forall j | 0 <= j < i && h[j].op.Acquire? && h[j].op.lock == l :: h[j].now < t.rows[l].expiresAt
    ensures OutcomeAt(t, h, i) == Granted
  {
    LegalPrefix(t, h, i);
    EnabledAt(t, h, i);
    var p := h[..i];
    assert forall d | d in p :: d in h;
    RowOrFree(t, p, l, o, t.rows[l].expiresAt);
  }

  /** The lease window. `o` was granted `l`, or heartbeated it, by call `c` with ttl `d`; the clock does
      not run backwards and `o` makes no further call on `l`. Then every acquire of `l` by another owner
      before `c.now + max(1, d)` is denied in favour of `o`, and the first one at or after that time is
      granted (each unless its own expiry cannot be represented). */
  lemma {:induction false} LeaseWindow(s: Store, c: Call, h: seq<Call>, l: string, o: Owner, i: nat)
    requires Enabled(s, c) && !c.op.Release? && Addresses(c.op, l, o)
    requires Step(s, c).1.Grants() || Step(s, c).1.Beat?
    requires Legal(Next(s, c), h) && Nondecreasing(h) && Untouched(h, l, o)
    requires i < |h| && h[i].op.Acquire? && h[i].op.lock == l && h[i].now + (if h[i].op.ttl >= 1 then h[i].op.ttl else 1) <= LastInstant()
    requires forall j | 0 <= j < i && h[j].op.Acquire? && h[j].op.lock == l :: h[j].now < c.now + (if c.op.ttl >= 1 then c.op.ttl else 1)
    ensures
      var lapse := c.now + if c.op.ttl >= 1 then c.op.ttl else 1;
      && (OutcomeAt(Next(s, c), h, i) == Granted <==> lapse <= h[i].now)
      && (h[i].now < lapse ==> OutcomeAt(Next(s, c), h, i).Denied? && OutcomeAt(Next(s, c), h, i).holder.owner == o)
  {
    var t := Next(s, c);
    assert Holds(t, l, o) && t.rows[l].expiresAt == c.now + LeaseSeconds(c.op.ttl);
    if h[i].now < t.rows[l].expiresAt {
      DeniedWithin(t, h, l, o, i);
    } else {
      GrantedAfter(t, h, l, o, i);
    }
  }

  // ---- timestamps of a row ----

  /** No row was touched after `clock`. */
  predicate Ordered(s: Store, clock: int) {
    forall l | l in s.rows ::
      s.rows[l].acquiredAt <= s.rows[l].heartbeatAt < s.rows[l].expiresAt && s.rows[l].heartbeatAt <= clock
  }

  lemma StepOrdered(s: Store, c: Call, clock: int)
    requires Enabled(s, c) && Ordered(s, clock) && clock <= c.now
    ensures Ordered(Next(s, c), c.now)
  {
  }

  /** With a clock that does not run backwards every row keeps acquired_at <= heartbeat_at < expires_at. */
  lemma {:induction false} RowsOrdered(s: Store, h: seq<Call>, clock: int)
    requires Legal(s, h) && Nondecreasing(h) && Ordered(s, clock)
    requires h != [] ==> clock <= h[0].now
    ensures Ordered(StoreAt(s, h, |h|), if h == [] then clock else h[|h| - 1].now)
    decreases h
  {
    if h != [] {
      StepOrdered(s, h[0], clock);
      RowsOrdered(Next(s, h[0]), h[1..], h[0].now);
    }
  }
}
