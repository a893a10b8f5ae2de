/** The in-memory lock table that the scheduler uses when it is given no shared store. */
module LocalLocks {
  import opened Text
  import opened SlicePlan

  datatype Lease = Lease(owner: string, reason: string, expires: real)

  datatype EventKind = Acquired | Released | Denied | Expired

  datatype LockEvent = LockEvent(kind: EventKind, lock: string, owner: string)

  datatype Locks = Locks(table: map<string, Lease>, events: seq<LockEvent>)

  const NO_LOCKS := Locks(map[], [])

  function Log(l: Locks, kind: EventKind, lock: string, owner: string): Locks {
    l.(events := l.events + [LockEvent(kind, lock, owner)])
  }

  function Renewed(p: Lease, now: real, ttl: int): Lease {
    p.(reason := "heartbeat-renew", expires := now + ttl as real)
  }

  /** Heartbeat: every lease of a running slice is extended. */
  function Beat(l: Locks, running: set<string>, now: real, ttl: int): Locks {
    l.(table := map k | k in l.table :: if l.table[k].owner in running then Renewed(l.table[k], now, ttl) else l.table[k])
  }

  // ---- acquiring ----

  /** Leases that have lapsed and whose owner no longer runs; these are removed. */
  function Orphans(table: map<string, Lease>, running: set<string>, now: real): set<string> {
    set k | k in table && table[k].expires <= now && table[k].owner !in running
  }

  function Drop(l: Locks, order: seq<string>, kind: EventKind): Locks
    requires NoDuplicates(order) && forall k | k in order :: k in l.table
    decreases order
  {
    if order == [] then l
    else
      var k := order[0];
      var dropped := Log(l.(table := l.table - {k}), kind, k, l.table[k].owner);
      assert forall m | m in order[1..] :: m in dropped.table;
      Drop(dropped, order[1..], kind)
  }

  function RenewLapsed(table: map<string, Lease>, running: set<string>, now: real, ttl: int): map<string, Lease> {
    map k | k in table ::
      if table[k].expires <= now && table[k].owner in running then Renewed(table[k], now, ttl) else table[k]
  }

  ghost function Swept(l: Locks, running: set<string>, now: real, ttl: int, order: seq<string>): Locks
    requires Enumerates(order, Orphans(l.table, running, now))
  {
    Drop(l.(table := RenewLapsed(l.table, running, now, ttl)), order, Expired)
  }

  predicate HeldByOther(table: map<string, Lease>, lock: string, j: string) {
    lock in table && table[lock].owner != j
  }

  /** The index of the first lock held by another slice, or `|locks|`. */
  function FirstHeld(table: map<string, Lease>, locks: seq<string>, j: string): (i: nat)
    ensures i <= |locks|
    ensures forall k | 0 <= k < i :: !HeldByOther(table, locks[k], j)
    ensures i < |locks| ==> HeldByOther(table, locks[i], j)
  {
    if locks == [] || HeldByOther(table, locks[0], j) then 0 else 1 + FirstHeld(table, locks[1..], j)
  }

  function TakeAll(l: Locks, locks: seq<string>, j: string, expires: real): Locks {
    if locks == [] then l
    else
      var front, last := locks[..|locks| - 1], locks[|locks| - 1];
      var t := TakeAll(l, front, j, expires);
      Log(t.(table := t.table[last := Lease(j, "slice-execution", expires)]), Acquired, last, j)
  }

  /** All the locks, or none. */
  function Grab(l: Locks, locks: seq<string>, j: string, expires: real): (Locks, bool) {
    var i := FirstHeld(l.table, locks, j);
    if i < |locks| then (Log(l, Denied, locks[i], j), false) else (TakeAll(l, locks, j, expires), true)
  }

  ghost function Acquire(l: Locks, running: set<string>, locks: seq<string>, j: string, now: real, ttl: int, order: seq<string>): (Locks, bool)
    requires Enumerates(order, Orphans(l.table, running, now))
  {
    Grab(Swept(l, running, now, ttl, order), locks, j, now + ttl as real)
  }

  // ---- releasing ----

  function OwnedBy(table: map<string, Lease>, j: string): set<string> {
    set k | k in table && table[k].owner == j
  }

  ghost function Release(l: Locks, j: string, order: seq<string>): Locks
    requires Enumerates(order, OwnedBy(l.table, j))
  {
    Drop(l, order, Released)
  }

  // ---- what the table means ----

  function Owners(table: map<string, Lease>): map<string, string> {
    map k | k in table :: table[k].owner
  }

  /** The table maps precisely the semantic locks of the running slices to those slices. */
  ghost predicate Exact(plan: Plan, running: set<string>, table: map<string, Lease>) {
    && (forall k | k in table :: table[k].owner in running && table[k].owner in plan && k in plan[table[k].owner].semanticLocks)
    && (forall j, k | j in running && j in plan && k in plan[j].semanticLocks :: k in table && table[k].owner == j)
  }

  /** Running slices have disjoint semantic locks. */
  lemma {:induction false} ExactDisjoint(plan: Plan, running: set<string>, table: map<string, Lease>, i: string, j: string)
    requires Exact(plan, running, table) && i in running && j in running && i in plan && j in plan && i != j
    ensures forall k | k in plan[i].semanticLocks :: k !in plan[j].semanticLocks
  {
    forall k | k in plan[i].semanticLocks ensures k !in plan[j].semanticLocks {
      assert table[k].owner == i;
    }
  }

  /** Removing a lapsed lease cannot happen: whatever the clock and the ttl, every lease belongs to a
      running slice, so the sweep only renews. */
  lemma {:induction false} ExpiryUnreachable(plan: Plan, l: Locks, running: set<string>, now: real, ttl: int, order: seq<string>)
    requires Exact(plan, running, l.table) && Enumerates(order, Orphans(l.table, running, now))
    ensures Orphans(l.table, running, now) == {} && order == []
    ensures Swept(l, running, now, ttl, order).events == l.events
    ensures Owners(Swept(l, running, now, ttl, order).table) == Owners(l.table)
    ensures Exact(plan, running, Swept(l, running, now, ttl, order).table)
  {
    assert Orphans(l.table, running, now) == {};
    NonemptyIff(order);
  }

  lemma {:induction false} BeatKeepsOwners(plan: Plan, l: Locks, running: set<string>, now: real, ttl: int)
    ensures Owners(Beat(l, running, now, ttl).table) == Owners(l.table)
    ensures Beat(l, running, now, ttl).events == l.events
    ensures Exact(plan, running, l.table) ==> Exact(plan, running, Beat(l, running, now, ttl).table)
  {
  }

  lemma {:induction false} TakeAllTable(l: Locks, locks: seq<string>, j: string, expires: real)
    ensures forall k :: k in TakeAll(l, locks, j, expires).table <==> k in l.table || k in locks
    ensures forall k | k in TakeAll(l, locks, j, expires).table ::
              TakeAll(l, locks, j, expires).table[k] == if k in locks then Lease(j, "slice-execution", expires) else l.table[k]
  {
    if locks != [] {
      var front, last := locks[..|locks| - 1], locks[|locks| - 1];
      TakeAllTable(l, front, j, expires);
      assert locks == front + [last];
    }
  }

  lemma {:induction false} TakeExact(plan: Plan, running: set<string>, l: Locks, j: string, expires: real)
    requires Exact(plan, running, l.table) && j in plan && j !in running
    requires forall k | k in plan[j].semanticLocks :: k !in l.table
    ensures Exact(plan, running + {j}, TakeAll(l, plan[j].semanticLocks, j, expires).table)
  {
    TakeAllTable(l, plan[j].semanticLocks, j, expires);
  }

  lemma {:induction false} FirstHeldExact(plan: Plan, running: set<string>, table: map<string, Lease>, locks: seq<string>, j: string)
    requires Exact(plan, running, table) && j !in running
    ensures FirstHeld(table, locks, j) == |locks| <==> forall k | k in locks :: k !in table
  {
    var i := FirstHeld(table, locks, j);
    if i == |locks| {
      forall k | k in locks ensures k !in table {
        var m :| 0 <= m < |locks| && locks[m] == k;
        assert !HeldByOther(table, locks[m], j);
      }
    } else {
      assert locks[i] in locks;
    }
  }

  /** A slice that does not run gets its locks exactly when all of them are free. */
  lemma {:induction false} AcquireExact(plan: Plan, running: set<string>, l: Locks, j: string, now: real, ttl: int, order: seq<string>)
    requires Exact(plan, running, l.table) && j in plan && j !in running
    requires Enumerates(order, Orphans(l.table, running, now))
    ensures var (l', ok) := Acquire(l, running, plan[j].semanticLocks, j, now, ttl, order);
            Exact(plan, if ok then running + {j} else running, l'.table)
    ensures Acquire(l, running, plan[j].semanticLocks, j, now, ttl, order).1 <==>
              forall k | k in plan[j].semanticLocks :: k !in l.table
  {
    ExpiryUnreachable(plan, l, running, now, ttl, order);
    var swept := Swept(l, running, now, ttl, order);
    assert forall k :: k in swept.table <==> k in Owners(swept.table);
    assert forall k :: k in l.table <==> k in Owners(l.table);
    FirstHeldExact(plan, running, swept.table, plan[j].semanticLocks, j);
    if forall k | k in plan[j].semanticLocks :: k !in swept.table {
      TakeExact(plan, running, swept, j, now + ttl as real);
    }
  }

  lemma {:induction false} DeniedKeepsOwners(plan: Plan, running: set<string>, l: Locks, j: string, now: real, ttl: int, order: seq<string>)
    requires Exact(plan, running, l.table) && j in plan
    requires Enumerates(order, Orphans(l.table, running, now))
    ensures var (l', ok) := Acquire(l, running, plan[j].semanticLocks, j, now, ttl, order);
            !ok ==> Owners(l'.table) == Owners(l.table)
  {
    ExpiryUnreachable(plan, l, running, now, ttl, order);
  }

  lemma {:induction false} DropTable(l: Locks, order: seq<string>, kind: EventKind)
    requires NoDuplicates(order) && forall k | k in order :: k in l.table
    ensures Drop(l, order, kind).table == l.table - set k | k in order
    decreases order
  {
    if order != [] {
      var k := order[0];
      var dropped := Log(l.(table := l.table - {k}), kind, k, l.table[k].owner);
      assert forall m | m in order[1..] :: m in dropped.table;
      DropTable(dropped, order[1..], kind);
      assert (set m | m in order) == {k} + set m | m in order[1..];
    }
  }

  /** A slice that does not run and finds all its locks free has them afterwards until `ttl` seconds from
      now, and each acquisition is logged in order; otherwise one denial of the first lock that is held is
      logged. Leases that have lapsed are renewed on the way, and no other row changes. */
  lemma {:induction false} AcquireWrites(plan: Plan, running: set<string>, l: Locks, j: string, now: real, ttl: int, order: seq<string>)
    requires Exact(plan, running, l.table) && j in plan && j !in running && Enumerates(order, Orphans(l.table, running, now))
    ensures
      var (l', ok) := Acquire(l, running, plan[j].semanticLocks, j, now, ttl, order);
      var locks := plan[j].semanticLocks;
      && (forall k | k in l'.table && k !in l.table :: ok && k in locks && l'.table[k] == Lease(j, "slice-execution", now + ttl as real))
      && (forall k | k in l.table ::
            k in l'.table && l'.table[k] == if l.table[k].expires <= now then Lease(l.table[k].owner, "heartbeat-renew", now + ttl as real) else l.table[k])
      && |l'.events| == |l.events| + (if ok then |locks| else 1) && l.events <= l'.events
      && (ok ==> forall i | 0 <= i < |locks| :: l'.events[|l.events| + i] == LockEvent(Acquired, locks[i], j))
      && (!ok ==> exists i :: 0 <= i < |locks| && locks[i] in l.table && l'.events[|l.events|] == LockEvent(Denied, locks[i], j)
                              && forall m | 0 <= m < i :: locks[m] !in l.table)
  {
    ExpiryUnreachable(plan, l, running, now, ttl, order);
    SweptTable(l, running, now, ttl);
    GrabWrites(plan, running, Swept(l, running, now, ttl, order), j, now + ttl as real);
  }

  lemma {:induction false} GrabWrites(plan: Plan, running: set<string>, l: Locks, j: string, expires: real)
    requires Exact(plan, running, l.table) && j in plan && j !in running
    ensures
      var (l', ok) := Grab(l, plan[j].semanticLocks, j, expires);
      var locks := plan[j].semanticLocks;
      && (forall k | k in l'.table && k !in l.table :: ok && k in locks && l'.table[k] == Lease(j, "slice-execution", expires))
      && (forall k | k in l.table :: k in l'.table && l'.table[k] == l.table[k])
      && |l'.events| == |l.events| + (if ok then |locks| else 1) && l.events <= l'.events
      && (ok ==> forall i | 0 <= i < |locks| :: l'.events[|l.events| + i] == LockEvent(Acquired, locks[i], j))
      && (!ok ==> exists i :: 0 <= i < |locks| && locks[i] in l.table && l'.events[|l.events|] == LockEvent(Denied, locks[i], j)
                              && forall m | 0 <= m < i :: locks[m] !in l.table)
  {
    var locks := plan[j].semanticLocks;
    var i := FirstHeld(l.table, locks, j);
    FirstHeldExact(plan, running, l.table, locks, j);
    if i < |locks| {
      forall m | 0 <= m < i ensures locks[m] !in l.table {
        assert !HeldByOther(l.table, locks[m], j);
      }
    } else {
      TakeAllTable(l, locks, j, expires);
      TakeAllEvents(l, locks, j, expires);
    }
  }

  lemma {:induction false} SweptTable(l: Locks, running: set<string>, now: real, ttl: int)
    requires Orphans(l.table, running, now) == {}
    ensures Swept(l, running, now, ttl, []) == l.(table := RenewLapsed(l.table, running, now, ttl))
  {
  }

  lemma {:induction false} TakeAllEvents(l: Locks, locks: seq<string>, j: string, expires: real)
    ensures
      var events := TakeAll(l, locks, j, expires).events;
      && |events| == |l.events| + |locks| && l.events <= events
      && forall i | 0 <= i < |locks| :: events[|l.events| + i] == LockEvent(Acquired, locks[i], j)
  {
    if locks != [] {
      TakeAllEvents(l, locks[..|locks| - 1], j, expires);
    }
  }

  /** A heartbeat moves the end of every lease of a running slice to `ttl` seconds from now. */
  lemma {:induction false} BeatWrites(l: Locks, running: set<string>, now: real, ttl: int)
    ensures
      var l' := Beat(l, running, now, ttl);
      && l'.events == l.events && l'.table.Keys == l.table.Keys
      && forall k | k in l.table ::
           l'.table[k] == if l.table[k].owner in running then Lease(l.table[k].owner, "heartbeat-renew", now + ttl as real) else l.table[k]
  {
  }

  function Closing(table: map<string, Lease>, order: seq<string>, kind: EventKind): seq<LockEvent>
    requires forall k | k in order :: k in table
  {
    seq(|order|, i requires 0 <= i < |order| => LockEvent(kind, order[i], table[order[i]].owner))
  }

  lemma {:induction false} DropEvents(l: Locks, order: seq<string>, kind: EventKind)
    requires NoDuplicates(order) && forall k | k in order :: k in l.table
    ensures Drop(l, order, kind).events == l.events + Closing(l.table, order, kind)
    decreases order
  {
    if order != [] {
      var k := order[0];
      var dropped := Log(l.(table := l.table - {k}), kind, k, l.table[k].owner);
      assert forall m | m in order[1..] :: m in dropped.table;
      DropEvents(dropped, order[1..], kind);
      assert Closing(l.table, order, kind) == [LockEvent(kind, k, l.table[k].owner)] + Closing(dropped.table, order[1..], kind);
    }
  }

  lemma {:induction false} ClosingSnoc(table: map<string, Lease>, order: seq<string>, kind: EventKind, k: string)
    requires (forall m | m in order :: m in table) && k in table
    ensures Closing(table, order + [k], kind) == Closing(table, order, kind) + [LockEvent(kind, k, table[k].owner)]
  {
  }

  lemma {:induction false} EnumeratesSnoc(order: seq<string>, s: set<string>, k: string)
    requires Enumerates(order, s) && k !in s
    ensures Enumerates(order + [k], s + {k})
  {
    assert forall i | 0 <= i < |order| :: order[i] in order;
  }

  /** Dropping a listing of `s` removes `s` and logs one event per lock. */
  lemma {:induction false} DropAll(l: Locks, order: seq<string>, s: set<string>, kind: EventKind)
    requires Enumerates(order, s) && forall k | k in s :: k in l.table
    ensures Drop(l, order, kind).table == l.table - s
    ensures Drop(l, order, kind).events == l.events + Closing(l.table, order, kind)
  {
    DropTable(l, order, kind);
    DropEvents(l, order, kind);
    assert (set k | k in order) == s;
  }

  // ---- loops over the table ----

  /** A loop over the table has still to visit `pending`; `order` lists the members of `gone` that it has
      visited and removed, the other visited leases are as in `kept`. */
  ghost predicate Removing(before: Locks, kept: map<string, Lease>, gone: set<string>, kind: EventKind,
                           pending: set<string>, order: seq<string>, l: Locks)
    requires kept.Keys == before.table.Keys && gone <= kept.Keys
  {
    && pending <= kept.Keys
    && Enumerates(order, gone - pending)
    && l.table.Keys == kept.Keys - (gone - pending)
    && (forall k | k in l.table :: l.table[k] == if k in pending then before.table[k] else kept[k])
    && l.events == before.events + Closing(kept, order, kind)
  }

  lemma {:induction false} KeepOne(before: Locks, kept: map<string, Lease>, gone: set<string>, kind: EventKind,
                                   pending: set<string>, order: seq<string>, l: Locks, k: string)
    requires kept.Keys == before.table.Keys && gone <= kept.Keys
    requires Removing(before, kept, gone, kind, pending, order, l) && k in pending && k !in gone
    ensures k in l.table && l.table[k] == before.table[k]
    ensures Removing(before, kept, gone, kind, pending - {k}, order, l.(table := l.table[k := kept[k]]))
  {
    assert gone - (pending - {k}) == gone - pending;
  }

  lemma {:induction false} RemoveOne(before: Locks, kept: map<string, Lease>, gone: set<string>, kind: EventKind,
                                     pending: set<string>, order: seq<string>, l: Locks, k: string)
    requires kept.Keys == before.table.Keys && gone <= kept.Keys
    requires Removing(before, kept, gone, kind, pending, order, l) && k in pending && k in gone
    ensures k in l.table && l.table[k] == before.table[k]
    ensures Removing(before, kept, gone, kind, pending - {k}, order + [k], Log(l.(table := l.table - {k}), kind, k, kept[k].owner))
  {
    assert gone - (pending - {k}) == (gone - pending) + {k};
    EnumeratesSnoc(order, gone - pending, k);
    ClosingSnoc(kept, order, kind, k);
  }

  lemma {:induction false} VisitOne(before: Locks, kept: map<string, Lease>, gone: set<string>, kind: EventKind,
                                    pending: set<string>, order: seq<string>, l: Locks, k: string)
    requires kept.Keys == before.table.Keys && gone <= kept.Keys
    requires Removing(before, kept, gone, kind, pending, order, l) && k in pending
    ensures k in l.table && l.table[k] == before.table[k]
    ensures Removing(before, kept, gone, kind, pending - {k},
                     if k in gone then order + [k] else order,
                     if k in gone then Log(l.(table := l.table - {k}), kind, k, kept[k].owner) else l.(table := l.table[k := kept[k]]))
  {
    if k in gone {
      RemoveOne(before, kept, gone, kind, pending, order, l, k);
    } else {
      KeepOne(before, kept, gone, kind, pending, order, l, k);
    }
  }

  lemma {:induction false} Removed(before: Locks, kept: map<string, Lease>, gone: set<string>, kind: EventKind,
                                   order: seq<string>, l: Locks)
    requires kept.Keys == before.table.Keys && gone <= kept.Keys
    requires Removing(before, kept, gone, kind, {}, order, l)
    ensures Enumerates(order, gone) && l == Drop(before.(table := kept), order, kind)
  {
    assert gone - {} == gone;
    DropAll(before.(table := kept), order, gone, kind);
    assert l.table == kept - gone;
  }

  lemma {:induction false} ExpiryListed(plan: Plan, l: Locks, running: set<string>, now: real)
    requires Exact(plan, running, l.table)
    ensures Enumerates([], Orphans(l.table, running, now))
  {
  }

  lemma {:induction false} ReleaseExact(plan: Plan, running: set<string>, l: Locks, j: string, order: seq<string>)
    requires Exact(plan, running, l.table) && Enumerates(order, OwnedBy(l.table, j))
    ensures Release(l, j, order).table == l.table - OwnedBy(l.table, j)
    ensures Exact(plan, running - {j}, Release(l, j, order).table)
  {
    DropTable(l, order, Released);
    assert (set k | k in order) == OwnedBy(l.table, j);
  }

  // ---- the event log brackets correctly ----

  datatype Replayed = Held(owners: map<string, string>) | Mismatch

  /** Read the log as brackets: an acquire opens a free lock, a release closes one that its owner holds,
      a denial meets a lock held by someone else; an expiry never occurs. */
  function ReplayEvent(m: map<string, string>, e: LockEvent): Replayed {
    match e.kind
    case Acquired => if e.lock in m then Mismatch else Held(m[e.lock := e.owner])
    case Released => if e.lock in m && m[e.lock] == e.owner then Held(m - {e.lock}) else Mismatch
    case Denied => if e.lock in m && m[e.lock] != e.owner then Held(m) else Mismatch
    case Expired => Mismatch
  }

  function Replay(events: seq<LockEvent>): Replayed {
    if events == [] then Held(map[])
    else
      match Replay(events[..|events| - 1])
      case Mismatch => Mismatch
      case Held(m) => ReplayEvent(m, events[|events| - 1])
  }

  predicate Bracketed(l: Locks) {
    Replay(l.events) == Held(Owners(l.table))
  }

  lemma {:induction false} LogReplays(l: Locks, kind: EventKind, lock: string, owner: string, table': map<string, Lease>)
    requires Bracketed(l) && ReplayEvent(Owners(l.table), LockEvent(kind, lock, owner)) == Held(Owners(table'))
    ensures Bracketed(Log(l.(table := table'), kind, lock, owner))
  {
    var e := LockEvent(kind, lock, owner);
    assert (l.events + [e])[..|l.events + [e]| - 1] == l.events;
  }

  lemma {:induction false} TakeAllBracketed(l: Locks, locks: seq<string>, j: string, expires: real)
    requires Bracketed(l) && NoDuplicates(locks) && forall k | k in locks :: k !in l.table
    ensures Bracketed(TakeAll(l, locks, j, expires))
  {
    if locks != [] {
      var front, last := locks[..|locks| - 1], locks[|locks| - 1];
      NoDuplicatesFront(locks);
      TakeAllBracketed(l, front, j, expires);
      TakeAllTable(l, front, j, expires);
      var t := TakeAll(l, front, j, expires);
      var table' := t.table[last := Lease(j, "slice-execution", expires)];
      assert Owners(table') == Owners(t.table)[last := j];
      LogReplays(t, Acquired, last, j, table');
    }
  }

  lemma {:induction false} DropBracketed(l: Locks, order: seq<string>)
    requires Bracketed(l) && NoDuplicates(order) && forall k | k in order :: k in l.table
    ensures Bracketed(Drop(l, order, Released))
    decreases order
  {
    if order != [] {
      var k := order[0];
      assert Owners(l.table - {k}) == Owners(l.table) - {k};
      LogReplays(l, Released, k, l.table[k].owner, l.table - {k});
      var dropped := Log(l.(table := l.table - {k}), Released, k, l.table[k].owner);
      assert forall m | m in order[1..] :: m in dropped.table;
      DropBracketed(dropped, order[1..]);
    }
  }

  lemma {:induction false} SameOwnersBracketed(l: Locks, l': Locks)
    requires Bracketed(l) && l'.events == l.events && Owners(l'.table) == Owners(l.table)
    ensures Bracketed(l')
  {
  }

  lemma {:induction false} DeniedBracketed(l: Locks, lock: string, j: string)
    requires Bracketed(l) && HeldByOther(l.table, lock, j)
    ensures Bracketed(Log(l, Denied, lock, j))
  {
    LogReplays(l, Denied, lock, j, l.table);
  }

  lemma {:induction false} AcquireBracketed(plan: Plan, running: set<string>, l: Locks, j: string, now: real, ttl: int, order: seq<string>)
    requires Exact(plan, running, l.table) && j in plan && j !in running && NoDuplicates(plan[j].semanticLocks)
    requires Bracketed(l) && Enumerates(order, Orphans(l.table, running, now))
    ensures Bracketed(Acquire(l, running, plan[j].semanticLocks, j, now, ttl, order).0)
  {
    ExpiryUnreachable(plan, l, running, now, ttl, order);
    var swept, locks := Swept(l, running, now, ttl, order), plan[j].semanticLocks;
    SameOwnersBracketed(l, swept);
    FirstHeldExact(plan, running, swept.table, locks, j);
    var i := FirstHeld(swept.table, locks, j);
    if i < |locks| {
      DeniedBracketed(swept, locks[i], j);
    } else {
      TakeAllBracketed(swept, locks, j, now + ttl as real);
    }
  }

  // ---- acquires and releases pair up ----

  function Times(events: seq<LockEvent>, kind: EventKind, lock: string, owner: string): nat {
    if events == [] then 0
    else Times(events[..|events| - 1], kind, lock, owner) + if events[|events| - 1] == LockEvent(kind, lock, owner) then 1 else 0
  }

  /** In a log that brackets, each slice has acquired each lock as often as it has released it, plus one
      if it holds it now. */
  lemma {:induction false} AcquiresMatchReleases(events: seq<LockEvent>, lock: string, owner: string)
    requires Replay(events).Held?
    ensures Times(events, Acquired, lock, owner) ==
              Times(events, Released, lock, owner)
              + if lock in Replay(events).owners && Replay(events).owners[lock] == owner then 1 else 0
    ensures Times(events, Expired, lock, owner) == 0
  {
    if events != [] {
      AcquiresMatchReleases(events[..|events| - 1], lock, owner);
    }
  }
}
