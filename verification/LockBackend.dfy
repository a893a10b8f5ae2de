/** The SQLite lock backend: one object whose two tables its methods update. A transaction works on its
    own copy of the tables; commit writes the copy back, and leaving the block by an exception does not. */
module LockBackend {
  import opened IsoTime
  import opened Text
  import opened LockStore

  class GlobalLockBackend {
    var rows: map<string, Row>
    var events: seq<Event>

    constructor ()
      ensures Tables() == EMPTY
    {
      rows, events := map[], [];
    }

    function Tables(): Store
      reads this
    {
      Store(rows, events)
    }

    method Commit(t: Store)
      modifies this
      ensures Tables() == t
    {
      rows, events := t.rows, t.events;
    }

    /** `SELECT ... WHERE expires_at <= now` followed by one DELETE and one event per row returned. */
    static method ExpireStaleLocked(s: Store, now: int) returns (t: Store, sweep: seq<string>)
      ensures Enumerates(sweep, StaleNames(s.rows, now))
      ensures t == Expire(s, now, sweep)
    {
      t, sweep := s, [];
      var pending := StaleNames(s.rows, now);
      while pending != {}
        invariant pending <= StaleNames(s.rows, now)
        invariant Enumerates(sweep, StaleNames(s.rows, now) - pending)
        invariant t == Expire(s, now, sweep)
        decreases |pending|
      {
        var lock :| lock in pending;
        ExpireSnoc(s, now, sweep, lock);
        t := ExpireOne(t, lock, now);
        sweep := sweep + [lock];
        pending := pending - {lock};
      }
    }

    method Acquire(lock: string, scope: string, repo: string, owner: Owner, ttl: int, details: string, now: int)
      returns (r: Outcome, ghost c: Call)
      modifies this
      ensures c.now == now && c.op == Op.Acquire(lock, scope, repo, owner, ttl, details) && Enabled(old(Tables()), c)
      ensures (Tables(), r) == Step(old(Tables()), c)
    {
      var expires := now + LeaseSeconds(ttl);
      var t, sweep := ExpireStaleLocked(Tables(), now);
      c := Call(now, Op.Acquire(lock, scope, repo, owner, ttl, details), sweep);
      if expires > LastInstant() {
        return TimeOverflow, c;
      }
      if lock in t.rows {
        var row := t.rows[lock];
        if row.owner == owner {
          var renewed := row.(scope := scope, repo := repo, heartbeatAt := now, expiresAt := expires);
          t := t.(rows := t.rows[lock := renewed]);
          t := Record(t, lock, RenewEvent, owner, now, OrDefault(details, "owner-renew"));
          Commit(t);
          return Renewed, c;
        }
        t := Record(t, lock, DeniedEvent, owner, now, OwnedBy(row.owner));
        Commit(t);
        return Denied(row), c;
      }
      t := t.(rows := t.rows[lock := Row(scope, repo, owner, now, now, expires)]);
      t := Record(t, lock, AcquireEvent, owner, now, OrDefault(details, "new-lock"));
      Commit(t);
      return Granted, c;
    }

    method Heartbeat(lock: string, owner: Owner, ttl: int, details: string, now: int)
      returns (r: Outcome, ghost c: Call)
      modifies this
      ensures c.now == now && c.op == Op.Heartbeat(lock, owner, ttl, details) && Enabled(old(Tables()), c)
      ensures (Tables(), r) == Step(old(Tables()), c)
    {
      var expires := now + LeaseSeconds(ttl);
      var t, sweep := ExpireStaleLocked(Tables(), now);
      c := Call(now, Op.Heartbeat(lock, owner, ttl, details), sweep);
      if expires > LastInstant() {
        return TimeOverflow, c;
      }
      if lock !in t.rows {
        return LockNotFound, c;
      }
      if t.rows[lock].owner != owner {
        return LockNotOwned, c;
      }
      t := t.(rows := t.rows[lock := t.rows[lock].(heartbeatAt := now, expiresAt := expires)]);
      t := Record(t, lock, HeartbeatEvent, owner, now, OrDefault(details, "heartbeat"));
      Commit(t);
      return Beat, c;
    }

    method Release(lock: string, owner: Owner, details: string, now: int)
      returns (r: Outcome, ghost c: Call)
      modifies this
      ensures c.now == now && c.op == Op.Release(lock, owner, details) && Enabled(old(Tables()), c)
      ensures (Tables(), r) == Step(old(Tables()), c)
    {
      c := Call(now, Op.Release(lock, owner, details), []);
      if lock !in rows {
        return Missing, c;
      }
      if rows[lock].owner != owner {
        return LockNotOwned, c;
      }
      var t := Tables().(rows := rows - {lock});
      t := Record(t, lock, ReleaseEvent, owner, now, OrDefault(details, "release"));
      Commit(t);
      return Released, c;
    }

    method ExpireStale(now: int) returns (expired: seq<string>)
      modifies this
      ensures Enabled(old(Tables()), Call(now, Op.ExpireStale, expired))
      ensures Tables() == Next(old(Tables()), Call(now, Op.ExpireStale, expired))
    {
      var t;
      t, expired := ExpireStaleLocked(Tables(), now);
      Commit(t);
    }
  }

  lemma {:induction false} ExpireSnoc(s: Store, now: int, sweep: seq<string>, l: string)
    requires NoDuplicates(sweep + [l]) && forall m | m in sweep + [l] :: m in s.rows
    ensures NoDuplicates(sweep) && (forall m | m in sweep :: m in s.rows)
    ensures l in Expire(s, now, sweep).rows
    ensures Expire(s, now, sweep + [l]) == ExpireOne(Expire(s, now, sweep), l, now)
    decreases sweep
  {
    if sweep == [] {
      assert sweep + [l] == [l];
      assert Expire(s, now, [l]) == Expire(ExpireOne(s, l, now), now, []);
    } else {
      var t := ExpireOne(s, sweep[0], now);
      assert (sweep + [l])[1..] == sweep[1..] + [l];
      assert forall i | 0 <= i < |sweep| :: (sweep + [l])[i] == sweep[i];
      ExpireSnoc(t, now, sweep[1..], l);
    }
  }
}
