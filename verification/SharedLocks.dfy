/** One attempt of a slice to take all its locks in the shared store, seen from the store: what it holds
    so far, and what is left of the leases that others had. */
module SharedLocks {
  import opened IsoTime
  import opened LockStore
  import opened SlicePlan

  /** All clock readings of the attempt lie between `lo` and `hi`, no lease that it takes lapses while it
      lasts, and every expiry can be represented. */
  ghost predicate Prompt(clock: nat -> int, lo: int, hi: int, ttl: int) {
    && (forall k: nat :: lo <= clock(k) <= hi)
    && hi < lo + LeaseSeconds(ttl)
    && hi + LeaseSeconds(ttl) <= LastInstant()
  }

  /** `me` has taken the locks `mine` and given back the locks `gone`. Every other row is as it was in
      `before`, and the rows of `before` that are no longer there had lapsed by `hi`. */
  ghost predicate Partial(before: Store, s: Store, me: Owner, mine: set<string>, gone: set<string>, hi: int) {
    && (forall l | l in mine :: Holds(s, l, me) && hi < s.rows[l].expiresAt)
    && (forall l | l in s.rows && l !in mine :: l in before.rows && s.rows[l] == before.rows[l])
    && (forall l | l in before.rows :: (l in s.rows && l !in mine) || before.rows[l].expiresAt <= hi)
    && (forall l | l in gone :: l !in s.rows)
  }

  /** `s` is `before` without some rows that had lapsed by `hi`. */
  ghost predicate OnlyLapsed(before: Store, s: Store, hi: int) {
    && (forall l | l in s.rows :: l in before.rows && s.rows[l] == before.rows[l])
    && (forall l | l in before.rows && l !in s.rows :: before.rows[l].expiresAt <= hi)
  }

  ghost predicate NoneHeld(s: Store, me: Owner) {
    forall l | l in s.rows :: s.rows[l].owner != me
  }

  lemma {:induction false} SweepStep(before: Store, s: Store, me: Owner, mine: set<string>, gone: set<string>, hi: int, c: Call)
    requires Partial(before, s, me, mine, gone, hi) && Enabled(s, c) && c.now <= hi && c.op.ExpireStale?
    ensures Partial(before, Next(s, c), me, mine, gone, hi)
  {
  }

  lemma {:induction false} GrantStep(before: Store, s: Store, me: Owner, mine: set<string>, hi: int, c: Call)
    requires Partial(before, s, me, mine, {}, hi) && NoneHeld(before, me) && Enabled(s, c)
    requires c.op.Acquire? && c.op.owner == me && c.now <= hi < c.now + LeaseSeconds(c.op.ttl) <= LastInstant()
    ensures !Step(s, c).1.Raised()
    ensures Step(s, c).1.Grants() ==> Partial(before, Next(s, c), me, mine + {c.op.lock}, {}, hi)
    ensures !Step(s, c).1.Grants() ==> Partial(before, Next(s, c), me, mine, {}, hi)
  {
  }

  lemma {:induction false} ReleaseStepBack(before: Store, s: Store, me: Owner, mine: set<string>, gone: set<string>, hi: int, c: Call)
    requires Partial(before, s, me, mine, gone, hi) && Enabled(s, c)
    requires c.op.Release? && c.op.owner == me && (c.op.lock in mine || c.op.lock in gone)
    ensures !Step(s, c).1.Raised()
    ensures Partial(before, Next(s, c), me, mine - {c.op.lock}, gone + {c.op.lock}, hi)
  {
  }

  // ---- sequences of calls ----

  lemma {:induction false} LegalSnoc(s: Store, h: seq<Call>, c: Call)
    requires Legal(s, h) && Enabled(StoreAt(s, h, |h|), c)
    ensures Legal(s, h + [c]) && StoreAt(s, h + [c], |h| + 1) == Next(StoreAt(s, h, |h|), c)
    decreases h
  {
    if h == [] {
      assert (h + [c])[1..] == [];
    } else {
      LegalSnoc(Next(s, h[0]), h[1..], c);
      assert (h + [c])[0] == h[0] && (h + [c])[1..] == h[1..] + [c];
    }
  }

  /** `s` is what the calls `h` make of `before`. */
  ghost predicate Leads(before: Store, h: seq<Call>, s: Store) {
    Legal(before, h) && StoreAt(before, h, |h|) == s
  }

  lemma {:induction false} LeadsSnoc(before: Store, h: seq<Call>, s: Store, c: Call)
    requires Leads(before, h, s) && Enabled(s, c)
    ensures Leads(before, h + [c], Next(s, c))
  {
    LegalSnoc(before, h, c);
  }

  lemma {:induction false} LeadsConcat(before: Store, h: seq<Call>, s: Store, g: seq<Call>, t: Store)
    requires Leads(before, h, s) && Leads(s, g, t)
    ensures Leads(before, h + g, t)
    decreases h
  {
    if h == [] {
      assert h + g == g;
    } else {
      LeadsConcat(Next(before, h[0]), h[1..], s, g, t);
      assert (h + g)[0] == h[0] && (h + g)[1..] == h[1..] + g;
    }
  }

  /** An owner whose heartbeat succeeds after nothing but heartbeats held the lock from the start. */
  lemma {:induction false} BeatMeansHeld(before: Store, h: seq<Call>, s: Store, c: Call, l: string, o: Owner)
    requires Leads(before, h, s) && (forall d | d in h :: d.op.Heartbeat?) && Enabled(s, c)
    requires c.op.Heartbeat? && Addresses(c.op, l, o) && Step(s, c).1 == Beat
    ensures Holds(before, l, o)
  {
    assert Holds(s, l, o);
    if !Holds(before, l, o) {
      LostStaysLost(before, h, l, o);
    }
  }

  function NamesOf(qs: seq<Request>): set<string> {
    set q | q in qs :: q.name
  }

  lemma {:induction false} NamesSnoc(qs: seq<Request>, i: nat)
    requires i < |qs|
    ensures NamesOf(qs[..i + 1]) == NamesOf(qs[..i]) + {qs[i].name}
  {
    assert qs[..i + 1] == qs[..i] + [qs[i]];
  }

  /** `o` has released the locks `names`; nothing else changed. */
  ghost predicate Without(before: Store, s: Store, o: Owner, names: set<string>) {
    && (forall l | l in s.rows :: l in before.rows && s.rows[l] == before.rows[l] && !(l in names && before.rows[l].owner == o))
    && (forall l | l in before.rows && !(l in names && before.rows[l].owner == o) :: l in s.rows)
  }

  lemma {:induction false} WithoutSnoc(before: Store, s: Store, o: Owner, names: set<string>, c: Call)
    requires Without(before, s, o, names) && c.op.Release? && c.op.owner == o && Enabled(s, c) && !Step(s, c).1.Raised()
    ensures Without(before, Next(s, c), o, names + {c.op.lock})
  {
  }

  /** The first `i` of the granted requests have been given back. */
  ghost predicate GivenBack(before: Store, s: Store, me: Owner, granted: seq<Request>, i: nat, hi: int)
    requires i <= |granted|
  {
    Partial(before, s, me, NamesOf(granted) - NamesOf(granted[..i]), NamesOf(granted[..i]), hi)
  }

  lemma {:induction false} GiveBack(before: Store, s: Store, me: Owner, granted: seq<Request>, i: nat, hi: int, c: Call)
    requires i < |granted| && GivenBack(before, s, me, granted, i, hi) && Enabled(s, c)
    requires c.op.Release? && c.op.owner == me && c.op.lock == granted[i].name
    ensures !Step(s, c).1.Raised() && GivenBack(before, Next(s, c), me, granted, i + 1, hi)
  {
    var all, gone := NamesOf(granted), NamesOf(granted[..i]);
    NamesSnoc(granted, i);
    assert granted[i].name in all;
    ReleaseStepBack(before, s, me, all - gone, gone, hi, c);
    assert all - gone - {granted[i].name} == all - (gone + {granted[i].name});
  }

  lemma {:induction false} AllGivenBack(before: Store, s: Store, me: Owner, granted: seq<Request>, hi: int)
    ensures Partial(before, s, me, NamesOf(granted), {}, hi) ==> GivenBack(before, s, me, granted, 0, hi)
    ensures GivenBack(before, s, me, granted, |granted|, hi) ==> OnlyLapsed(before, s, hi)
  {
    assert granted[..|granted|] == granted && NamesOf(granted) - NamesOf(granted) == {};
    assert NamesOf(granted[..0]) == {} && NamesOf(granted) - {} == NamesOf(granted);
  }
}
