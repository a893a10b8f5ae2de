/** Choosing independent reviewers: resources are filtered, ordered by a preferred chain and a priority,
    and regrouped by cost tier, and everything left out is given a reason. */
module ReviewerSelection {
  import opened Wrappers
  import opened Text
  import opened SlicePlan

  datatype Resource = Resource(
    executor: string, modelResolution: string, costTier: string, capabilities: set<string>, sensitivity: string, priority: int)

  type Resources = map<string, Resource>

  /** Evidence about availability that is text; anything else counts as missing. */
  type Availability = map<string, string>

  datatype Exclusion = Exclusion(id: string, reason: string)

  datatype Needs = Needs(capabilities: seq<string>, sensitivity: string)

  datatype Implementer = Implementer(executor: string, modelResolution: string)

  datatype Selection = Selected(candidates: seq<string>, excluded: seq<Exclusion>) | NoReviewer(skipped: seq<Exclusion>) | NoImplementer

  // ---- availability ----

  const STATES := {"AVAILABLE", "BUSY", "CAPACITY_EXHAUSTED", "QUOTA_EXHAUSTED", "AUTH_UNCONFIGURED", "AUTH_FAILED",
                   "MODEL_UNAVAILABLE", "PROVIDER_DOWN", "COOLDOWN", "UNKNOWN"}

  function Upper(c: char): char {
    if 'a' <= c <= 'z' then c - 'a' + 'A' else c
  }

  function UpperAll(s: string): string {
    seq(|s|, i requires 0 <= i < |s| => Upper(s[i]))
  }

  function NormalizeAvailability(availability: Availability, id: string): (state: string)
    ensures state in STATES
  {
    if id in availability && UpperAll(Strip(availability[id])) in STATES then UpperAll(Strip(availability[id])) else "UNKNOWN"
  }

  /** Raising moves each small letter 32 places and keeps every other character. */
  lemma {:induction false} UpperMeaning(s: string)
    ensures |UpperAll(s)| == |s|
    ensures forall i | 0 <= i < |s| :: UpperAll(s)[i] as int == s[i] as int - if 97 <= s[i] as int <= 122 then 32 else 0
  {
  }

  /** Evidence that spells one of the ten states, in whatever case and with whatever whitespace around it,
      means that state; anything else, and no evidence, means that the state is unknown. */
  lemma {:induction false} AvailabilityExactly(availability: Availability, id: string)
    ensures
      var state := NormalizeAvailability(availability, id);
      && (id !in availability ==> state == "UNKNOWN")
      && (id in availability ==>
            var said := UpperAll(Strip(availability[id]));
            if said in ["AVAILABLE", "BUSY", "CAPACITY_EXHAUSTED", "QUOTA_EXHAUSTED", "AUTH_UNCONFIGURED", "AUTH_FAILED",
                        "MODEL_UNAVAILABLE", "PROVIDER_DOWN", "COOLDOWN"] then state == said
            else state == "UNKNOWN")
  {
  }

  // ---- the filter, and why it rejects ----

  predicate HasAll(r: Resource, required: seq<string>) {
    forall c | c in required :: c in r.capabilities
  }

  predicate Passes(r: Resource, state: string, needs: Needs) {
    && state == "AVAILABLE"
    && (Stripped(needs.capabilities) == [] || HasAll(r, Stripped(needs.capabilities)))
    && !(needs.sensitivity == "local-only" && r.sensitivity != "local-only")
  }

  /** The explanation that the caller recomputes for a resource missing from the filtered list. */
  function Explanation(r: Resource, state: string, needs: Needs): string {
    if state != "AVAILABLE" then "availability:" + state
    else if Stripped(needs.capabilities) != [] && !HasAll(r, Stripped(needs.capabilities)) then "missing_required_capabilities"
    else if needs.sensitivity == "local-only" && r.sensitivity != "local-only" then "data_sensitivity_mismatch"
    else "filtered_out"
  }

  predicate Same(r: Resource, author: Implementer) {
    r.executor == author.executor || r.modelResolution == author.modelResolution
  }

  function SameReason(r: Resource, author: Implementer): string {
    if r.executor == author.executor then "same_executor_as_implementer" else "same_model_resolution_as_implementer"
  }

  /** The ids, in order, of the resources that satisfy the filter. */
  function Filtered(resources: Resources, availability: Availability, needs: Needs, ids: seq<string>): seq<string>
    requires forall id | id in ids :: id in resources
  {
    if ids == [] then []
    else
      var last := ids[|ids| - 1];
      Filtered(resources, availability, needs, ids[..|ids| - 1])
      + if Passes(resources[last], NormalizeAvailability(availability, last), needs) then [last] else []
  }

  function Independent(resources: Resources, author: Implementer, ids: seq<string>): seq<string>
    requires forall id | id in ids :: id in resources
  {
    if ids == [] then []
    else
      var last := ids[|ids| - 1];
      Independent(resources, author, ids[..|ids| - 1]) + if Same(resources[last], author) then [] else [last]
  }

  function SameExclusions(resources: Resources, author: Implementer, ids: seq<string>): seq<Exclusion>
    requires forall id | id in ids :: id in resources
  {
    if ids == [] then []
    else
      var last := ids[|ids| - 1];
      SameExclusions(resources, author, ids[..|ids| - 1])
      + if Same(resources[last], author) then [Exclusion(last, SameReason(resources[last], author))] else []
  }

  function FilterExclusions(resources: Resources, availability: Availability, needs: Needs, kept: set<string>, ids: seq<string>): seq<Exclusion>
    requires forall id | id in ids :: id in resources
  {
    if ids == [] then []
    else
      var last := ids[|ids| - 1];
      FilterExclusions(resources, availability, needs, kept, ids[..|ids| - 1])
      + if last in kept then [] else [Exclusion(last, Explanation(resources[last], NormalizeAvailability(availability, last), needs))]
  }

  // ---- the order ----

  /** `a` has the smaller (priority, id). */
  predicate Precedes(resources: Resources, a: string, b: string)
    requires a in resources && b in resources
  {
    resources[a].priority < resources[b].priority || (resources[a].priority == resources[b].priority && Less(a, b))
  }

  ghost predicate ByPriority(resources: Resources, ids: seq<string>) {
    && (forall id | id in ids :: id in resources)
    && forall i, j | 0 <= i < j < |ids| :: Precedes(resources, ids[i], ids[j])
  }

  lemma {:induction false} PrecedesTransitive(resources: Resources, a: string, b: string, c: string)
    requires a in resources && b in resources && c in resources
    requires Precedes(resources, a, b) && Precedes(resources, b, c)
    ensures Precedes(resources, a, c)
  {
    if resources[a].priority == resources[c].priority {
      LessTransitive(a, b, c);
    }
  }

  function InsertByPriority(resources: Resources, id: string, ids: seq<string>): (r: seq<string>)
    requires ByPriority(resources, ids) && id in resources && id !in ids
    ensures ByPriority(resources, r)
    ensures forall x :: x in r <==> x == id || x in ids
  {
    if ids == [] then [id]
    else if Precedes(resources, id, ids[0]) then
      InsertFirst(resources, id, ids);
      [id] + ids
    else
      LessTotal(id, ids[0]);
      assert ids == [ids[0]] + ids[1..];
      var rest := InsertByPriority(resources, id, ids[1..]);
      assert forall x | x in rest :: Precedes(resources, ids[0], x);
      [ids[0]] + rest
  }

  lemma {:induction false} InsertCount(resources: Resources, id: string, ids: seq<string>)
    requires ByPriority(resources, ids) && id in resources && id !in ids
    ensures multiset(InsertByPriority(resources, id, ids)) == multiset(ids) + multiset{id}
  {
    if ids != [] {
      assert ids == [ids[0]] + ids[1..];
      if !Precedes(resources, id, ids[0]) {
        InsertCount(resources, id, ids[1..]);
      }
    }
  }

  lemma {:induction false} InsertFirst(resources: Resources, id: string, ids: seq<string>)
    requires ByPriority(resources, ids) && id in resources && ids != [] && Precedes(resources, id, ids[0])
    ensures ByPriority(resources, [id] + ids)
  {
    forall j | 0 <= j < |ids| ensures Precedes(resources, id, ids[j]) {
      if j > 0 {
        PrecedesTransitive(resources, id, ids[0], ids[j]);
      }
    }
  }

  /** `sorted(ids, key=(priority, id))` */
  function SortByPriority(resources: Resources, ids: seq<string>): (r: seq<string>)
    requires NoDuplicates(ids) && forall id | id in ids :: id in resources
    ensures ByPriority(resources, r) && multiset(r) == multiset(ids)
    ensures forall x :: x in r <==> x in ids
  {
    if ids == [] then []
    else
      var front, last := ids[..|ids| - 1], ids[|ids| - 1];
      NoDuplicatesFront(ids);
      assert ids == front + [last];
      InsertCount(resources, last, SortByPriority(resources, front));
      InsertByPriority(resources, last, SortByPriority(resources, front))
  }

  /** The members of `order` that are present, with repetitions as in `order`. */
  function Chain(order: seq<string>, present: set<string>): seq<string> {
    if order == [] then []
    else Chain(order[..|order| - 1], present) + if order[|order| - 1] in present then [order[|order| - 1]] else []
  }

  function Without(ids: seq<string>, gone: set<string>): (r: seq<string>) {
    if ids == [] then []
    else Without(ids[..|ids| - 1], gone) + if ids[|ids| - 1] in gone then [] else [ids[|ids| - 1]]
  }

  lemma {:induction false} ChainMember(order: seq<string>, present: set<string>, x: string)
    ensures x in Chain(order, present) <==> x in order && x in present
    ensures multiset(Chain(order, present))[x] == if x in present then multiset(order)[x] else 0
  {
    if order != [] {
      ChainMember(order[..|order| - 1], present, x);
      assert order == order[..|order| - 1] + [order[|order| - 1]];
    }
  }

  lemma {:induction false} WithoutMember(ids: seq<string>, gone: set<string>, x: string)
    ensures x in Without(ids, gone) <==> x in ids && x !in gone
    ensures multiset(Without(ids, gone))[x] == if x in gone then 0 else multiset(ids)[x]
  {
    if ids != [] {
      WithoutMember(ids[..|ids| - 1], gone, x);
      assert ids == ids[..|ids| - 1] + [ids[|ids| - 1]];
    }
  }

  lemma {:induction false} WithoutDistinct(ids: seq<string>, gone: set<string>)
    requires NoDuplicates(ids)
    ensures NoDuplicates(Without(ids, gone))
  {
    if ids != [] {
      NoDuplicatesFront(ids);
      WithoutDistinct(ids[..|ids| - 1], gone);
      WithoutMember(ids[..|ids| - 1], gone, ids[|ids| - 1]);
    }
  }

  function Elements(ids: seq<string>): set<string> {
    set x | x in ids
  }

  /** `order_resource_candidates` with a preferred order. */
  function Ordered(resources: Resources, present: seq<string>, order: seq<string>): (r: seq<string>)
    requires NoDuplicates(present) && forall id | id in present :: id in resources
  {
    var chain := Chain(order, Elements(present));
    WithoutDistinct(present, Elements(chain));
    assert forall x | x in Without(present, Elements(chain)) :: x in present by {
      forall x | x in Without(present, Elements(chain)) ensures x in present {
        WithoutMember(present, Elements(chain), x);
      }
    }
    chain + SortByPriority(resources, Without(present, Elements(chain)))
  }

  // ---- cost tiers ----

  function ImplementerTiers(resources: Resources, author: Implementer): set<string> {
    set id | id in resources && Same(resources[id], author) :: resources[id].costTier
  }

  function OfTier(resources: Resources, ids: seq<string>, tiers: set<string>, inside: bool): seq<string>
    requires forall id | id in ids :: id in resources
  {
    if ids == [] then []
    else
      var last := ids[|ids| - 1];
      OfTier(resources, ids[..|ids| - 1], tiers, inside) + if (resources[last].costTier in tiers) == inside then [last] else []
  }

  function Regrouped(resources: Resources, ids: seq<string>, tiers: set<string>): seq<string>
    requires forall id | id in ids :: id in resources
  {
    OfTier(resources, ids, tiers, false) + OfTier(resources, ids, tiers, true)
  }

  // ---- the selection ----

  ghost predicate IsIdOrder(resources: Resources, ids: seq<string>) {
    Ascending(ids) && forall id :: id in ids <==> id in resources
  }

  /** The resources that survive both exclusions, in id order. */
  function Eligible(resources: Resources, availability: Availability, author: Implementer, needs: Needs, ids: seq<string>): (r: seq<string>)
    requires forall id | id in ids :: id in resources
    ensures forall id :: id in r <==> id in ids && !Same(resources[id], author) && Passes(resources[id], NormalizeAvailability(availability, id), needs)
    ensures NoDuplicates(ids) ==> NoDuplicates(r)
  {
    IndependentMembers(resources, author, ids);
    var independent := Independent(resources, author, ids);
    FilteredMembers(resources, availability, needs, independent);
    Filtered(resources, availability, needs, independent)
  }

  lemma {:induction false} FilteredMembers(resources: Resources, availability: Availability, needs: Needs, ids: seq<string>)
    requires forall id | id in ids :: id in resources
    ensures forall id :: id in Filtered(resources, availability, needs, ids) <==>
              id in ids && Passes(resources[id], NormalizeAvailability(availability, id), needs)
    ensures NoDuplicates(ids) ==> NoDuplicates(Filtered(resources, availability, needs, ids))
  {
    if ids != [] {
      FilteredMembers(resources, availability, needs, ids[..|ids| - 1]);
      if NoDuplicates(ids) {
        NoDuplicatesFront(ids);
      }
      assert ids == ids[..|ids| - 1] + [ids[|ids| - 1]];
    }
  }

  lemma {:induction false} IndependentMembers(resources: Resources, author: Implementer, ids: seq<string>)
    requires forall id | id in ids :: id in resources
    ensures forall id :: id in Independent(resources, author, ids) <==> id in ids && !Same(resources[id], author)
    ensures NoDuplicates(ids) ==> NoDuplicates(Independent(resources, author, ids))
  {
    if ids != [] {
      IndependentMembers(resources, author, ids[..|ids| - 1]);
      if NoDuplicates(ids) {
        NoDuplicatesFront(ids);
      }
      assert ids == ids[..|ids| - 1] + [ids[|ids| - 1]];
    }
  }

  lemma {:induction false} OrderedMembers(resources: Resources, present: seq<string>, order: seq<string>, x: string)
    requires NoDuplicates(present) && forall id | id in present :: id in resources
    ensures x in Ordered(resources, present, order) <==> x in present
    ensures multiset(Ordered(resources, present, order))[x] ==
            if x !in present then 0 else if multiset(order)[x] > 1 then multiset(order)[x] else 1
  {
    var chain := Chain(order, Elements(present));
    ChainMember(order, Elements(present), x);
    WithoutMember(present, Elements(chain), x);
    DistinctCount(present, x);
  }

  lemma {:induction false} DistinctCount(xs: seq<string>, x: string)
    requires NoDuplicates(xs)
    ensures multiset(xs)[x] == if x in xs then 1 else 0
  {
    if xs != [] {
      NoDuplicatesFront(xs);
      DistinctCount(xs[..|xs| - 1], x);
      assert xs == xs[..|xs| - 1] + [xs[|xs| - 1]];
    }
  }

  lemma {:induction false} CountConcat(a: seq<string>, b: seq<string>, x: string)
    ensures multiset(a + b)[x] == multiset(a)[x] + multiset(b)[x]
  {
  }

  lemma {:induction false} OfTierMember(resources: Resources, ids: seq<string>, tiers: set<string>, inside: bool, x: string)
    requires forall id | id in ids :: id in resources
    ensures x in OfTier(resources, ids, tiers, inside) <==> x in ids && (resources[x].costTier in tiers) == inside
    ensures x in resources ==>
              multiset(OfTier(resources, ids, tiers, inside))[x] == if (resources[x].costTier in tiers) == inside then multiset(ids)[x] else 0
  {
    if ids != [] {
      var front, last := ids[..|ids| - 1], ids[|ids| - 1];
      OfTierMember(resources, front, tiers, inside, x);
      var more := if (resources[last].costTier in tiers) == inside then [last] else [];
      assert OfTier(resources, ids, tiers, inside) == OfTier(resources, front, tiers, inside) + more;
      CountConcat(OfTier(resources, front, tiers, inside), more, x);
      assert ids == front + [last];
      CountConcat(front, [last], x);
    }
  }

  function Candidates(resources: Resources, availability: Availability, author: Implementer, needs: Needs, order: seq<string>, ids: seq<string>): seq<string>
    requires NoDuplicates(ids) && forall id | id in ids :: id in resources
  {
    var eligible := Eligible(resources, availability, author, needs, ids);
    var ordered := Ordered(resources, eligible, Stripped(order));
    assert forall x | x in ordered :: x in resources by {
      forall x | x in ordered ensures x in resources {
        OrderedMembers(resources, eligible, Stripped(order), x);
      }
    }
    Regrouped(resources, ordered, ImplementerTiers(resources, author))
  }

  function Exclusions(resources: Resources, availability: Availability, author: Implementer, needs: Needs, ids: seq<string>): seq<Exclusion>
    requires forall id | id in ids :: id in resources
  {
    IndependentMembers(resources, author, ids);
    SameExclusions(resources, author, ids)
    + FilterExclusions(resources, availability, needs, Elements(Eligible(resources, availability, author, needs, ids)), Independent(resources, author, ids))
  }

  function Select(resources: Resources, availability: Availability, author: Implementer, needs: Needs, order: seq<string>, ids: seq<string>): Selection
    requires NoDuplicates(ids) && forall id | id in ids :: id in resources
  {
    var who := Implementer(Strip(author.executor), Strip(author.modelResolution));
    if who.executor == "" || who.modelResolution == "" then NoImplementer
    else
      var candidates := Candidates(resources, availability, who, needs, order, ids);
      var excluded := Exclusions(resources, availability, who, needs, ids);
      if candidates == [] then NoReviewer(excluded) else Selected(candidates, excluded)
  }

  // ---- what a selection means ----

  /** The resource misses a capability that is asked for. */
  ghost predicate Lacks(r: Resource, needs: Needs) {
    exists c :: Declared(needs.capabilities, c) && c !in r.capabilities
  }

  lemma {:induction false} LacksMeaning(r: Resource, needs: Needs)
    ensures Lacks(r, needs) <==> Stripped(needs.capabilities) != [] && !HasAll(r, Stripped(needs.capabilities))
  {
    StrippedDeclared(needs.capabilities);
    if !HasAll(r, Stripped(needs.capabilities)) {
      var c :| c in Stripped(needs.capabilities) && c !in r.capabilities;
      assert Declared(needs.capabilities, c);
    }
  }

  /** Who is eligible: another executor and another model than the implementer's, evidence of being
      available, every capability asked for, and local when the data must stay local. */
  lemma {:induction false} EligibleExactly(resources: Resources, availability: Availability, author: Implementer, needs: Needs, ids: seq<string>, id: string)
    requires forall x | x in ids :: x in resources
    ensures id in Eligible(resources, availability, author, needs, ids) <==>
              && id in ids && resources[id].executor != author.executor && resources[id].modelResolution != author.modelResolution
              && id in availability && UpperAll(Strip(availability[id])) == "AVAILABLE"
              && !Lacks(resources[id], needs)
              && (needs.sensitivity == "local-only" ==> resources[id].sensitivity == "local-only")
  {
    if id in ids {
      LacksMeaning(resources[id], needs);
      AvailabilityExactly(availability, id);
    }
  }

  /** Why each resource is left out, by the first of the rules that it breaks. */
  lemma {:induction false} ReasonsExactly(resources: Resources, availability: Availability, author: Implementer, needs: Needs, ids: seq<string>, e: Exclusion)
    requires (forall id | id in ids :: id in resources) && e in Exclusions(resources, availability, author, needs, ids)
    ensures e.id in resources
    ensures
      var r, state := resources[e.id], NormalizeAvailability(availability, e.id);
      e.reason ==
        if r.executor == author.executor then "same_executor_as_implementer"
        else if r.modelResolution == author.modelResolution then "same_model_resolution_as_implementer"
        else if state != "AVAILABLE" then "availability:" + state
        else if Lacks(r, needs) then "missing_required_capabilities"
        else "data_sensitivity_mismatch"
  {
    ReasonsTrue(resources, availability, author, needs, ids);
    LacksMeaning(resources[e.id], needs);
  }

  /** The selection of a whole request: the implementer's names are stripped and must not be empty, and it
      succeeds iff somebody is eligible. */
  lemma {:induction false} SelectExactly(resources: Resources, availability: Availability, author: Implementer, needs: Needs,
                                         order: seq<string>, ids: seq<string>)
    requires NoDuplicates(ids) && forall id | id in ids :: id in resources
    ensures
      var s, who := Select(resources, availability, author, needs, order, ids), Implementer(Strip(author.executor), Strip(author.modelResolution));
      && (s == NoImplementer <==> Strip(author.executor) == "" || Strip(author.modelResolution) == "")
      && (s.Selected? <==> s != NoImplementer && exists id :: id in Eligible(resources, availability, who, needs, ids))
      && (s.Selected? ==> forall id :: id in s.candidates <==> id in Eligible(resources, availability, who, needs, ids))
      && (s.Selected? ==> s.excluded == Exclusions(resources, availability, who, needs, ids))
      && (s.NoReviewer? ==> s.skipped == Exclusions(resources, availability, who, needs, ids))
  {
    var who := Implementer(Strip(author.executor), Strip(author.modelResolution));
    var candidates := Candidates(resources, availability, who, needs, order, ids);
    forall id ensures id in candidates <==> id in Eligible(resources, availability, who, needs, ids) {
      CandidateCount(resources, availability, who, needs, order, ids, id);
      assert id in candidates <==> multiset(candidates)[id] > 0;
    }
    if candidates != [] {
      assert candidates[0] in candidates;
    }
  }

  function Ids(excluded: seq<Exclusion>): seq<string> {
    seq(|excluded|, i requires 0 <= i < |excluded| => excluded[i].id)
  }

  /** A candidate is offered once, or as often as the chain repeats it; nothing else is offered. */
  lemma {:induction false} CandidateCount(resources: Resources, availability: Availability, author: Implementer, needs: Needs,
                                          order: seq<string>, ids: seq<string>, x: string)
    requires NoDuplicates(ids) && forall id | id in ids :: id in resources
    ensures multiset(Candidates(resources, availability, author, needs, order, ids))[x] ==
            if x !in Eligible(resources, availability, author, needs, ids) then 0
            else if multiset(Stripped(order))[x] > 1 then multiset(Stripped(order))[x] else 1
  {
    var eligible := Eligible(resources, availability, author, needs, ids);
    var ordered := Ordered(resources, eligible, Stripped(order));
    var tiers := ImplementerTiers(resources, author);
    OrderedMembers(resources, eligible, Stripped(order), x);
    forall y | y in ordered ensures y in resources {
      OrderedMembers(resources, eligible, Stripped(order), y);
    }
    OfTierMember(resources, ordered, tiers, false, x);
    OfTierMember(resources, ordered, tiers, true, x);
  }

  lemma {:induction false} SameExclusionCount(resources: Resources, author: Implementer, ids: seq<string>, x: string)
    requires NoDuplicates(ids) && forall id | id in ids :: id in resources
    ensures multiset(Ids(SameExclusions(resources, author, ids)))[x] == if x in ids && Same(resources[x], author) then 1 else 0
  {
    if ids != [] {
      var front, last := ids[..|ids| - 1], ids[|ids| - 1];
      NoDuplicatesFront(ids);
      SameExclusionCount(resources, author, front, x);
      var e := SameExclusions(resources, author, front);
      IdsConcat(e, if Same(resources[last], author) then [Exclusion(last, SameReason(resources[last], author))] else []);
      assert ids == front + [last];
    }
  }

  lemma {:induction false} IdsConcat(a: seq<Exclusion>, b: seq<Exclusion>)
    ensures Ids(a + b) == Ids(a) + Ids(b)
  {
  }

  lemma {:induction false} FilterExclusionCount(resources: Resources, availability: Availability, needs: Needs, kept: set<string>, ids: seq<string>, x: string)
    requires NoDuplicates(ids) && forall id | id in ids :: id in resources
    ensures multiset(Ids(FilterExclusions(resources, availability, needs, kept, ids)))[x] == if x in ids && x !in kept then 1 else 0
  {
    if ids != [] {
      var front, last := ids[..|ids| - 1], ids[|ids| - 1];
      NoDuplicatesFront(ids);
      FilterExclusionCount(resources, availability, needs, kept, front, x);
      var e := FilterExclusions(resources, availability, needs, kept, front);
      var more := if last in kept then [] else [Exclusion(last, Explanation(resources[last], NormalizeAvailability(availability, last), needs))];
      assert FilterExclusions(resources, availability, needs, kept, ids) == e + more;
      IdsConcat(e, more);
      assert Ids(more) == if last in kept then [] else [last];
      CountConcat(Ids(e), Ids(more), x);
    }
  }

  lemma {:induction false} ExclusionCount(resources: Resources, availability: Availability, author: Implementer, needs: Needs, ids: seq<string>, x: string)
    requires NoDuplicates(ids) && forall id | id in ids :: id in resources
    ensures multiset(Ids(Exclusions(resources, availability, author, needs, ids)))[x] ==
            if x in ids && x !in Eligible(resources, availability, author, needs, ids) then 1 else 0
  {
    IndependentMembers(resources, author, ids);
    var eligible := Eligible(resources, availability, author, needs, ids);
    var independent := Independent(resources, author, ids);
    SameExclusionCount(resources, author, ids, x);
    FilterExclusionCount(resources, availability, needs, Elements(eligible), independent, x);
    IdsConcat(SameExclusions(resources, author, ids), FilterExclusions(resources, availability, needs, Elements(eligible), independent));
  }

  /** Partition: every resource appears exactly once among the candidates and the exclusions, exactly when
      the stripped preferred chain repeats no eligible resource. */
  lemma {:induction false} Partition(resources: Resources, availability: Availability, author: Implementer, needs: Needs,
                                     order: seq<string>, ids: seq<string>)
    requires NoDuplicates(ids) && forall id | id in ids :: id in resources
    ensures
      var candidates := Candidates(resources, availability, author, needs, order, ids);
      var excluded := Ids(Exclusions(resources, availability, author, needs, ids));
      (forall x | x in ids :: multiset(candidates)[x] + multiset(excluded)[x] == 1) <==>
      (forall x | x in Eligible(resources, availability, author, needs, ids) :: multiset(Stripped(order))[x] <= 1)
    ensures forall x | x !in ids ::
              x !in Candidates(resources, availability, author, needs, order, ids) && x !in Ids(Exclusions(resources, availability, author, needs, ids))
  {
    var candidates := Candidates(resources, availability, author, needs, order, ids);
    var excluded := Ids(Exclusions(resources, availability, author, needs, ids));
    forall x ensures multiset(candidates)[x] + multiset(excluded)[x] ==
                     if x !in ids then 0
                     else if x in Eligible(resources, availability, author, needs, ids) && multiset(Stripped(order))[x] > 1
                     then multiset(Stripped(order))[x] else 1
    {
      CandidateCount(resources, availability, author, needs, order, ids, x);
      ExclusionCount(resources, availability, author, needs, ids, x);
    }
    forall x | x !in ids ensures x !in candidates && x !in excluded {
      assert multiset(candidates)[x] == 0 && multiset(excluded)[x] == 0;
    }
  }

  lemma {:induction false} SameExclusionReasons(resources: Resources, author: Implementer, ids: seq<string>)
    requires forall id | id in ids :: id in resources
    ensures forall e | e in SameExclusions(resources, author, ids) ::
              e.id in ids && Same(resources[e.id], author) && e.reason == SameReason(resources[e.id], author)
  {
    if ids != [] {
      SameExclusionReasons(resources, author, ids[..|ids| - 1]);
    }
  }

  lemma {:induction false} FilterExclusionReasons(resources: Resources, availability: Availability, needs: Needs, kept: set<string>, ids: seq<string>)
    requires forall id | id in ids :: id in resources
    ensures forall e | e in FilterExclusions(resources, availability, needs, kept, ids) ::
              e.id in ids && e.id !in kept && e.reason == Explanation(resources[e.id], NormalizeAvailability(availability, e.id), needs)
  {
    if ids != [] {
      FilterExclusionReasons(resources, availability, needs, kept, ids[..|ids| - 1]);
    }
  }

  /** The separate explanation agrees with the filter: every exclusion names a rule that its resource
      really breaks, and the catch-all reason never occurs. */
  lemma {:induction false} ReasonsTrue(resources: Resources, availability: Availability, author: Implementer, needs: Needs, ids: seq<string>)
    requires forall id | id in ids :: id in resources
    ensures forall e | e in Exclusions(resources, availability, author, needs, ids) ::
              && e.id in resources && e.reason != "filtered_out"
              && (if Same(resources[e.id], author) then e.reason == SameReason(resources[e.id], author)
                  else !Passes(resources[e.id], NormalizeAvailability(availability, e.id), needs)
                       && e.reason == Explanation(resources[e.id], NormalizeAvailability(availability, e.id), needs))
  {
    IndependentMembers(resources, author, ids);
    var eligible := Eligible(resources, availability, author, needs, ids);
    SameExclusionReasons(resources, author, ids);
    FilterExclusionReasons(resources, availability, needs, Elements(eligible), Independent(resources, author, ids));
    forall state: string ensures ("availability:" + state)[0] == 'a' {
    }
  }

  // ---- the order of the candidates ----

  ghost predicate Before(xs: seq<string>, a: string, b: string) {
    exists p, q :: 0 <= p < q < |xs| && xs[p] == a && xs[q] == b
  }

  lemma {:induction false} BeforeSnoc(xs: seq<string>, last: string, a: string, b: string)
    ensures Before(xs, a, b) ==> Before(xs + [last], a, b)
    ensures a in xs ==> Before(xs + [last], a, last)
  {
    if Before(xs, a, b) {
      var p, q :| 0 <= p < q < |xs| && xs[p] == a && xs[q] == b;
      assert (xs + [last])[p] == a && (xs + [last])[q] == b;
    }
    if a in xs {
      var p :| 0 <= p < |xs| && xs[p] == a;
      assert (xs + [last])[p] == a && (xs + [last])[|xs|] == last;
    }
  }

  lemma {:induction false} ChainKeepsOrder(order: seq<string>, present: set<string>, i: nat, j: nat)
    requires i < j < |Chain(order, present)|
    ensures Before(order, Chain(order, present)[i], Chain(order, present)[j])
  {
    var front, last := order[..|order| - 1], order[|order| - 1];
    var c := Chain(front, present);
    var a, b := Chain(order, present)[i], Chain(order, present)[j];
    assert order == front + [last];
    BeforeSnoc(front, last, a, b);
    if j < |c| {
      ChainKeepsOrder(front, present, i, j);
    } else {
      assert a in c;
      ChainMember(front, present, a);
    }
  }

  lemma {:induction false} OfTierKeepsOrder(resources: Resources, ids: seq<string>, tiers: set<string>, inside: bool, i: nat, j: nat)
    requires (forall id | id in ids :: id in resources) && i < j < |OfTier(resources, ids, tiers, inside)|
    ensures Before(ids, OfTier(resources, ids, tiers, inside)[i], OfTier(resources, ids, tiers, inside)[j])
  {
    var front, last := ids[..|ids| - 1], ids[|ids| - 1];
    var t := OfTier(resources, front, tiers, inside);
    var a, b := OfTier(resources, ids, tiers, inside)[i], OfTier(resources, ids, tiers, inside)[j];
    assert ids == front + [last];
    BeforeSnoc(front, last, a, b);
    if j < |t| {
      OfTierKeepsOrder(resources, front, tiers, inside, i, j);
    } else {
      assert a in t;
      OfTierMember(resources, front, tiers, inside, a);
    }
  }

  /** `a` is ordered before `b` by the chain, or by priority when neither is in it. */
  ghost predicate RankedBefore(resources: Resources, order: seq<string>, a: string, b: string) {
    if a in order then b in order ==> Before(order, a, b)
    else
      && b !in order && a in resources && b in resources
      && (resources[a].priority < resources[b].priority || (resources[a].priority == resources[b].priority && Less(a, b)))
  }

  lemma {:induction false} RestOutside(present: seq<string>, order: seq<string>, x: string)
    requires x in Without(present, Elements(Chain(order, Elements(present))))
    ensures x in present && x !in order
  {
    WithoutMember(present, Elements(Chain(order, Elements(present))), x);
    ChainMember(order, Elements(present), x);
  }

  lemma {:induction false} OrderedRanked(resources: Resources, present: seq<string>, order: seq<string>, i: nat, j: nat)
    requires NoDuplicates(present) && forall id | id in present :: id in resources
    requires i < j < |Ordered(resources, present, order)|
    ensures RankedBefore(resources, order, Ordered(resources, present, order)[i], Ordered(resources, present, order)[j])
  {
    var chain := Chain(order, Elements(present));
    var rest := Without(present, Elements(chain));
    WithoutDistinct(present, Elements(chain));
    forall x | x in rest ensures x in present && x !in order {
      RestOutside(present, order, x);
    }
    var sorted := SortByPriority(resources, rest);
    if j < |chain| {
      ChainKeepsOrder(order, Elements(present), i, j);
      assert chain[i] in chain;
      ChainMember(order, Elements(present), chain[i]);
    } else {
      assert sorted[j - |chain|] in sorted;
      if i < |chain| {
        assert chain[i] in chain;
        ChainMember(order, Elements(present), chain[i]);
      } else {
        assert sorted[i - |chain|] in sorted;
      }
    }
  }

  /** The order of the candidates: those outside the implementer's cost tiers come first; inside each of
      the two groups the preferred chain comes first, in its order, and the rest follows by priority and
      then id. */
  lemma {:induction false} CandidateOrder(resources: Resources, availability: Availability, author: Implementer, needs: Needs,
                                          order: seq<string>, ids: seq<string>, i: nat, j: nat)
    requires NoDuplicates(ids) && forall id | id in ids :: id in resources
    requires i < j < |Candidates(resources, availability, author, needs, order, ids)|
    ensures
      var candidates, tiers := Candidates(resources, availability, author, needs, order, ids), ImplementerTiers(resources, author);
      var a, b := candidates[i], candidates[j];
      && a in resources && b in resources
      && (resources[a].costTier in tiers ==> resources[b].costTier in tiers)
      && ((resources[a].costTier in tiers) == (resources[b].costTier in tiers) ==> RankedBefore(resources, Stripped(order), a, b))
      && forall t :: t in tiers <==> exists id :: id in resources && resources[id].costTier == t
                                                  && (resources[id].executor == author.executor || resources[id].modelResolution == author.modelResolution)
  {
    var eligible := Eligible(resources, availability, author, needs, ids);
    var ordered := Ordered(resources, eligible, Stripped(order));
    var tiers := ImplementerTiers(resources, author);
    forall y | y in ordered ensures y in resources {
      OrderedMembers(resources, eligible, Stripped(order), y);
    }
    RegroupedOrder(resources, ordered, tiers, i, j);
    var a, b := Regrouped(resources, ordered, tiers)[i], Regrouped(resources, ordered, tiers)[j];
    if Before(ordered, a, b) {
      var p, q :| 0 <= p < q < |ordered| && ordered[p] == a && ordered[q] == b;
      OrderedRanked(resources, eligible, Stripped(order), p, q);
    }
  }

  lemma {:induction false} RegroupedOrder(resources: Resources, ids: seq<string>, tiers: set<string>, i: nat, j: nat)
    requires (forall id | id in ids :: id in resources) && i < j < |Regrouped(resources, ids, tiers)|
    ensures
      var a, b := Regrouped(resources, ids, tiers)[i], Regrouped(resources, ids, tiers)[j];
      && a in ids && b in ids
      && (resources[a].costTier in tiers ==> resources[b].costTier in tiers)
      && ((resources[a].costTier in tiers) == (resources[b].costTier in tiers) ==> Before(ids, a, b))
  {
    var n := |OfTier(resources, ids, tiers, false)|;
    if j < n {
      GroupOrder(resources, ids, tiers, false, i, j);
    } else if i >= n {
      GroupOrder(resources, ids, tiers, true, i - n, j - n);
    } else {
      GroupElement(resources, ids, tiers, false, i);
      GroupElement(resources, ids, tiers, true, j - n);
    }
  }

  lemma {:induction false} GroupElement(resources: Resources, ids: seq<string>, tiers: set<string>, inside: bool, i: nat)
    requires (forall id | id in ids :: id in resources) && i < |OfTier(resources, ids, tiers, inside)|
    ensures var a := OfTier(resources, ids, tiers, inside)[i]; a in ids && (resources[a].costTier in tiers) == inside
  {
    var group := OfTier(resources, ids, tiers, inside);
    assert group[i] in group;
    OfTierMember(resources, ids, tiers, inside, group[i]);
  }

  lemma {:induction false} GroupOrder(resources: Resources, ids: seq<string>, tiers: set<string>, inside: bool, i: nat, j: nat)
    requires (forall id | id in ids :: id in resources) && i < j < |OfTier(resources, ids, tiers, inside)|
    ensures
      var a, b := OfTier(resources, ids, tiers, inside)[i], OfTier(resources, ids, tiers, inside)[j];
      a in ids && b in ids && (resources[a].costTier in tiers) == (resources[b].costTier in tiers) == inside && Before(ids, a, b)
  {
    GroupElement(resources, ids, tiers, inside, i);
    GroupElement(resources, ids, tiers, inside, j);
    OfTierKeepsOrder(resources, ids, tiers, inside, i, j);
  }

  // ---- the loops ----

  /** `filter_resources_for_selection` */
  method FilterResources(resources: Resources, availability: Availability, needs: Needs, ids: seq<string>) returns (selected: seq<string>)
    requires forall id | id in ids :: id in resources
    ensures selected == Filtered(resources, availability, needs, ids)
  {
    var required := Stripped(needs.capabilities);
    selected := [];
    for i := 0 to |ids|
      invariant selected == Filtered(resources, availability, needs, ids[..i])
    {
      assert ids[..i + 1][..i] == ids[..i];
      var state := NormalizeAvailability(availability, ids[i]);
      if state != "AVAILABLE" {
        continue;
      }
      if required != [] && !HasAll(resources[ids[i]], required) {
        continue;
      }
      if needs.sensitivity == "local-only" && resources[ids[i]].sensitivity != "local-only" {
        continue;
      }
      selected := selected + [ids[i]];
    }
    assert ids[..|ids|] == ids;
  }

  /** `select_reviewer_candidates`; `ids` are the resource ids in order. */
  method SelectReviewers(resources: Resources, availability: Availability, implementer: Implementer, needs: Needs,
                         order: seq<string>, ids: seq<string>) returns (s: Selection)
    requires IsIdOrder(resources, ids)
    ensures NoDuplicates(ids) && s == Select(resources, availability, implementer, needs, order, ids)
  {
    AscendingDistinct(ids);
    var who := Implementer(Strip(implementer.executor), Strip(implementer.modelResolution));
    if who.executor == "" || who.modelResolution == "" {
      return NoImplementer;
    }
    var excluded, rest, tiers := ExcludeSame(resources, who, ids);
    IndependentMembers(resources, who, ids);
    var filtered := FilterResources(resources, availability, needs, rest);
    assert filtered == Eligible(resources, availability, who, needs, ids);
    var ordered := Ordered(resources, filtered, Stripped(order));
    forall x | x in ordered ensures x in resources {
      OrderedMembers(resources, filtered, Stripped(order), x);
    }
    excluded := Explain(resources, availability, needs, filtered, rest, excluded);
    ordered := Regrouped(resources, ordered, tiers);
    s := if ordered == [] then NoReviewer(excluded) else Selected(ordered, excluded);
  }

  method ExcludeSame(resources: Resources, author: Implementer, ids: seq<string>)
    returns (excluded: seq<Exclusion>, rest: seq<string>, tiers: set<string>)
    requires forall id :: id in ids <==> id in resources
    ensures excluded == SameExclusions(resources, author, ids) && rest == Independent(resources, author, ids)
    ensures tiers == ImplementerTiers(resources, author)
  {
    excluded, rest, tiers := [], [], {};
    for i := 0 to |ids|
      invariant excluded == SameExclusions(resources, author, ids[..i]) && rest == Independent(resources, author, ids[..i])
      invariant forall t :: t in tiers <==> exists k :: 0 <= k < i && Same(resources[ids[k]], author) && resources[ids[k]].costTier == t
    {
      assert ids[..i + 1][..i] == ids[..i];
      var r := resources[ids[i]];
      if r.executor == author.executor {
        tiers := tiers + {r.costTier};
        excluded := excluded + [Exclusion(ids[i], "same_executor_as_implementer")];
      } else if r.modelResolution == author.modelResolution {
        tiers := tiers + {r.costTier};
        excluded := excluded + [Exclusion(ids[i], "same_model_resolution_as_implementer")];
      } else {
        rest := rest + [ids[i]];
      }
    }
    assert ids[..|ids|] == ids;
    TiersOf(resources, author, ids, tiers);
  }

  lemma {:induction false} TiersOf(resources: Resources, author: Implementer, ids: seq<string>, tiers: set<string>)
    requires forall id :: id in ids <==> id in resources
    requires forall t :: t in tiers <==> exists k :: 0 <= k < |ids| && Same(resources[ids[k]], author) && resources[ids[k]].costTier == t
    ensures tiers == ImplementerTiers(resources, author)
  {
    forall t | t in ImplementerTiers(resources, author) ensures t in tiers {
      var id :| id in resources && Same(resources[id], author) && resources[id].costTier == t;
      var k :| 0 <= k < |ids| && ids[k] == id;
    }
    forall t | t in tiers ensures t in ImplementerTiers(resources, author) {
      var k :| 0 <= k < |ids| && Same(resources[ids[k]], author) && resources[ids[k]].costTier == t;
      assert ids[k] in resources;
    }
  }

  method Explain(resources: Resources, availability: Availability, needs: Needs, filtered: seq<string>, rest: seq<string>, before: seq<Exclusion>)
    returns (excluded: seq<Exclusion>)
    requires forall id | id in rest :: id in resources
    ensures excluded == before + FilterExclusions(resources, availability, needs, Elements(filtered), rest)
  {
    excluded := before;
    for i := 0 to |rest|
      invariant excluded == before + FilterExclusions(resources, availability, needs, Elements(filtered), rest[..i])
    {
      assert rest[..i + 1][..i] == rest[..i];
      var id := rest[i];
      if id !in filtered {
        var reason := ReasonFor(resources[id], NormalizeAvailability(availability, id), needs);
        excluded := excluded + [Exclusion(id, reason)];
      }
    }
    assert rest[..|rest|] == rest;
  }

  method ReasonFor(r: Resource, state: string, needs: Needs) returns (reason: string)
    ensures reason == Explanation(r, state, needs)
  {
    var required := Stripped(needs.capabilities);
    if state != "AVAILABLE" {
      return "availability:" + state;
    }
    if required != [] && !HasAll(r, required) {
      return "missing_required_capabilities";
    }
    if needs.sensitivity == "local-only" && r.sensitivity != "local-only" {
      return "data_sensitivity_mismatch";
    }
    reason := "filtered_out";
  }
}
