/** The jobs that the scheduler builds from a plan: which hot areas, semantic locks and shared locks
    each slice asks for. Whitespace is ASCII whitespace and letters are lowered as ASCII letters. */
module SlicePlan {
  import opened Text

  /** One entry of `slices` in the plan file; a missing key is the empty list or string. */
  datatype Payload = Payload(
    name: string, repo: string, dependsOn: seq<string>, hotAreas: seq<string>, hotArea: string,
    ownedPatterns: seq<string>, semanticLocks: seq<string>, ownedTargets: seq<string>)

  datatype Job = Job(
    repo: string, dependsOn: seq<string>, hotAreas: seq<string>, semanticLocks: seq<string>, ownedTargets: seq<string>)

  type Plan = map<string, Job>

  /** A lock to take in the shared store before a slice may start. */
  datatype Request = Request(name: string, scope: string, repo: string)

  // ---- string helpers ----

  predicate IsSpace(c: char) {
    c == ' ' || '\t' <= c <= '\r' || '\U{1C}' <= c <= '\U{1F}'
  }

  function StripLeft(s: string): (r: string)
    ensures r != "" ==> !IsSpace(r[0])
  {
    if s != "" && IsSpace(s[0]) then StripLeft(s[1..]) else s
  }

  function StripRight(s: string): (r: string)
    ensures r != "" ==> !IsSpace(r[|r| - 1])
    ensures r <= s
  {
    if s != "" && IsSpace(s[|s| - 1]) then StripRight(s[..|s| - 1]) else s
  }

  function Strip(s: string): string {
    StripRight(StripLeft(s))
  }

  lemma {:induction false} Spaces(c: char)
    ensures IsSpace(c) <==> c in " \t\n\r" || c as int in {11, 12, 28, 29, 30, 31}
  {
  }

  lemma {:induction false} StripLeftMeaning(s: string)
    ensures |StripLeft(s)| <= |s| && StripLeft(s) == s[|s| - |StripLeft(s)|..]
    ensures forall i | 0 <= i < |s| - |StripLeft(s)| :: IsSpace(s[i])
  {
    if s != "" && IsSpace(s[0]) {
      StripLeftMeaning(s[1..]);
      forall i | 1 <= i < |s| - |StripLeft(s)| ensures IsSpace(s[i]) {
        assert s[1..][i - 1] == s[i];
      }
    }
  }

  lemma {:induction false} StripRightMeaning(s: string)
    ensures forall i | |StripRight(s)| <= i < |s| :: IsSpace(s[i])
  {
    if s != "" && IsSpace(s[|s| - 1]) {
      StripRightMeaning(s[..|s| - 1]);
      forall i | |StripRight(s)| <= i < |s| - 1 ensures IsSpace(s[i]) {
        assert s[..|s| - 1][i] == s[i];
      }
    }
  }

  /** Stripping takes the whitespace at both ends away and nothing else. */
  lemma {:induction false} StripMeaning(s: string) returns (i: nat, j: nat)
    ensures i <= j <= |s| && Strip(s) == s[i..j]
    ensures forall k | 0 <= k < i || j <= k < |s| :: IsSpace(s[k])
    ensures i < j ==> !IsSpace(s[i]) && !IsSpace(s[j - 1])
  {
    var left := StripLeft(s);
    StripLeftMeaning(s);
    StripRightMeaning(left);
    i, j := |s| - |left|, |s| - |left| + |Strip(s)|;
    forall k | j <= k < |s| ensures IsSpace(s[k]) {
      assert left[k - i] == s[k];
    }
    assert Strip(s) == left[..|Strip(s)|] == s[i..j];
  }

  /** `[x.strip() for x in xs if x.strip()]` */
  function Stripped(xs: seq<string>): seq<string> {
    if xs == [] then []
    else (if Strip(xs[0]) == "" then [] else [Strip(xs[0])]) + Stripped(xs[1..])
  }

  lemma {:induction false} StrippedMember(xs: seq<string>, y: string)
    ensures y in Stripped(xs) <==> y != "" && exists x :: x in xs && y == Strip(x)
  {
    if xs != [] {
      StrippedMember(xs[1..], y);
      assert xs == [xs[0]] + xs[1..];
      assert xs[0] in xs;
      assert forall x | x in xs[1..] :: x in xs;
    }
  }

  /** `ys` are the nonempty strippings of the entries of `xs` at the places `at`, and the other entries are
      blank. */
  ghost predicate KeptAt(xs: seq<string>, ys: seq<string>, at: seq<nat>) {
    && |at| == |ys|
    && (forall i | 0 <= i < |at| :: at[i] < |xs| && ys[i] == Strip(xs[at[i]]) && ys[i] != "")
    && (forall i, k | 0 <= i < k < |at| :: at[i] < at[k])
    && (forall m: nat | m < |xs| && m !in at :: Strip(xs[m]) == "")
  }

  /** Every entry that is not blank is kept, stripped, once and in its order. */
  lemma {:induction false} StrippedInOrder(xs: seq<string>) returns (at: seq<nat>)
    ensures KeptAt(xs, Stripped(xs), at)
    decreases |xs|
  {
    if xs == [] {
      at := [];
    } else {
      var front, last := xs[..|xs| - 1], xs[|xs| - 1];
      var before := StrippedInOrder(front);
      at := KeptWith(front, before, last);
      assert front + [last] == xs;
    }
  }

  lemma {:induction false} KeptWith(xs: seq<string>, before: seq<nat>, x: string) returns (at: seq<nat>)
    requires KeptAt(xs, Stripped(xs), before)
    ensures KeptAt(xs + [x], Stripped(xs + [x]), at)
  {
    KeptSnoc(xs, Stripped(xs), before, x);
    StrippedEnd(xs, x);
    at := if Strip(x) == "" then before else before + [|xs|];
  }

  lemma {:induction false} StrippedEnd(xs: seq<string>, x: string)
    ensures Stripped(xs + [x]) == Stripped(xs) + if Strip(x) == "" then [] else [Strip(x)]
  {
    if xs == [] {
      assert [] + [x] == [x] && [x][1..] == [];
    } else {
      StrippedEnd(xs[1..], x);
      assert (xs + [x])[1..] == xs[1..] + [x] && (xs + [x])[0] == xs[0];
    }
  }

  lemma {:induction false} KeptSnoc(xs: seq<string>, ys: seq<string>, at: seq<nat>, x: string)
    requires KeptAt(xs, ys, at)
    ensures
      if Strip(x) == "" then KeptAt(xs + [x], ys, at)
      else KeptAt(xs + [x], ys + [Strip(x)], at + [|xs|])
  {
    assert forall m: nat | m < |xs| :: m in at + [|xs|] <==> m in at;
    assert |xs| in at + [|xs|];
  }

  function Lower(c: char): char {
    if 'A' <= c <= 'Z' then c - 'A' + 'a' else c
  }

  function LowerAll(s: string): string {
    seq(|s|, i requires 0 <= i < |s| => Lower(s[i]))
  }

  /** Lowering moves each capital letter 32 places and keeps every other character. */
  lemma {:induction false} LowerMeaning(s: string)
    ensures |LowerAll(s)| == |s|
    ensures forall i | 0 <= i < |s| :: LowerAll(s)[i] as int == s[i] as int + if 65 <= s[i] as int <= 90 then 32 else 0
  {
  }

  predicate Contains(s: string, t: string) {
    t <= s || (s != "" && Contains(s[1..], t))
  }

  function Slashes(s: string): string {
    seq(|s|, i requires 0 <= i < |s| => if s[i] == '\\' then '/' else s[i])
  }

  lemma {:induction false} SlashesMeaning(s: string)
    ensures |Slashes(s)| == |s| && '\\' !in Slashes(s)
    ensures forall i | 0 <= i < |s| && s[i] != Slashes(s)[i] :: s[i] == '\\' && Slashes(s)[i] == '/'
  {
  }

  /** `s.split("/")` */
  function Split(s: string): (r: seq<string>)
    ensures r != []
  {
    if s == "" then [""]
    else
      var rest := Split(s[1..]);
      if s[0] == '/' then [""] + rest else [[s[0]] + rest[0]] + rest[1..]
  }

  /** The components of a pattern that are neither empty nor `**`. Stripping slashes at the ends first
      only removes empty components. */
  function Components(parts: seq<string>): (r: seq<string>)
    ensures forall p | p in r :: p != ""
  {
    if parts == [] then []
    else (if parts[0] == "" || parts[0] == "**" then [] else [parts[0]]) + Components(parts[1..])
  }

  function AreaOfPattern(pattern: string): string {
    var parts := Components(Split(Slashes(pattern)));
    if parts == [] then "" else if |parts| == 1 then parts[0] else parts[0] + "/" + parts[1]
  }

  /** Whether a component counts. */
  predicate IsArea(part: string) {
    part != "" && part != "**"
  }

  lemma {:induction false} ComponentsAt(parts: seq<string>, i: nat)
    requires i < |parts| && IsArea(parts[i]) && forall k | 0 <= k < i :: !IsArea(parts[k])
    ensures Components(parts) == [parts[i]] + Components(parts[i + 1..])
    decreases i
  {
    if i > 0 {
      ComponentsAt(parts[1..], i - 1);
      assert parts[1..][i..] == parts[i + 1..];
    }
  }

  lemma {:induction false} ComponentsNone(parts: seq<string>)
    requires forall k | 0 <= k < |parts| :: !IsArea(parts[k])
    ensures Components(parts) == []
  {
    if parts != [] {
      ComponentsNone(parts[1..]);
    }
  }

  /** `a` is made of the first two parts that are neither empty nor `**`, or of the only one. */
  ghost predicate FirstAreas(parts: seq<string>, a: string) {
    || (a == "" && forall k | 0 <= k < |parts| :: !IsArea(parts[k]))
    || (exists i: nat :: i < |parts| && a == parts[i] && OnlyAreas(parts, {i}, |parts|))
    || (exists i: nat, k: nat :: i < k < |parts| && a == parts[i] + "/" + parts[k] && OnlyAreas(parts, {i, k}, k + 1))
  }

  /** The parts before `n` that count are those at the places `at`. */
  ghost predicate OnlyAreas(parts: seq<string>, at: set<nat>, n: nat)
    requires n <= |parts|
  {
    forall m: nat | m < n :: IsArea(parts[m]) <==> m in at
  }

  lemma {:induction false} FirstArea(parts: seq<string>) returns (i: nat)
    ensures i <= |parts| && (forall k | 0 <= k < i :: !IsArea(parts[k])) && (i < |parts| ==> IsArea(parts[i]))
  {
    i := 0;
    while i < |parts| && !IsArea(parts[i])
      invariant i <= |parts| && forall k | 0 <= k < i :: !IsArea(parts[k])
    {
      i := i + 1;
    }
  }

  /** The area of a pattern, from its parts between slashes and backslashes. */
  lemma {:induction false} AreaMeaning(pattern: string)
    ensures FirstAreas(Split(Slashes(pattern)), AreaOfPattern(pattern))
  {
    var parts := Split(Slashes(pattern));
    var i := FirstArea(parts);
    if i == |parts| {
      ComponentsNone(parts);
    } else {
      ComponentsAt(parts, i);
      var rest := parts[i + 1..];
      var m := FirstArea(rest);
      if m == |rest| {
        ComponentsNone(rest);
        forall k: nat | k < |parts| ensures IsArea(parts[k]) <==> k in {i} {
          assert k > i ==> parts[k] == rest[k - i - 1];
        }
        assert OnlyAreas(parts, {i}, |parts|);
      } else {
        ComponentsAt(rest, m);
        var k := i + 1 + m;
        forall l: nat | l < k + 1 ensures IsArea(parts[l]) <==> l in {i, k} {
          assert l > i ==> parts[l] == rest[l - i - 1];
        }
        assert OnlyAreas(parts, {i, k}, k + 1) && parts[k] == rest[m];
      }
    }
  }

  /** `"/".join(parts)` */
  function JoinParts(parts: seq<string>): string {
    if parts == [] then "" else if |parts| == 1 then parts[0] else parts[0] + "/" + JoinParts(parts[1..])
  }

  /** Splitting loses nothing and leaves no slash in any part. */
  lemma {:induction false} SplitJoins(s: string)
    ensures JoinParts(Split(s)) == s && forall p | p in Split(s) :: '/' !in p
  {
    if s != "" {
      var rest := Split(s[1..]);
      SplitJoins(s[1..]);
      assert rest == [rest[0]] + rest[1..] && rest[0] in rest;
      assert s == [s[0]] + s[1..];
      if s[0] == '/' {
        assert ([""] + rest)[1..] == rest;
      } else {
        assert ([[s[0]] + rest[0]] + rest[1..])[1..] == rest[1..];
      }
    }
  }

  /** `t in s` */
  lemma {:induction false} ContainsMeaning(s: string, t: string)
    ensures Contains(s, t) <==> exists i :: 0 <= i <= |s| && t <= s[i..]
  {
    if t <= s {
      assert s[0..] == s;
    }
    if s != "" {
      ContainsMeaning(s[1..], t);
      forall i | 0 <= i < |s| ensures s[1..][i..] == s[i + 1..] {
      }
      if i :| 0 <= i <= |s| && t <= s[i..] {
        if i > 0 {
          assert s[1..][i - 1..] == s[i..];
        } else {
          assert s[0..] == s;
        }
      }
    }
  }

  // ---- hot areas ----

  function PatternAreas(patterns: seq<string>): seq<string> {
    if patterns == [] then []
    else
      var front, p := patterns[..|patterns| - 1], patterns[|patterns| - 1];
      PatternAreas(front) + (if Strip(p) == "" || AreaOfPattern(p) == "" then [] else [AreaOfPattern(p)])
  }

  /** Declared areas win over the single explicit area, which wins over areas inferred from patterns. */
  function HotAreas(p: Payload): (r: seq<string>)
    ensures Ascending(r)
  {
    var declared := Stripped(p.hotAreas);
    if declared != [] then SortDistinct(declared)
    else if Strip(p.hotArea) != "" then [Strip(p.hotArea)]
    else SortDistinct(PatternAreas(p.ownedPatterns))
  }

  /** Which hot areas a slice has. */
  lemma {:induction false} HotAreasMeaning(p: Payload, a: string)
    ensures a in HotAreas(p) <==>
              if Stripped(p.hotAreas) != [] then a in Stripped(p.hotAreas)
              else if Strip(p.hotArea) != "" then a == Strip(p.hotArea)
              else a != "" && exists q :: q in p.ownedPatterns && Strip(q) != "" && AreaOfPattern(q) == a
  {
    PatternAreasMember(p.ownedPatterns, a);
  }

  lemma {:induction false} PatternAreasMember(patterns: seq<string>, a: string)
    ensures a in PatternAreas(patterns) <==> a != "" && exists q :: q in patterns && Strip(q) != "" && AreaOfPattern(q) == a
  {
    if patterns != [] {
      var front, last := patterns[..|patterns| - 1], patterns[|patterns| - 1];
      PatternAreasMember(front, a);
      assert patterns == front + [last];
      assert last in patterns && forall q | q in front :: q in patterns;
    }
  }

  method ComputeHotAreas(p: Payload) returns (r: seq<string>)
    ensures r == HotAreas(p)
  {
    var declared := Stripped(p.hotAreas);
    if declared != [] {
      return SortDistinct(declared);
    }
    if Strip(p.hotArea) != "" {
      return [Strip(p.hotArea)];
    }
    r := [];
    for i := 0 to |p.ownedPatterns|
      invariant r == PatternAreas(p.ownedPatterns[..i])
    {
      var pattern := p.ownedPatterns[i];
      assert p.ownedPatterns[..i + 1][..i] == p.ownedPatterns[..i];
      if Strip(pattern) == "" {
        continue;
      }
      var area := AreaOfPattern(pattern);
      if area == "" {
        continue;
      }
      r := r + [area];
    }
    assert p.ownedPatterns[..|p.ownedPatterns|] == p.ownedPatterns;
    r := SortDistinct(r);
  }

  // ---- semantic locks ----

  const MIGRATIONS := "db:migrations"
  const ROUTES := "api:routes"
  const SCHEMA := "contracts:schema"

  predicate Infers(target: string, lock: string) {
    var t := LowerAll(target);
    Strip(target) != "" &&
    ((lock == MIGRATIONS && Contains(t, "migrations"))
     || (lock == ROUTES && (Contains(t, "/api/") || Contains(t, "routes")))
     || (lock == SCHEMA && Contains(t, "contract")))
  }

  function LocksOf(target: string): seq<string> {
    var t := LowerAll(target);
    if Strip(target) == "" then []
    else
      (if Contains(t, "migrations") then [MIGRATIONS] else [])
      + (if Contains(t, "/api/") || Contains(t, "routes") then [ROUTES] else [])
      + (if Contains(t, "contract") then [SCHEMA] else [])
  }

  function InferredLocks(targets: seq<string>): seq<string> {
    if targets == [] then []
    else InferredLocks(targets[..|targets| - 1]) + LocksOf(targets[|targets| - 1])
  }

  function SemanticLocks(p: Payload): (r: seq<string>)
    ensures Ascending(r)
  {
    var declared := Stripped(p.semanticLocks);
    if declared != [] then SortDistinct(declared) else SortDistinct(InferredLocks(p.ownedTargets))
  }

  /** Declared locks win; otherwise each of the three known locks is inferred iff some target hints at it. */
  lemma {:induction false} SemanticLocksMeaning(p: Payload, l: string)
    ensures l in SemanticLocks(p) <==>
              if Stripped(p.semanticLocks) != [] then l in Stripped(p.semanticLocks)
              else exists t :: t in p.ownedTargets && Infers(t, l)
  {
    InferredMember(p.ownedTargets, l);
  }

  lemma {:induction false} LocksOfMember(target: string, l: string)
    ensures l in LocksOf(target) <==> Infers(target, l)
  {
  }

  lemma {:induction false} InferredMember(targets: seq<string>, l: string)
    ensures l in InferredLocks(targets) <==> exists t :: t in targets && Infers(t, l)
  {
    if targets != [] {
      var front, last := targets[..|targets| - 1], targets[|targets| - 1];
      InferredMember(front, l);
      assert targets == front + [last];
      LocksOfMember(last, l);
      assert last in targets && forall t | t in front :: t in targets;
    }
  }

  method ComputeSemanticLocks(p: Payload) returns (r: seq<string>)
    ensures r == SemanticLocks(p)
  {
    var declared := Stripped(p.semanticLocks);
    if declared != [] {
      return SortDistinct(declared);
    }
    var inferred := [];
    for i := 0 to |p.ownedTargets|
      invariant inferred == InferredLocks(p.ownedTargets[..i])
    {
      var target := p.ownedTargets[i];
      assert p.ownedTargets[..i + 1][..i] == p.ownedTargets[..i];
      inferred := inferred + LocksOf(target);
    }
    assert p.ownedTargets[..|p.ownedTargets|] == p.ownedTargets;
    r := SortDistinct(inferred);
  }

  // ---- jobs ----

  /** Distinct lists are what the counters and the lock table of the scheduler rely on. */
  ghost predicate WellFormed(plan: Plan) {
    forall j | j in plan :: Ascending(plan[j].hotAreas) && Ascending(plan[j].semanticLocks)
  }

  function JobOf(p: Payload): Job {
    Job(Strip(p.repo), Stripped(p.dependsOn), HotAreas(p), SemanticLocks(p), p.ownedTargets)
  }

  function JobsOf(payloads: seq<Payload>): (r: Plan)
    ensures WellFormed(r)
  {
    if payloads == [] then map[]
    else
      Overwrite(JobsOf(payloads[..|payloads| - 1]), payloads[|payloads| - 1])
  }

  function Overwrite(jobs: Plan, p: Payload): (r: Plan)
    requires WellFormed(jobs)
    ensures WellFormed(r)
  {
    if Strip(p.name) == "" then jobs else jobs[Strip(p.name) := JobOf(p)]
  }

  lemma {:induction false} OverwriteOther(jobs: Plan, p: Payload, name: string)
    requires WellFormed(jobs) && Strip(p.name) != name && name in jobs
    ensures name in Overwrite(jobs, p) && Overwrite(jobs, p)[name] == jobs[name]
  {
  }

  lemma {:induction false} OverwriteSame(jobs: Plan, p: Payload)
    requires WellFormed(jobs) && Strip(p.name) != ""
    ensures Strip(p.name) in Overwrite(jobs, p) && Overwrite(jobs, p)[Strip(p.name)] == JobOf(p)
  {
  }

  lemma {:induction false} JobNames(payloads: seq<Payload>, name: string)
    ensures name in JobsOf(payloads) <==> name != "" && exists p :: p in payloads && Strip(p.name) == name
  {
    if payloads != [] {
      var front, last := payloads[..|payloads| - 1], payloads[|payloads| - 1];
      JobNames(front, name);
      assert payloads == front + [last];
      assert last in payloads && forall p | p in front :: p in payloads;
    }
  }

  predicate Declared(xs: seq<string>, y: string) {
    y != "" && exists x :: x in xs && Strip(x) == y
  }

  predicate SomeDeclared(xs: seq<string>) {
    exists x :: x in xs && Strip(x) != ""
  }

  lemma {:induction false} StrippedDeclared(xs: seq<string>)
    ensures forall y :: y in Stripped(xs) <==> Declared(xs, y)
    ensures Stripped(xs) != [] <==> SomeDeclared(xs)
  {
    forall y ensures y in Stripped(xs) <==> Declared(xs, y) {
      StrippedMember(xs, y);
    }
    NonemptyIff(Stripped(xs));
    if x :| x in xs && Strip(x) != "" {
      assert Declared(xs, Strip(x));
    }
    if Stripped(xs) != [] {
      assert Declared(xs, Stripped(xs)[0]);
    }
  }

  /** The hot areas and semantic locks of a slice as its plan entry declares or implies them. */
  ghost predicate AreasFrom(p: Payload, areas: seq<string>) {
    Ascending(areas) && forall a :: a in areas <==>
      if SomeDeclared(p.hotAreas) then Declared(p.hotAreas, a)
      else if Strip(p.hotArea) != "" then a == Strip(p.hotArea)
      else a != "" && exists q :: q in p.ownedPatterns && Strip(q) != "" && FirstAreas(Split(Slashes(q)), a)
  }

  ghost predicate LocksFrom(p: Payload, locks: seq<string>) {
    Ascending(locks) && forall l :: l in locks <==>
      if SomeDeclared(p.semanticLocks) then Declared(p.semanticLocks, l)
      else
        || (l == "db:migrations" && Mentions(p.ownedTargets, "migrations"))
        || (l == "api:routes" && (Mentions(p.ownedTargets, "/api/") || Mentions(p.ownedTargets, "routes")))
        || (l == "contracts:schema" && Mentions(p.ownedTargets, "contract"))
  }

  /** Some target that is not blank has `hint` in it somewhere, in whatever case. */
  ghost predicate Mentions(targets: seq<string>, hint: string) {
    exists t, i :: t in targets && Strip(t) != "" && 0 <= i <= |t| && hint <= LowerAll(t)[i..]
  }

  lemma {:induction false} AreaUnique(parts: seq<string>, a: string, b: string)
    requires FirstAreas(parts, a) && FirstAreas(parts, b)
    ensures a == b
  {
    var n := FirstArea(parts);
    if n < |parts| {
      var rest := parts[n + 1..];
      var m := FirstArea(rest);
      assert forall k: nat | k < |rest| :: rest[k] == parts[n + 1 + k];
      AreaIs(parts, a, n, m);
      AreaIs(parts, b, n, m);
    }
  }

  lemma {:induction false} AreaIs(parts: seq<string>, a: string, n: nat, m: nat)
    requires FirstAreas(parts, a) && n < |parts| && IsArea(parts[n]) && n + 1 + m <= |parts|
    requires forall k: nat | k < n || n < k < n + 1 + m :: !IsArea(parts[k])
    requires n + 1 + m < |parts| ==> IsArea(parts[n + 1 + m])
    ensures a == if n + 1 + m == |parts| then parts[n] else parts[n] + "/" + parts[n + 1 + m]
  {
    if i: nat :| i < |parts| && a == parts[i] && OnlyAreas(parts, {i}, |parts|) {
      assert n in {i};
      assert n + 1 + m < |parts| ==> n + 1 + m in {i};
    } else if i: nat, k: nat :| i < k < |parts| && a == parts[i] + "/" + parts[k] && OnlyAreas(parts, {i, k}, k + 1) {
      assert i in {i, k} && k in {i, k};
      assert IsArea(parts[i]) && IsArea(parts[k]);
      assert n <= i && (n < k ==> n in {i, k});
      assert n + 1 + m < k ==> n + 1 + m in {i, k};
    }
  }

  lemma {:induction false} FieldAreas(p: Payload)
    ensures AreasFrom(p, HotAreas(p))
  {
    StrippedDeclared(p.hotAreas);
    forall a ensures a in HotAreas(p) <==>
        if SomeDeclared(p.hotAreas) then Declared(p.hotAreas, a)
        else if Strip(p.hotArea) != "" then a == Strip(p.hotArea)
        else a != "" && exists q :: q in p.ownedPatterns && Strip(q) != "" && FirstAreas(Split(Slashes(q)), a)
    {
      HotAreasMeaning(p, a);
      forall q | q in p.ownedPatterns ensures AreaOfPattern(q) == a <==> FirstAreas(Split(Slashes(q)), a) {
        AreaMeaning(q);
        if FirstAreas(Split(Slashes(q)), a) {
          AreaUnique(Split(Slashes(q)), a, AreaOfPattern(q));
        }
      }
    }
  }

  lemma {:induction false} MentionsMeaning(targets: seq<string>, hint: string)
    ensures Mentions(targets, hint) <==> exists t :: t in targets && Strip(t) != "" && Contains(LowerAll(t), hint)
  {
    forall t | t in targets && Strip(t) != ""
      ensures Contains(LowerAll(t), hint) <==> exists i :: 0 <= i <= |t| && hint <= LowerAll(t)[i..]
    {
      ContainsMeaning(LowerAll(t), hint);
    }
  }

  lemma {:induction false} FieldLocks(p: Payload)
    ensures LocksFrom(p, SemanticLocks(p))
  {
    StrippedDeclared(p.semanticLocks);
    MentionsMeaning(p.ownedTargets, "migrations");
    MentionsMeaning(p.ownedTargets, "/api/");
    MentionsMeaning(p.ownedTargets, "routes");
    MentionsMeaning(p.ownedTargets, "contract");
    forall l {
      SemanticLocksMeaning(p, l);
    }
  }

  /** What the job of a slice is, field by field, from the last plan entry of its name. */
  lemma {:induction false} JobFields(payloads: seq<Payload>, i: nat) returns (at: seq<nat>)
    requires i < |payloads| && Strip(payloads[i].name) != ""
    requires forall k | i < k < |payloads| :: Strip(payloads[k].name) != Strip(payloads[i].name)
    ensures Strip(payloads[i].name) in JobsOf(payloads)
    ensures
      var p, job := payloads[i], JobsOf(payloads)[Strip(payloads[i].name)];
      && job.repo == Strip(p.repo) && job.ownedTargets == p.ownedTargets
      && KeptAt(p.dependsOn, job.dependsOn, at) && (forall d :: d in job.dependsOn <==> Declared(p.dependsOn, d))
      && AreasFrom(p, job.hotAreas) && LocksFrom(p, job.semanticLocks)
  {
    var p := payloads[i];
    LastPayloadWins(payloads, i);
    at := StrippedInOrder(p.dependsOn);
    StrippedDeclared(p.dependsOn);
    FieldAreas(p);
    FieldLocks(p);
  }

  /** A later slice of the same name replaces an earlier one; unnamed slices are dropped. */
  lemma {:induction false} LastPayloadWins(payloads: seq<Payload>, i: nat)
    requires i < |payloads| && Strip(payloads[i].name) != ""
    requires forall k | i < k < |payloads| :: Strip(payloads[k].name) != Strip(payloads[i].name)
    ensures Strip(payloads[i].name) in JobsOf(payloads)
    ensures JobsOf(payloads)[Strip(payloads[i].name)] == JobOf(payloads[i])
    decreases |payloads|
  {
    var front, last := payloads[..|payloads| - 1], payloads[|payloads| - 1];
    var name := Strip(payloads[i].name);
    if i < |front| {
      assert front[i] == payloads[i] && Strip(last.name) != name;
      assert forall k | i < k < |front| :: front[k] == payloads[k];
      LastPayloadWins(front, i);
      OverwriteOther(JobsOf(front), last, name);
    } else {
      OverwriteSame(JobsOf(front), last);
    }
  }

  method BuildJobs(payloads: seq<Payload>) returns (jobs: Plan)
    ensures jobs == JobsOf(payloads)
  {
    jobs := map[];
    for i := 0 to |payloads|
      invariant jobs == JobsOf(payloads[..i])
    {
      var p := payloads[i];
      assert payloads[..i + 1][..i] == payloads[..i];
      var name := Strip(p.name);
      if name == "" {
        continue;
      }
      var areas := ComputeHotAreas(p);
      var locks := ComputeSemanticLocks(p);
      jobs := jobs[name := Job(Strip(p.repo), Stripped(p.dependsOn), areas, locks, p.ownedTargets)];
    }
    assert payloads[..|payloads|] == payloads;
  }

  // ---- locks in the shared store ----

  function Requests(locks: seq<string>, prefix: string, scope: string, repo: string): (r: seq<Request>)
    ensures |r| == |locks|
    ensures forall i | 0 <= i < |r| :: r[i] == Request(prefix + locks[i], scope, repo)
  {
    seq(|locks|, i requires 0 <= i < |locks| => Request(prefix + locks[i], scope, repo))
  }

  /** Semantic locks first; then one lock per hot area, or the lock of the whole repo when there is none. */
  function GlobalLockRequests(job: Job): (r: seq<Request>)
    ensures r != []
  {
    Requests(Stripped(job.semanticLocks), "semantic:", "semantic", job.repo) + AreaRequests(job)
  }

  /** The requests one by one: names, scopes and the repo, in this order. */
  lemma {:induction false} RequestsInOrder(job: Job)
    ensures
      var q, locks, areas := GlobalLockRequests(job), Stripped(job.semanticLocks), Stripped(job.hotAreas);
      && |q| == |locks| + (if areas == [] then 1 else |areas|)
      && (forall i | 0 <= i < |locks| :: q[i] == Request("semantic:" + locks[i], "semantic", job.repo))
      && (areas == [] ==> q[|locks|] == Request("repo:" + job.repo, "repo", job.repo))
      && (forall i | 0 <= i < |areas| :: q[|locks| + i] == Request("hot-area:" + (job.repo + (":" + areas[i])), "hot_area", job.repo))
  {
    var areas := Stripped(job.hotAreas);
    forall i | 0 <= i < |areas| ensures "hot-area:" + job.repo + ":" + areas[i] == "hot-area:" + (job.repo + (":" + areas[i])) {
    }
  }

  lemma {:induction false} StrippedSnoc(xs: seq<string>, i: nat)
    requires i < |xs|
    ensures Stripped(xs[..i + 1]) == Stripped(xs[..i]) + if Strip(xs[i]) == "" then [] else [Strip(xs[i])]
  {
    StrippedEnd(xs[..i], xs[i]);
    assert xs[..i + 1] == xs[..i] + [xs[i]];
  }

  method ComputeGlobalLockRequests(job: Job) returns (requests: seq<Request>)
    ensures requests == GlobalLockRequests(job)
  {
    requests := [];
    for i := 0 to |job.semanticLocks|
      invariant requests == Requests(Stripped(job.semanticLocks[..i]), "semantic:", "semantic", job.repo)
    {
      StrippedSnoc(job.semanticLocks, i);
      var name := Strip(job.semanticLocks[i]);
      if name != "" {
        requests := requests + [Request("semantic:" + name, "semantic", job.repo)];
      }
    }
    assert job.semanticLocks[..|job.semanticLocks|] == job.semanticLocks;
    var areas := Stripped(job.hotAreas);
    if areas != [] {
      ghost var semantic := requests;
      for i := 0 to |areas|
        invariant requests == semantic + Requests(areas, "hot-area:" + job.repo + ":", "hot_area", job.repo)[..i]
      {
        requests := requests + [Request("hot-area:" + job.repo + ":" + areas[i], "hot_area", job.repo)];
      }
    } else {
      requests := requests + [Request("repo:" + job.repo, "repo", job.repo)];
    }
  }

  ghost predicate DistinctNames(r: seq<Request>) {
    forall i, k | 0 <= i < k < |r| :: r[i].name != r[k].name
  }

  lemma {:induction false} PrefixInjective(p: string, x: string, y: string)
    ensures p + x == p + y <==> x == y
  {
    assert (p + x)[|p|..] == x && (p + y)[|p|..] == y;
  }

  lemma {:induction false} PrefixedDistinct(locks: seq<string>, prefix: string, scope: string, repo: string)
    ensures DistinctNames(Requests(locks, prefix, scope, repo)) <==> NoDuplicates(locks)
  {
    var r := Requests(locks, prefix, scope, repo);
    forall i, k | 0 <= i < |locks| && 0 <= k < |locks|
      ensures r[i].name == r[k].name <==> locks[i] == locks[k]
    {
      PrefixInjective(prefix, locks[i], locks[k]);
    }
  }

  lemma {:induction false} ConcatDistinct(a: seq<Request>, b: seq<Request>)
    requires forall i, k | 0 <= i < |a| && 0 <= k < |b| :: a[i].name != b[k].name
    ensures DistinctNames(a + b) <==> DistinctNames(a) && DistinctNames(b)
  {
    if DistinctNames(a + b) {
      forall i, k | 0 <= i < k < |a| ensures a[i].name != a[k].name {
        assert (a + b)[i] == a[i] && (a + b)[k] == a[k];
      }
      forall i, k | 0 <= i < k < |b| ensures b[i].name != b[k].name {
        assert (a + b)[|a| + i] == b[i] && (a + b)[|a| + k] == b[k];
      }
    }
  }

  function AreaRequests(job: Job): seq<Request> {
    var areas := Stripped(job.hotAreas);
    if areas != [] then Requests(areas, "hot-area:" + job.repo + ":", "hot_area", job.repo)
    else [Request("repo:" + job.repo, "repo", job.repo)]
  }

  lemma {:induction false} KindsDiffer(job: Job)
    ensures forall i, k | 0 <= i < |Stripped(job.semanticLocks)| && 0 <= k < |AreaRequests(job)| ::
              "semantic:" + Stripped(job.semanticLocks)[i] != AreaRequests(job)[k].name
  {
    forall i, k | 0 <= i < |Stripped(job.semanticLocks)| && 0 <= k < |AreaRequests(job)|
      ensures "semantic:" + Stripped(job.semanticLocks)[i] != AreaRequests(job)[k].name
    {
      assert ("semantic:" + Stripped(job.semanticLocks)[i])[0] == 's';
      assert AreaRequests(job)[k].name[0] != 's';
    }
  }

  /** The request names of a job repeat exactly when its stripped areas or locks do: the three kinds of
      names never meet. Areas inferred from patterns are not stripped, so two of them can meet here. */
  lemma {:induction false} RequestNamesDistinct(job: Job)
    ensures DistinctNames(GlobalLockRequests(job)) <==>
              NoDuplicates(Stripped(job.semanticLocks)) && NoDuplicates(Stripped(job.hotAreas))
  {
    var locks, areas := Stripped(job.semanticLocks), Stripped(job.hotAreas);
    KindsDiffer(job);
    ConcatDistinct(Requests(locks, "semantic:", "semantic", job.repo), AreaRequests(job));
    PrefixedDistinct(locks, "semantic:", "semantic", job.repo);
    PrefixedDistinct(areas, "hot-area:" + job.repo + ":", "hot_area", job.repo);
  }

  /** `n` is the name of one of the requests of `job`. */
  predicate Asks(job: Job, n: string) {
    exists q :: q in GlobalLockRequests(job) && q.name == n
  }

  lemma {:induction false} RequestsMember(locks: seq<string>, prefix: string, scope: string, repo: string, n: string)
    ensures (exists q :: q in Requests(locks, prefix, scope, repo) && q.name == n) <==> exists l :: l in locks && n == prefix + l
  {
    var r := Requests(locks, prefix, scope, repo);
    if l :| l in locks && n == prefix + l {
      var i :| 0 <= i < |locks| && locks[i] == l;
      assert r[i] in r && r[i].name == n;
    }
    if q :| q in r && q.name == n {
      var i :| 0 <= i < |r| && r[i] == q;
      assert locks[i] in locks && n == prefix + locks[i];
    }
  }

  /** The locks that a slice asks for. */
  lemma {:induction false} AsksMeaning(job: Job, n: string)
    ensures Asks(job, n) <==>
              || (exists l :: l in Stripped(job.semanticLocks) && n == "semantic:" + l)
              || (exists a :: a in Stripped(job.hotAreas) && n == "hot-area:" + job.repo + ":" + a)
              || (Stripped(job.hotAreas) == [] && n == "repo:" + job.repo)
  {
    var semantic, areas := Requests(Stripped(job.semanticLocks), "semantic:", "semantic", job.repo), AreaRequests(job);
    assert forall q :: q in semantic + areas <==> q in semantic || q in areas;
    RequestsMember(Stripped(job.semanticLocks), "semantic:", "semantic", job.repo, n);
    RequestsMember(Stripped(job.hotAreas), "hot-area:" + job.repo + ":", "hot_area", job.repo, n);
    NonemptyIff(Stripped(job.hotAreas));
    if Stripped(job.hotAreas) == [] {
      assert Request("repo:" + job.repo, "repo", job.repo) in areas;
    }
  }

  predicate Compete(a: Job, b: Job) {
    || (exists l :: l in Stripped(a.semanticLocks) && l in Stripped(b.semanticLocks))
    || (Stripped(a.hotAreas) == [] && Stripped(b.hotAreas) == [] && a.repo == b.repo)
    || (exists x, y :: x in Stripped(a.hotAreas) && y in Stripped(b.hotAreas) && a.repo + ":" + x == b.repo + ":" + y)
  }

  lemma {:induction false} HotName(repo: string, area: string)
    ensures "hot-area:" + repo + ":" + area == "hot-area:" + (repo + ":" + area)
  {
  }

  /** Two slices ask for a common lock exactly when they share a semantic lock, or are both whole-repo
      slices of one repo, or name the same repo and area. A whole-repo slice and a hot-area slice of the
      same repo do not compete. */
  lemma {:induction false} CompeteExactly(a: Job, b: Job)
    ensures (exists n :: Asks(a, n) && Asks(b, n)) <==> Compete(a, b)
  {
    if n :| Asks(a, n) && Asks(b, n) {
      CommonName(a, b, n);
    }
    if Compete(a, b) {
      CommonLock(a, b);
    }
  }

  lemma {:induction false} CommonLock(a: Job, b: Job)
    requires Compete(a, b)
    ensures exists n :: Asks(a, n) && Asks(b, n)
  {
    if l :| l in Stripped(a.semanticLocks) && l in Stripped(b.semanticLocks) {
      AsksMeaning(a, "semantic:" + l);
      AsksMeaning(b, "semantic:" + l);
    } else if Stripped(a.hotAreas) == [] && Stripped(b.hotAreas) == [] && a.repo == b.repo {
      AsksMeaning(a, "repo:" + a.repo);
      AsksMeaning(b, "repo:" + a.repo);
    } else {
      var x, y :| x in Stripped(a.hotAreas) && y in Stripped(b.hotAreas) && a.repo + ":" + x == b.repo + ":" + y;
      HotName(a.repo, x);
      HotName(b.repo, y);
      AsksMeaning(a, "hot-area:" + a.repo + ":" + x);
      AsksMeaning(b, "hot-area:" + a.repo + ":" + x);
    }
  }

  lemma {:induction false} CommonName(a: Job, b: Job, n: string)
    requires Asks(a, n) && Asks(b, n)
    ensures Compete(a, b)
  {
    AsksMeaning(a, n);
    AsksMeaning(b, n);
    if l :| l in Stripped(a.semanticLocks) && n == "semantic:" + l {
      assert n[0] == 's';
      var m :| m in Stripped(b.semanticLocks) && n == "semantic:" + m;
      PrefixInjective("semantic:", l, m);
    } else if x :| x in Stripped(a.hotAreas) && n == "hot-area:" + a.repo + ":" + x {
      assert n[0] == 'h';
      var y :| y in Stripped(b.hotAreas) && n == "hot-area:" + b.repo + ":" + y;
      HotName(a.repo, x);
      HotName(b.repo, y);
      PrefixInjective("hot-area:", a.repo + ":" + x, b.repo + ":" + y);
    } else {
      assert n[0] == 'r';
      PrefixInjective("repo:", a.repo, b.repo);
    }
  }
}
