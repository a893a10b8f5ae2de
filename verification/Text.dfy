/** Strings in code-point order: the order that `sorted` uses on slice names and that SQLite's
    default collation uses on timestamps. */
module Text {

  /** `a` comes strictly before `b`. */
  predicate Less(a: string, b: string) {
    b != "" && (a == "" || a[0] < b[0] || (a[0] == b[0] && Less(a[1..], b[1..])))
  }

  predicate Leq(a: string, b: string) {
    a == b || Less(a, b)
  }

  lemma {:induction false} LessIrreflexive(a: string)
    ensures !Less(a, a)
  {
    if a != "" {
      LessIrreflexive(a[1..]);
    }
  }

  lemma {:induction false} LessTransitive(a: string, b: string, c: string)
    requires Less(a, b) && Less(b, c)
    ensures Less(a, c)
  {
    if a != "" && a[0] == b[0] == c[0] {
      LessTransitive(a[1..], b[1..], c[1..]);
    }
  }

  lemma {:induction false} LessTotal(a: string, b: string)
    ensures Less(a, b) || a == b || Less(b, a)
  {
    if a != "" && b != "" && a[0] == b[0] {
      LessTotal(a[1..], b[1..]);
      assert a == [a[0]] + a[1..] && b == [b[0]] + b[1..];
    }
  }

  lemma LessAsymmetric(a: string, b: string)
    requires Less(a, b)
    ensures !Less(b, a) && a != b
  {
    LessIrreflexive(a);
    if Less(b, a) {
      LessTransitive(a, b, a);
    }
  }

  /** Two concatenations whose first halves have the same length compare half by half. */
  lemma {:induction false} LessConcat(a: string, a': string, b: string, b': string)
    requires |a| == |b|
    ensures Less(a + a', b + b') <==> Less(a, b) || (a == b && Less(a', b'))
  {
    if a == "" {
      assert a + a' == a' && b + b' == b';
    } else {
      assert (a + a')[1..] == a[1..] + a' && (b + b')[1..] == b[1..] + b';
      LessConcat(a[1..], a', b[1..], b');
      assert a == [a[0]] + a[1..] && b == [b[0]] + b[1..];
    }
  }

  /** Strictly ascending, hence without repetitions. */
  ghost predicate Ascending(xs: seq<string>) {
    forall i, j | 0 <= i < j < |xs| :: Less(xs[i], xs[j])
  }

  lemma AscendingDistinct(xs: seq<string>)
    requires Ascending(xs)
    ensures forall i, j | 0 <= i < j < |xs| :: xs[i] != xs[j]
  {
    forall i, j | 0 <= i < j < |xs| ensures xs[i] != xs[j] {
      LessIrreflexive(xs[i]);
    }
  }

  function InsertSorted(x: string, xs: seq<string>): (r: seq<string>)
    requires Ascending(xs)
    ensures Ascending(r)
    ensures forall y :: y in r <==> y == x || y in xs
  {
    if xs == [] then [x]
    else if x == xs[0] then xs
    else if Less(x, xs[0]) then
      InsertBeforeAscending(x, xs);
      [x] + xs
    else
      LessTotal(x, xs[0]);
      var rest := InsertSorted(x, xs[1..]);
      assert xs == [xs[0]] + xs[1..];
      assert forall y | y in rest :: Less(xs[0], y);
      [xs[0]] + rest
  }

  lemma InsertBeforeAscending(x: string, xs: seq<string>)
    requires Ascending(xs) && xs != [] && Less(x, xs[0])
    ensures Ascending([x] + xs)
  {
    forall j | 0 <= j < |xs| ensures Less(x, xs[j]) {
      if j > 0 {
        LessTransitive(x, xs[0], xs[j]);
      }
    }
  }

  /** `sorted(set(xs))`. */
  function SortDistinct(xs: seq<string>): (r: seq<string>)
    ensures Ascending(r)
    ensures forall y :: y in r <==> y in xs
  {
    if xs == [] then [] else
      assert xs == [xs[0]] + xs[1..];
      InsertSorted(xs[0], SortDistinct(xs[1..]))
  }

  lemma NonemptyIff(xs: seq<string>)
    ensures xs != [] <==> exists y :: y in xs
  {
    if xs != [] {
      assert xs[0] in xs;
    }
  }

  /** An ascending sequence is determined by its elements, so `SortDistinct` is the only sort. */
  lemma {:induction false} AscendingUnique(xs: seq<string>, ys: seq<string>)
    requires Ascending(xs) && Ascending(ys)
    requires forall y :: y in xs <==> y in ys
    ensures xs == ys
  {
    NonemptyIff(xs);
    NonemptyIff(ys);
    if xs != [] && ys != [] {
      assert xs[0] in ys && ys[0] in xs;
      var i :| 0 <= i < |ys| && ys[i] == xs[0];
      var j :| 0 <= j < |xs| && xs[j] == ys[0];
      if i > 0 && j > 0 {
        LessAsymmetric(ys[0], xs[0]);
      }
      assert xs[0] == ys[0];
      AscendingDistinct(xs);
      AscendingDistinct(ys);
      assert xs == [xs[0]] + xs[1..] && ys == [ys[0]] + ys[1..];
      forall y ensures y in xs[1..] <==> y in ys[1..] {
        assert y in xs <==> y == xs[0] || y in xs[1..];
        assert y in ys <==> y == ys[0] || y in ys[1..];
      }
      AscendingUnique(xs[1..], ys[1..]);
    }
  }

  predicate NoDuplicates(xs: seq<string>) {
    forall i, k | 0 <= i < k < |xs| :: xs[i] != xs[k]
  }

  lemma {:induction false} NoDuplicatesFront(xs: seq<string>)
    requires xs != [] && NoDuplicates(xs)
    ensures NoDuplicates(xs[..|xs| - 1]) && xs[|xs| - 1] !in xs[..|xs| - 1]
    ensures forall x :: x in xs <==> x in xs[..|xs| - 1] || x == xs[|xs| - 1]
  {
    assert xs == xs[..|xs| - 1] + [xs[|xs| - 1]];
  }

  /** `names` lists every element of `s` once, in an order that the caller leaves open. */
  predicate Enumerates(names: seq<string>, s: set<string>) {
    NoDuplicates(names) && (forall l | l in names :: l in s) && (forall l | l in s :: l in names)
  }
}
