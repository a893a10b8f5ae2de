/** The timestamps of the lock store: printed by `utc_now`, parsed and moved forward by `_expires_at`,
    and compared as text by SQLite. A moment is a whole second of the proleptic Gregorian calendar in
    UTC, years 1 to 9999, which is the range of Python's `datetime`. */
module IsoTime {
  import opened Text

  const MIN_YEAR := 1
  const MAX_YEAR := 9999
  const SECONDS_PER_DAY := 86400

  datatype Moment = Moment(year: int, month: int, day: int, hour: int, minute: int, second: int)

  datatype Parsed<T> = Ok(value: T) | BadFormat | Overflow

  predicate IsLeap(y: int) {
    y % 4 == 0 && (y % 100 != 0 || y % 400 == 0)
  }

  function DaysInMonth(y: int, m: int): (d: int)
    requires 1 <= m <= 12
    ensures 28 <= d <= 31
    ensures d == [31, if IsLeap(y) then 29 else 28, 31, 30, 31, 30, 31, 31, 30, 31, 30, 31][m - 1]
  {
    if m == 2 then (if IsLeap(y) then 29 else 28)
    else if m == 4 || m == 6 || m == 9 || m == 11 then 30
    else 31
  }

  function DaysInYear(y: int): int {
    if IsLeap(y) then 366 else 365
  }

  function DaysBeforeYear(y: int): int {
    (y - 1) * 365 + (y - 1) / 4 - (y - 1) / 100 + (y - 1) / 400
  }

  function DaysBeforeMonth(y: int, m: int): int
    requires 1 <= m <= 13
  {
    if m == 1 then 0 else DaysBeforeMonth(y, m - 1) + DaysInMonth(y, m - 1)
  }

  predicate ValidDate(y: int, m: int, d: int) {
    MIN_YEAR <= y <= MAX_YEAR && 1 <= m <= 12 && 1 <= d <= DaysInMonth(y, m)
  }

  predicate Valid(t: Moment) {
    ValidDate(t.year, t.month, t.day) && 0 <= t.hour < 24 && 0 <= t.minute < 60 && 0 <= t.second < 60
  }

  /** The day number of a date; 0001-01-01 is day 0. */
  function DayNumber(y: int, m: int, d: int): int
    requires 1 <= m <= 12
  {
    DaysBeforeYear(y) + DaysBeforeMonth(y, m) + d - 1
  }

  function SecondOfDay(t: Moment): int {
    t.hour * 3600 + t.minute * 60 + t.second
  }

  /** Seconds since 0001-01-01T00:00:00Z. */
  function Instant(t: Moment): int
    requires Valid(t)
  {
    DayNumber(t.year, t.month, t.day) * SECONDS_PER_DAY + SecondOfDay(t)
  }

  // ---- the calendar is ordered like its fields ----

  predicate DateBefore(y: int, m: int, d: int, y': int, m': int, d': int) {
    y < y' || (y == y' && (m < m' || (m == m' && d < d')))
  }

  predicate Before(a: Moment, b: Moment) {
    DateBefore(a.year, a.month, a.day, b.year, b.month, b.day)
    || ((a.year, a.month, a.day) == (b.year, b.month, b.day)
        && DateBefore(a.hour, a.minute, a.second, b.hour, b.minute, b.second))
  }

  lemma Quotient4(y: int, q: int, r: int)
    requires y == 4 * q + r && 0 <= r < 4
    ensures y / 4 == q && y % 4 == r && (y - 1) / 4 == if r == 0 then q - 1 else q
  {
  }

  lemma Quotient100(y: int, q: int, r: int)
    requires y == 100 * q + r && 0 <= r < 100
    ensures y / 100 == q && y % 100 == r && (y - 1) / 100 == if r == 0 then q - 1 else q
  {
  }

  lemma Quotient400(y: int, q: int, r: int)
    requires y == 400 * q + r && 0 <= r < 400
    ensures y / 400 == q && y % 400 == r && (y - 1) / 400 == if r == 0 then q - 1 else q
  {
  }

  lemma YearLength(y: int)
    ensures DaysBeforeYear(y + 1) == DaysBeforeYear(y) + DaysInYear(y)
  {
    var q, r := y / 400, y % 400;
    Quotient400(y, q, r);
    Quotient100(y, 4 * q + r / 100, r % 100);
    Quotient4(y, 100 * q + r / 4, r % 4);
    assert r % 100 == 0 ==> r % 4 == 0;
  }

  lemma MonthSum(y: int)
    ensures DaysBeforeMonth(y, 13) == DaysInYear(y)
  {
    assert DaysBeforeMonth(y, 2) == 31;
    assert DaysBeforeMonth(y, 3) == 31 + DaysInMonth(y, 2);
    assert DaysBeforeMonth(y, 5) == DaysBeforeMonth(y, 3) + 61;
    assert DaysBeforeMonth(y, 7) == DaysBeforeMonth(y, 5) + 61;
    assert DaysBeforeMonth(y, 9) == DaysBeforeMonth(y, 7) + 62;
    assert DaysBeforeMonth(y, 11) == DaysBeforeMonth(y, 9) + 61;
    assert DaysBeforeMonth(y, 13) == DaysBeforeMonth(y, 11) + 61;
  }

  lemma {:induction false} YearsMonotone(y: int, y': int)
    requires y < y'
    ensures DaysBeforeYear(y) + DaysInYear(y) <= DaysBeforeYear(y')
    decreases y' - y
  {
    YearLength(y);
    if y + 1 < y' {
      YearsMonotone(y + 1, y');
    }
  }

  lemma {:induction false} MonthsMonotone(y: int, m: int, m': int)
    requires 1 <= m < m' <= 13
    ensures DaysBeforeMonth(y, m) + DaysInMonth(y, m) <= DaysBeforeMonth(y, m')
    decreases m' - m
  {
    if m + 1 < m' {
      MonthsMonotone(y, m, m' - 1);
    }
  }

  lemma DayWithinYear(y: int, m: int, d: int)
    requires ValidDate(y, m, d)
    ensures DaysBeforeYear(y) <= DayNumber(y, m, d) < DaysBeforeYear(y) + DaysInYear(y)
  {
    MonthsMonotone(y, m, 13);
    MonthSum(y);
    if m > 1 {
      MonthsMonotone(y, 1, m);
    }
  }

  lemma DatesMonotone(y: int, m: int, d: int, y': int, m': int, d': int)
    requires ValidDate(y, m, d) && ValidDate(y', m', d')
    requires DateBefore(y, m, d, y', m', d')
    ensures DayNumber(y, m, d) < DayNumber(y', m', d')
  {
    if y < y' {
      YearsMonotone(y, y');
      DayWithinYear(y, m, d);
      DayWithinYear(y', m', d');
    } else if m < m' {
      MonthsMonotone(y, m, m');
    }
  }

  lemma BeforeIsEarlier(a: Moment, b: Moment)
    requires Valid(a) && Valid(b) && Before(a, b)
    ensures Instant(a) < Instant(b)
  {
    if DateBefore(a.year, a.month, a.day, b.year, b.month, b.day) {
      DatesMonotone(a.year, a.month, a.day, b.year, b.month, b.day);
    }
  }

  /** Comparing moments field by field is comparing the instants; in particular `Instant` is injective. */
  lemma FieldOrder(a: Moment, b: Moment)
    requires Valid(a) && Valid(b)
    ensures Before(a, b) <==> Instant(a) < Instant(b)
    ensures a == b <==> Instant(a) == Instant(b)
  {
    if Before(a, b) {
      BeforeIsEarlier(a, b);
    } else if a != b {
      assert Before(b, a);
      BeforeIsEarlier(b, a);
    }
  }

  /** Day numbers follow the calendar: the day after a date has the next number. */
  lemma NextDay(y: int, m: int, d: int)
    requires ValidDate(y, m, d)
    ensures
      DayNumber(y, m, d) + 1 ==
        if d < DaysInMonth(y, m) then DayNumber(y, m, d + 1)
        else if m < 12 then DayNumber(y, m + 1, 1)
        else DayNumber(y + 1, 1, 1)
  {
    if d == DaysInMonth(y, m) {
      if m == 12 {
        MonthSum(y);
        YearLength(y);
      }
    }
  }

  /** A year is a leap year as the Gregorian calendar has it, and the count of seconds begins with
      0001-01-01, has the Unix epoch where it belongs, and ends with the last second of year 9999. */
  lemma {:induction false} KnownDates()
    ensures IsLeap(2024) && IsLeap(2000) && !IsLeap(2023) && !IsLeap(1900) && !IsLeap(2100)
    ensures DayNumber(1, 1, 1) == 0 && DayNumber(1970, 1, 1) == 719162 && DayNumber(2000, 1, 1) == 730119
    ensures LastInstant() == 315537897599
  {
  }

  // ---- the inverse of Instant ----

  /** The year, at or after `y`, that contains day `n`. */
  function YearOf(n: int, y: int): (r: int)
    requires MIN_YEAR <= y <= MAX_YEAR && DaysBeforeYear(y) <= n < DaysBeforeYear(MAX_YEAR + 1)
    ensures MIN_YEAR <= r <= MAX_YEAR && DaysBeforeYear(r) <= n < DaysBeforeYear(r + 1)
    decreases MAX_YEAR - y
  {
    if n < DaysBeforeYear(y + 1) then y else YearOf(n, y + 1)
  }

  /** The month of year `y`, at or after `m`, that contains its day `n`. */
  function MonthOf(y: int, n: int, m: int): (r: int)
    requires 1 <= m <= 12 && DaysBeforeMonth(y, m) <= n < DaysBeforeMonth(y, 13)
    ensures 1 <= r <= 12 && DaysBeforeMonth(y, r) <= n < DaysBeforeMonth(y, r) + DaysInMonth(y, r)
    decreases 12 - m
  {
    if n < DaysBeforeMonth(y, m + 1) then m else MonthOf(y, n, m + 1)
  }

  function LastInstant(): int {
    DaysBeforeYear(MAX_YEAR + 1) * SECONDS_PER_DAY - 1
  }

  /** The year, month and day of day number `n`. */
  function DateOf(n: int): (r: (int, int, int))
    requires 0 <= n < DaysBeforeYear(MAX_YEAR + 1)
    ensures ValidDate(r.0, r.1, r.2) && DayNumber(r.0, r.1, r.2) == n
  {
    var y := YearOf(n, MIN_YEAR);
    YearLength(y);
    MonthSum(y);
    var rest := n - DaysBeforeYear(y);
    var m := MonthOf(y, rest, 1);
    (y, m, rest - DaysBeforeMonth(y, m) + 1)
  }

  /** The hour, minute and second of a second of the day. */
  function ClockOf(n: int): (r: (int, int, int))
    requires 0 <= n < SECONDS_PER_DAY
    ensures 0 <= r.0 < 24 && 0 <= r.1 < 60 && 0 <= r.2 < 60 && r.0 * 3600 + r.1 * 60 + r.2 == n
  {
    (n / 3600, n % 3600 / 60, n % 3600 % 60)
  }

  function FromInstant(i: int): (t: Moment)
    requires 0 <= i <= LastInstant()
    ensures Valid(t) && Instant(t) == i
  {
    var date, clock := DateOf(i / SECONDS_PER_DAY), ClockOf(i % SECONDS_PER_DAY);
    Moment(date.0, date.1, date.2, clock.0, clock.1, clock.2)
  }

  lemma InstantRange(t: Moment)
    requires Valid(t)
    ensures 0 <= Instant(t) <= LastInstant()
    ensures FromInstant(Instant(t)) == t
  {
    DayWithinYear(t.year, t.month, t.day);
    YearLength(t.year);
    if t.year < MAX_YEAR {
      YearsMonotone(t.year, MAX_YEAR + 1);
    }
    if t.year > 1 {
      YearsMonotone(1, t.year);
    }
    assert 0 <= DayNumber(t.year, t.month, t.day) <= DaysBeforeYear(MAX_YEAR + 1) - 1;
    FieldOrder(FromInstant(Instant(t)), t);
  }

  // ---- printing and parsing ----

  function Pow10(w: nat): (r: int)
    ensures r >= 1
  {
    if w == 0 then 1 else 10 * Pow10(w - 1)
  }

  function Digit(n: int): (c: char)
    requires 0 <= n < 10
    ensures '0' <= c <= '9'
  {
    '0' + n as char
  }

  /** `n` in decimal, zero-padded to `w` places. */
  function Digits(n: int, w: nat): (r: string)
    requires 0 <= n < Pow10(w)
    ensures |r| == w
    decreases w
  {
    if w == 0 then "" else Digits(n / 10, w - 1) + [Digit(n % 10)]
  }

  function ReadDigits(s: string): Parsed<int>
  {
    if s == "" then Ok(0)
    else
      var c := s[|s| - 1];
      var front := ReadDigits(s[..|s| - 1]);
      if front.Ok? && '0' <= c <= '9' then Ok(10 * front.value + (c as int - '0' as int)) else BadFormat
  }

  lemma {:induction false} DigitsOrder(m: int, n: int, w: nat)
    requires 0 <= m < Pow10(w) && 0 <= n < Pow10(w)
    ensures Less(Digits(m, w), Digits(n, w)) <==> m < n
    ensures Digits(m, w) == Digits(n, w) <==> m == n
  {
    if w > 0 {
      DigitsOrder(m / 10, n / 10, w - 1);
      var a, b := Digits(m / 10, w - 1), Digits(n / 10, w - 1);
      var x, y := [Digit(m % 10)], [Digit(n % 10)];
      LessConcat(a, x, b, y);
      assert Less(x, y) <==> m % 10 < n % 10;
      assert (a + x)[..w - 1] == a && (b + y)[..w - 1] == b;
      assert (a + x)[w - 1..] == x && (b + y)[w - 1..] == y;
      assert x == y <==> x[0] == y[0];
      assert Digit(m % 10) == Digit(n % 10) <==> m % 10 == n % 10;
    }
  }

  lemma {:induction false} DigitsRoundTrip(n: int, w: nat)
    requires 0 <= n < Pow10(w)
    ensures ReadDigits(Digits(n, w)) == Ok(n)
  {
    if w > 0 {
      DigitsRoundTrip(n / 10, w - 1);
      var s := Digits(n, w);
      assert s[..|s| - 1] == Digits(n / 10, w - 1);
    }
  }

  function Date(t: Moment): string
    requires Valid(t)
  {
    Digits(t.year, 4) + ("-" + (Digits(t.month, 2) + ("-" + Digits(t.day, 2))))
  }

  function Clock(t: Moment): string
    requires Valid(t)
  {
    Digits(t.hour, 2) + (":" + (Digits(t.minute, 2) + (":" + Digits(t.second, 2))))
  }

  /** `isoformat()` of a UTC moment with no microseconds. */
  function Print(t: Moment): (r: string)
    requires Valid(t)
    ensures |r| == 25
  {
    Date(t) + ("T" + (Clock(t) + "+00:00"))
  }

  /** Three numbers in fields of width `w`, 2 and 2, with a separator between them. */
  function ReadTriple(s: string, w: nat, sep: char): Parsed<(int, int, int)>
    requires |s| == w + 6
  {
    if s[w] != sep || s[w + 3] != sep then BadFormat
    else
      var a, b, c := ReadDigits(s[..w]), ReadDigits(s[w + 1..w + 3]), ReadDigits(s[w + 4..]);
      if a.Ok? && b.Ok? && c.Ok? then Ok((a.value, b.value, c.value)) else BadFormat
  }

  /** `fromisoformat` on the format that `Print` writes. */
  function Parse(s: string): (r: Parsed<Moment>)
    ensures r.Ok? ==> Valid(r.value)
  {
    if |s| != 25 || s[10..11] != "T" || s[19..] != "+00:00" then BadFormat
    else
      var date, clock := ReadTriple(s[..10], 4, '-'), ReadTriple(s[11..19], 2, ':');
      if date.Ok? && clock.Ok? then
        var t := Moment(date.value.0, date.value.1, date.value.2, clock.value.0, clock.value.1, clock.value.2);
        if Valid(t) then Ok(t) else BadFormat
      else BadFormat
  }

  lemma TripleOrder(a: int, b: int, c: int, a': int, b': int, c': int, w: nat, sep: string)
    requires 0 <= a < Pow10(w) && 0 <= a' < Pow10(w)
    requires 0 <= b < Pow10(2) && 0 <= b' < Pow10(2) && 0 <= c < Pow10(2) && 0 <= c' < Pow10(2)
    ensures
      var s := Digits(a, w) + (sep + (Digits(b, 2) + (sep + Digits(c, 2))));
      var s' := Digits(a', w) + (sep + (Digits(b', 2) + (sep + Digits(c', 2))));
      && (Less(s, s') <==> DateBefore(a, b, c, a', b', c'))
      && (s == s' <==> a == a' && b == b' && c == c')
  {
    DigitsOrder(a, a', w);
    DigitsOrder(b, b', 2);
    DigitsOrder(c, c', 2);
    var z, z' := Digits(c, 2), Digits(c', 2);
    var y, y' := Digits(b, 2) + (sep + z), Digits(b', 2) + (sep + z');
    LessConcat(sep, z, sep, z');
    LessConcat(Digits(b, 2), sep + z, Digits(b', 2), sep + z');
    LessConcat(sep, y, sep, y');
    LessConcat(Digits(a, w), sep + y, Digits(a', w), sep + y');
    LessIrreflexive(sep);
    EqualConcat(sep, z, sep, z');
    EqualConcat(Digits(b, 2), sep + z, Digits(b', 2), sep + z');
    EqualConcat(sep, y, sep, y');
    EqualConcat(Digits(a, w), sep + y, Digits(a', w), sep + y');
  }

  lemma EqualConcat(a: string, a': string, b: string, b': string)
    requires |a| == |b|
    ensures a + a' == b + b' <==> a == b && a' == b'
  {
    if a + a' == b + b' {
      assert a == (a + a')[..|a|] && b == (b + b')[..|b|];
      assert a' == (a + a')[|a|..] && b' == (b + b')[|b|..];
    }
  }

  /** Text order is time order on everything the store writes: `expires_at <= now`, compared as text,
      holds exactly when the instant of expiry has come. */
  lemma TextOrder(a: Moment, b: Moment)
    requires Valid(a) && Valid(b)
    ensures Leq(Print(a), Print(b)) <==> Instant(a) <= Instant(b)
    ensures Less(Print(a), Print(b)) <==> Instant(a) < Instant(b)
  {
    TripleOrder(a.year, a.month, a.day, b.year, b.month, b.day, 4, "-");
    TripleOrder(a.hour, a.minute, a.second, b.hour, b.minute, b.second, 2, ":");
    var zone := "+00:00";
    LessConcat(Clock(a), zone, Clock(b), zone);
    EqualConcat(Clock(a), zone, Clock(b), zone);
    LessConcat("T", Clock(a) + zone, "T", Clock(b) + zone);
    EqualConcat("T", Clock(a) + zone, "T", Clock(b) + zone);
    LessConcat(Date(a), "T" + (Clock(a) + zone), Date(b), "T" + (Clock(b) + zone));
    EqualConcat(Date(a), "T" + (Clock(a) + zone), Date(b), "T" + (Clock(b) + zone));
    LessIrreflexive("T");
    LessIrreflexive(zone);
    FieldOrder(a, b);
  }

  lemma {:induction false} TripleRoundTrip(a: int, b: int, c: int, w: nat, sep: char)
    requires 0 <= a < Pow10(w) && 0 <= b < Pow10(2) && 0 <= c < Pow10(2)
    ensures ReadTriple(Digits(a, w) + ([sep] + (Digits(b, 2) + ([sep] + Digits(c, 2)))), w, sep) == Ok((a, b, c))
  {
    var x, y, z := Digits(a, w), Digits(b, 2), Digits(c, 2);
    var s := x + ([sep] + (y + ([sep] + z)));
    assert s[..w] == x && s[w + 1..w + 3] == y && s[w + 4..] == z;
    DigitsRoundTrip(a, w);
    DigitsRoundTrip(b, 2);
    DigitsRoundTrip(c, 2);
  }

  /** What the store prints, it reads back. */
  lemma ParsePrint(t: Moment)
    requires Valid(t)
    ensures Parse(Print(t)) == Ok(t)
  {
    var s, d, c := Print(t), Date(t), Clock(t);
    assert |d| == 10 && |c| == 8;
    assert s == d + "T" + c + "+00:00";
    assert s[..10] == d && s[10..11] == "T" && s[11..19] == c && s[19..] == "+00:00";
    TripleRoundTrip(t.year, t.month, t.day, 4, '-');
    TripleRoundTrip(t.hour, t.minute, t.second, 2, ':');
  }

  /** The number that the characters of `s` from `i` on spell in `w` decimal places. */
  function Spelled(s: string, i: nat, w: nat): int
    requires i + w <= |s|
  {
    if w == 0 then 0 else 10 * Spelled(s, i, w - 1) + (s[i + w - 1] as int - '0' as int)
  }

  lemma {:induction false} SpelledSame(s: string, i: nat, t: string, k: nat, w: nat)
    requires i + w <= |s| && k + w <= |t| && s[i..i + w] == t[k..k + w]
    ensures Spelled(s, i, w) == Spelled(t, k, w)
  {
    if w > 0 {
      assert s[i..i + w - 1] == s[i..i + w][..w - 1] && t[k..k + w - 1] == t[k..k + w][..w - 1];
      assert s[i + w - 1] == s[i..i + w][w - 1] && t[k + w - 1] == t[k..k + w][w - 1];
      SpelledSame(s, i, t, k, w - 1);
    }
  }

  lemma {:induction false} SpelledDigits(n: int, w: nat)
    requires 0 <= n < Pow10(w)
    ensures Spelled(Digits(n, w), 0, w) == n
  {
    if w > 0 {
      SpelledDigits(n / 10, w - 1);
      SpelledSame(Digits(n, w), 0, Digits(n / 10, w - 1), 0, w - 1);
    }
  }

  lemma {:induction false} SpelledAt(s: string, i: nat, n: int, w: nat)
    requires 0 <= n < Pow10(w) && i + w <= |s| && s[i..i + w] == Digits(n, w)
    ensures Spelled(s, i, w) == n
  {
    SpelledDigits(n, w);
    assert Digits(n, w)[0..w] == Digits(n, w);
    SpelledSame(s, i, Digits(n, w), 0, w);
  }

  lemma {:induction false} DateLayout(t: Moment)
    requires Valid(t)
    ensures
      var d := Date(t);
      && |d| == 10 && d[4] == '-' && d[7] == '-'
      && Spelled(d, 0, 4) == t.year && Spelled(d, 5, 2) == t.month && Spelled(d, 8, 2) == t.day
  {
    var d := Date(t);
    SpelledAt(d, 0, t.year, 4);
    SpelledAt(d, 5, t.month, 2);
    SpelledAt(d, 8, t.day, 2);
  }

  lemma {:induction false} ClockLayout(t: Moment)
    requires Valid(t)
    ensures
      var c := Clock(t);
      && |c| == 8 && c[2] == ':' && c[5] == ':'
      && Spelled(c, 0, 2) == t.hour && Spelled(c, 3, 2) == t.minute && Spelled(c, 6, 2) == t.second
  {
    var c := Clock(t);
    SpelledAt(c, 0, t.hour, 2);
    SpelledAt(c, 3, t.minute, 2);
    SpelledAt(c, 6, t.second, 2);
  }

  /** The printed form: year, month, day, hour, minute and second at fixed places, in that order, between
      the separators of ISO 8601 and followed by the offset of UTC. */
  lemma {:induction false} PrintLayout(t: Moment)
    requires Valid(t)
    ensures
      var r := Print(t);
      && r[4] == '-' && r[7] == '-' && r[10] == 'T' && r[13] == ':' && r[16] == ':' && r[19..] == "+00:00"
      && Spelled(r, 0, 4) == t.year && Spelled(r, 5, 2) == t.month && Spelled(r, 8, 2) == t.day
      && Spelled(r, 11, 2) == t.hour && Spelled(r, 14, 2) == t.minute && Spelled(r, 17, 2) == t.second
  {
    DateLayout(t);
    ClockLayout(t);
    PrintParts(Print(t), Date(t), Clock(t));
  }

  lemma {:induction false} PrintParts(r: string, d: string, c: string)
    requires |d| == 10 && |c| == 8 && r == d + ("T" + (c + "+00:00"))
    ensures |r| == 25 && r[4] == d[4] && r[7] == d[7] && r[10] == 'T' && r[13] == c[2] && r[16] == c[5] && r[19..] == "+00:00"
    ensures Spelled(r, 0, 4) == Spelled(d, 0, 4) && Spelled(r, 5, 2) == Spelled(d, 5, 2) && Spelled(r, 8, 2) == Spelled(d, 8, 2)
    ensures Spelled(r, 11, 2) == Spelled(c, 0, 2) && Spelled(r, 14, 2) == Spelled(c, 3, 2) && Spelled(r, 17, 2) == Spelled(c, 6, 2)
  {
    SpelledSame(r, 0, d, 0, 4);
    SpelledSame(r, 5, d, 5, 2);
    SpelledSame(r, 8, d, 8, 2);
    SpelledSame(r, 11, c, 0, 2);
    SpelledSame(r, 14, c, 3, 2);
    SpelledSame(r, 17, c, 6, 2);
  }

  // ---- leases in text ----

  /** How long a lease lasts: what it was given, but at least one second. */
  function LeaseSeconds(ttl: int): (d: int)
    ensures d >= 1 && d >= ttl && (d == ttl || d == 1)
  {
    if ttl < 1 then 1 else ttl
  }

  /** `datetime + timedelta(seconds=d)`. */
  function Later(t: Moment, d: int): (r: Parsed<Moment>)
    requires Valid(t) && d >= 0
    ensures r.Ok? <==> Instant(t) + d <= LastInstant()
    ensures r.Ok? ==> Valid(r.value) && Instant(r.value) == Instant(t) + d
    ensures !r.Ok? ==> r == Overflow
  {
    InstantRange(t);
    if Instant(t) + d <= LastInstant() then Ok(FromInstant(Instant(t) + d)) else Overflow
  }

  /** `_expires_at`: parse, add at least one second, print. */
  function ExpiresAt(now: string, ttl: int): Parsed<string>
  {
    match Parse(now)
    case Ok(t) => (match Later(t, LeaseSeconds(ttl))
                   case Ok(e) => Ok(Print(e))
                   case _ => Overflow)
    case _ => BadFormat
  }

  /** For every printed moment and every integer ttl, a fresh expiry is the printed moment that many
      seconds later, is strictly later than `now` as text, and reads back as that moment; it fails only
      when that moment lies past the last second of year 9999. */
  lemma FreshExpiry(t: Moment, ttl: int)
    requires Valid(t)
    ensures ExpiresAt(Print(t), ttl).Ok? <==> Instant(t) + (if ttl >= 1 then ttl else 1) <= LastInstant()
    ensures ExpiresAt(Print(t), ttl) != BadFormat
    ensures ExpiresAt(Print(t), ttl).Ok? ==>
              exists e ::
                && Valid(e)
                && Instant(e) == Instant(t) + (if ttl >= 1 then ttl else 1)
                && Parse(ExpiresAt(Print(t), ttl).value) == Ok(e)
                && Less(Print(t), ExpiresAt(Print(t), ttl).value)
                && !Leq(ExpiresAt(Print(t), ttl).value, Print(t))
  {
    ParsePrint(t);
    var r := Later(t, LeaseSeconds(ttl));
    if r.Ok? {
      ParsePrint(r.value);
      TextOrder(t, r.value);
      TextOrder(r.value, t);
    }
  }
}
