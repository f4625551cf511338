/**
  Dates and times as RFC 3339 writes them, and the Gregorian calendar behind them.
 */
module Calendar {
  import opened Basics
  import opened Numerals
  import opened Integer
  import NumberGrammar
  import opened DateTime

  // ---------------------------------------------------------------------------
  // The calendar

  /** The days from the start of month `m` of a year to the start of its month `n`. */
  function DaysOfMonths(y: nat, m: nat, n: nat): nat
    decreases n - m
  {
    if m >= n then 0 else DaysInMonth(y, m) + DaysOfMonths(y, m + 1, n)
  }

  function DaysInYear(y: nat): int {
    DaysOfMonths(y, 1, 13)
  }

  /** The sum of the values of `f` below `n`. */
  function Sum(f: nat -> int, n: nat): int {
    if n == 0 then 0 else Sum(f, n - 1) + f(n - 1)
  }

  /** The days of all years before `y`. */
  function DaysBefore(y: nat): int {
    Sum(DaysInYear, y)
  }

  /** Seven months of 31 days, four of 30, and February. */
  lemma DaysOfAYear(y: nat)
    ensures DaysInYear(y) == 365 + if y % 4 == 0 && (y % 100 != 0 || y % 400 == 0) then 1 else 0
  {
    assert DaysOfMonths(y, 13, 13) == 0;
    assert DaysOfMonths(y, 10, 13) == 92;
    assert DaysOfMonths(y, 7, 13) == 184;
    assert DaysOfMonths(y, 4, 13) == 275;
  }

  /** A leap year is every fourth year, but of the centuries only every fourth. */
  function Leaps(y: nat): int {
    (y + 3) / 4 - (y + 99) / 100 + (y + 399) / 400
  }

  lemma OneYear(y: nat)
    ensures DaysInYear(y) == 365 + Leaps(y + 1) - Leaps(y)
  {
    DaysOfAYear(y);
    NextMultiple(y, 4);
    NextMultiple(y, 100);
    NextMultiple(y, 400);
    Centuries(y);
  }

  /** Differences add up to the difference of the ends. */
  lemma {:induction false} Telescope(f: nat -> int, g: nat -> int, n: nat)
    requires forall i: nat :: f(i) == 365 + g(i + 1) - g(i)
    ensures Sum(f, n) == 365 * n + g(n) - g(0)
  {
    if n > 0 { Telescope(f, g, n - 1); }
  }

  lemma DaysCounted(y: nat)
    ensures DaysBefore(y) == 365 * y + Leaps(y)
  {
    forall i: nat ensures DaysInYear(i) == 365 + Leaps(i + 1) - Leaps(i) { OneYear(i); }
    Telescope(DaysInYear, Leaps, y);
  }

  lemma LeapsAgain(y: nat)
    ensures Leaps(y + 400) == Leaps(y) + 97
  {
    MultipleMore(y + 3, 4, 100);
    MultipleMore(y + 99, 100, 4);
    MultipleMore(y + 399, 400, 1);
  }

  lemma MultipleMore(a: nat, m: nat, k: nat)
    requires m > 0
    ensures (a + k * m) / m == a / m + k
  {
    var q, r := a / m, a % m;
    assert a == q * m + r && (q + k) * m == q * m + k * m;
    Quotient(a + k * m, m, q + k, r);
  }

  lemma NextMultiple(y: nat, m: nat)
    requires m > 0
    ensures (y + 1 + m - 1) / m == (y + m - 1) / m + if y % m == 0 then 1 else 0
  {
    var q, r := y / m, y % m;
    assert y == q * m + r;
    if r == 0 {
      Quotient(y + m, m, q + 1, 0);
      Quotient(y + m - 1, m, q, m - 1);
    } else {
      Quotient(y + m, m, q + 1, r);
      Quotient(y + m - 1, m, q + 1, r - 1);
    }
  }

  lemma Quotient(n: nat, m: nat, q: nat, r: nat)
    requires r < m && n == q * m + r
    ensures n / m == q
  {
    var p := n / m;
    assert p < q ==> (p + 1) * m <= q * m;
    assert p > q ==> (q + 1) * m <= p * m;
  }

  lemma NoRest(n: nat, m: nat, q: nat)
    requires m > 0 && n == q * m
    ensures n % m == 0
  {
    Quotient(n, m, q, 0);
  }

  lemma Centuries(y: nat)
    ensures (y % 100 == 0 ==> y % 4 == 0) && (y % 400 == 0 ==> y % 100 == 0)
  {
    if y % 100 == 0 { NoRest(y, 4, y / 100 * 25); }
    if y % 400 == 0 { NoRest(y, 100, y / 400 * 4); }
  }

  lemma DaysBetween(y: nat, z: nat)
    ensures DaysBefore(z) - DaysBefore(y) == 365 * z + Leaps(z) - (365 * y + Leaps(y))
  {
    DaysCounted(y);
    DaysCounted(z);
  }

  /** Any four hundred years in a row have 146097 days, as in the Gregorian calendar. */
  lemma FourHundredYears(y: nat, z: nat)
    requires z == y + 400
    ensures DaysBefore(z) - DaysBefore(y) == 146097
  {
    LeapsAgain(y);
    DaysBetween(y, z);
  }

  // ---------------------------------------------------------------------------
  // The printed form

  function DigitChar(d: nat): int
    requires d < 10
  {
    SMALL[d] as int
  }

  function TwoChars(n: nat): seq<int>
    requires n < 100
  {
    [DigitChar(n / 10), DigitChar(n % 10)]
  }

  function FourChars(n: nat): seq<int>
    requires n < 10000
  {
    [DigitChar(n / 1000), DigitChar(n / 100 % 10), DigitChar(n / 10 % 10), DigitChar(n % 10)]
  }

  lemma DigitCharIs(d: nat)
    requires d < 10
    ensures DigitChar(d) == ZERO + d
  {
    WritesIffInRow(DigitChar(d), d);
  }

  lemma PaddedIsTwoChars(n: nat)
    requires n < 100
    ensures Padded(n, 2) == TwoChars(n)
  {
    var a, b := TwoPadded(n);
    DigitCharIs(a);
    DigitCharIs(b);
    assert n / 10 == a && n % 10 == b;
  }

  lemma FourParts(n: nat) returns (w: nat, x: nat, y: nat, z: nat)
    requires n < 10000
    ensures w < 10 && x < 10 && y < 10 && z < 10 && n == w * 1000 + x * 100 + y * 10 + z
    ensures w == n / 1000 && x == n / 100 % 10 && y == n / 10 % 10 && z == n % 10
  {
    w, x, y, z := n / 1000, n / 100 % 10, n / 10 % 10, n % 10;
    var tens := n / 10;
    var hundreds := tens / 10;
    assert hundreds == n / 100 && hundreds / 10 == w;
  }

  lemma CharsOfParts(w: nat, x: nat, y: nat, z: nat)
    requires w < 10 && x < 10 && y < 10 && z < 10
    ensures [DigitChar(w), DigitChar(x), DigitChar(y), DigitChar(z)] == [ZERO + w, ZERO + x] + [ZERO + y, ZERO + z]
  {
    DigitCharIs(w);
    DigitCharIs(x);
    DigitCharIs(y);
    DigitCharIs(z);
  }

  lemma PaddedIsFourChars(n: nat)
    requires n < 10000
    ensures Padded(n, 4) == FourChars(n)
  {
    var w, x, y, z := FourParts(n);
    CharsOfParts(w, x, y, z);
    FourPadded(w, x, y, z, n);
  }

  /** `2021-03-04` */
  function IsoDate(d: Date): seq<int>
    requires ValidDate(d)
  {
    FourChars(d.year) + ['-' as int] + TwoChars(d.month) + ['-' as int] + TwoChars(d.day)
  }

  /** `05:06:07` */
  function IsoClock(t: Time): seq<int>
    requires ValidTime(t)
  {
    TwoChars(t.hour) + [':' as int] + TwoChars(t.minute) + [':' as int] + TwoChars(t.second)
  }

  /** `Z`, or `+01:30` for ninety minutes ahead, or `-01:30`. */
  function IsoOffset(minutes: int): seq<int>
    requires -1440 < minutes < 1440
  {
    if minutes == 0 then ['Z' as int]
    else if minutes > 0 then ['+' as int] + TwoChars(minutes / 60) + [':' as int] + TwoChars(minutes % 60)
    else ['-' as int] + TwoChars(-minutes / 60) + [':' as int] + TwoChars(-minutes % 60)
  }

  /** The digits behind the dot: the nanoseconds, without the zeros at their end. */
  ghost predicate IsFraction(f: seq<int>, nanosecond: nat) {
    exists ds: seq<nat> :: WritesAll(10, f, ds) && 0 < |ds| <= 9 && ds[|ds| - 1] != 0 && Positional(10, ds) * Pow(10, 9 - |ds|) == nanosecond
  }

  lemma DateIsIso(d: Date)
    requires ValidDate(d)
    ensures PrintDate(d) == IsoDate(d)
  {
    PaddedIsFourChars(d.year);
    PaddedIsTwoChars(d.month);
    PaddedIsTwoChars(d.day);
  }

  lemma ClockIsIso(t: Time)
    requires ValidTime(t)
    ensures Clock(t) == IsoClock(t)
  {
    PaddedIsTwoChars(t.hour);
    PaddedIsTwoChars(t.minute);
    PaddedIsTwoChars(t.second);
  }

  lemma OffsetIsIso(minutes: int)
    requires -1440 < minutes < 1440
    ensures PrintOffset(minutes) == IsoOffset(minutes)
  {
    var m := if minutes < 0 then -minutes else minutes;
    PaddedIsTwoChars(m / 60);
    PaddedIsTwoChars(m % 60);
  }

  lemma LastOfFraction(f: seq<int>, m: nat, ds: seq<nat>)
    requires WritesAll(10, f, ds) && ds != [] && Positional(10, ds) == m && m % 10 != 0
    ensures ds[|ds| - 1] != 0
  {
  }

  lemma FractionIsShortest(ns: nat)
    requires 0 < ns <= 999_999_999
    ensures IsFraction(FractionText(ns), ns)
  {
    PowersOfTen();
    ShortestKeepsValue(ns, 9);
    var (m, d) := Shortest(ns, 9);
    PaddedFits(m, d);
    var f := FractionText(ns);
    var ds := NumberGrammar.DigitsAreWritten(10, f);
    NumberGrammar.ValueIsPositional(10, f, ds);
    LastOfFraction(f, m, ds);
  }

  /** The fraction, if there is one, with its dot. */
  ghost predicate IsTail(f: seq<int>, nanosecond: nat) {
    if nanosecond == 0 then f == [] else f != [] && f[0] == '.' as int && IsFraction(f[1..], nanosecond)
  }

  lemma TimeIsIso(t: Time) returns (f: seq<int>)
    requires ValidTime(t)
    ensures PrintTime(t) == IsoClock(t) + f && IsTail(f, t.nanosecond)
  {
    ClockIsIso(t);
    f := [];
    if t.nanosecond > 0 {
      FractionIsShortest(t.nanosecond);
      var g := FractionText(t.nanosecond);
      f := [DOT] + g;
      JoinFraction(Clock(t), g);
      assert f[1..] == g;
    }
  }

  lemma JoinFraction(a: seq<int>, g: seq<int>)
    ensures a + [DOT] + g == a + ([DOT] + g)
  {
  }

  /** A date-time is printed in the form of RFC 3339, with the shortest fraction and `Z` for no offset. */
  lemma DateTimeIsIso(x: DateTime) returns (f: seq<int>)
    requires ValidDateTime(x)
    ensures PrintDateTime(x) ==
      IsoDate(x.date) + ['T' as int] + (IsoClock(x.time) + f) + (if x.offset.Some? then IsoOffset(x.offset.value) else [])
    ensures IsTail(f, x.time.nanosecond)
  {
    DateIsIso(x.date);
    f := TimeIsIso(x.time);
    if x.offset.Some? { OffsetIsIso(x.offset.value); }
  }
}
