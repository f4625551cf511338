/**
  Dates, times and offsets: printing, parsing and the round trip.
 */
module DateTime {
  import opened Basics
  import opened Integer

  datatype Date = Date(year: nat, month: nat, day: nat)

  datatype Time = Time(hour: nat, minute: nat, second: nat, nanosecond: nat)

  /** `offset` is in minutes. */
  datatype DateTime = DateTime(date: Date, time: Time, offset: Option<int>)

  datatype Read<T> = Done(value: T, next: nat) | Failed

  const DASH: int := 0x2D
  const COLON: int := 0x3A
  const DOT: int := 0x2E

  // ---------------------------------------------------------------------------
  // Valid values

  predicate IsLeapYear(y: nat) {
    y % 4 == 0 && (y % 100 != 0 || y % 400 == 0)
  }

  function DaysInMonth(y: nat, m: nat): nat {
    if m == 2 then (if IsLeapYear(y) then 29 else 28)
    else if m == 4 || m == 6 || m == 9 || m == 11 then 30 else 31
  }

  /** A date of the Gregorian calendar with a four-digit year. */
  predicate ValidDate(d: Date) {
    d.year <= 9999 && 1 <= d.month <= 12 && 1 <= d.day <= DaysInMonth(d.year, d.month)
  }

  predicate ValidTime(t: Time) {
    t.hour <= 23 && t.minute <= 59 && t.second <= 59 && t.nanosecond <= 999_999_999
  }

  predicate ValidOffset(o: Option<int>) {
    o.Some? ==> -1439 <= o.value <= 1439
  }

  // ---------------------------------------------------------------------------
  // Digits of fixed width

  function Zeros(n: nat): (z: seq<int>)
    ensures |z| == n && forall i :: 0 <= i < n ==> z[i] == ZERO
  {
    if n == 0 then [] else [ZERO] + Zeros(n - 1)
  }

  /** A number printed with zeros in front up to a width. */
  function Padded(n: nat, w: nat): seq<int> {
    Filled(Digits(n), w)
  }

  function Filled(d: seq<int>, w: nat): seq<int> {
    if |d| >= w then d else Zeros(w - |d|) + d
  }

  lemma {:induction false} ZerosKeepValue(k: nat, d: seq<int>)
    requires AllDigits(10, d)
    ensures AllDigits(10, Zeros(k) + d) && Value(10, Zeros(k) + d) == Value(10, d)
  {
    if k == 0 {
      assert Zeros(0) + d == d;
    } else {
      ZerosKeepValue(k - 1, d);
      var z := Zeros(k) + d;
      assert z[1..] == Zeros(k - 1) + d;
      LeadingZero(10, z);
    }
  }

  lemma DigitsLength(n: nat, w: nat)
    requires w > 0 && n < Pow(10, w)
    ensures |Digits(n)| <= w
  {
    if n > 0 {
      ValueAtLeast(Digits(n));
      if |Digits(n)| > w {
        PowMonotone(10, w, |Digits(n)| - 1);
        assert false;
      }
    }
  }

  lemma DigitsFit(n: nat, w: nat) returns (d: seq<int>)
    requires w > 0 && n < Pow(10, w)
    ensures d == Digits(n) && AllDigits(10, d) && |d| <= w && Value(10, d) == n
  {
    DigitsLength(n, w);
    d := Digits(n);
  }

  lemma FilledKeepsValue(d: seq<int>, w: nat)
    requires AllDigits(10, d) && |d| <= w
    ensures |Filled(d, w)| == w && AllDigits(10, Filled(d, w)) && Value(10, Filled(d, w)) == Value(10, d)
  {
    if |d| < w { ZerosKeepValue(w - |d|, d); }
  }

  /** A number that fits is printed with exactly the width and keeps its value. */
  lemma PaddedFits(n: nat, w: nat)
    requires w > 0 && n < Pow(10, w)
    ensures |Padded(n, w)| == w && AllDigits(10, Padded(n, w)) && Value(10, Padded(n, w)) == n
  {
    var d := DigitsFit(n, w);
    FilledKeepsValue(d, w);
  }

  /** Digit strings of one length are told apart by their values. */
  lemma {:induction false} ValueDetermines(a: seq<int>, b: seq<int>)
    requires AllDigits(10, a) && AllDigits(10, b) && |a| == |b| && Value(10, a) == Value(10, b)
    ensures a == b
  {
    if a != [] {
      var n := |a| - 1;
      LastDigit(Value(10, a[..n]), a[n] - ZERO, Value(10, b[..n]), b[n] - ZERO);
      ValueDetermines(a[..n], b[..n]);
      assert a == a[..n] + [a[n]] && b == b[..n] + [b[n]];
    }
  }

  lemma LastDigit(v: nat, x: nat, w: nat, y: nat)
    requires x < 10 && y < 10 && v * 10 + x == w * 10 + y
    ensures v == w && x == y
  {
  }

  // ---------------------------------------------------------------------------
  // Printing

  /** Three numbers with a separator between them. */
  function Triple(x: seq<int>, sep: int, y: seq<int>, z: seq<int>): seq<int> {
    x + [sep] + y + [sep] + z
  }

  function PrintDate(d: Date): seq<int> {
    Triple(Padded(d.year, 4), DASH, Padded(d.month, 2), Padded(d.day, 2))
  }

  /** A fraction without its trailing zeros: the number and how many digits it has. */
  function Shortest(ns: nat, digits: nat): (nat, nat)
    decreases digits
  {
    if ns % 10 == 0 && digits > 0 then Shortest(ns / 10, digits - 1) else (ns, digits)
  }

  function Clock(t: Time): seq<int> {
    Triple(Padded(t.hour, 2), COLON, Padded(t.minute, 2), Padded(t.second, 2))
  }

  function FractionText(nanosecond: nat): seq<int> {
    var (ns, digits) := Shortest(nanosecond, 9);
    Padded(ns, digits)
  }

  function PrintTime(t: Time): seq<int> {
    if 0 < t.nanosecond <= 999_999_999 then Clock(t) + [DOT] + FractionText(t.nanosecond) else Clock(t)
  }

  function PrintOffset(minutes: int): seq<int> {
    if minutes == 0 then ['Z' as int]
    else
      var m := if minutes < 0 then -minutes else minutes;
      [if minutes < 0 then MINUS else PLUS] + Padded(m / 60, 2) + [COLON] + Padded(m % 60, 2)
  }

  function PrintDateTime(x: DateTime): seq<int> {
    PrintDate(x.date) + ['T' as int] + PrintTime(x.time) + (if x.offset.Some? then PrintOffset(x.offset.value) else [])
  }

  /** The loop that drops trailing zeros of the fraction. */
  method DropZeros(nanosecond: nat) returns (ns: nat, digits: nat)
    requires 0 < nanosecond <= 999_999_999
    ensures (ns, digits) == Shortest(nanosecond, 9)
    ensures digits > 0 && ns % 10 != 0 && nanosecond == ns * Pow(10, 9 - digits) && ns < Pow(10, digits)
  {
    ns, digits := nanosecond, 9;
    assert Pow(10, 9) == 1_000_000_000 by { PowersOfTen(); }
    while ns % 10 == 0
      invariant 0 < ns < Pow(10, digits) && digits <= 9 && nanosecond == ns * Pow(10, 9 - digits)
      invariant Shortest(nanosecond, 9) == Shortest(ns, digits)
      decreases digits
    {
      assert digits > 0;
      MoveZero(ns, 9 - digits);
      ns, digits := ns / 10, digits - 1;
    }
  }

  lemma MoveZero(ns: nat, k: nat)
    requires ns % 10 == 0
    ensures ns * Pow(10, k) == ns / 10 * Pow(10, k + 1)
  {
    var q := ns / 10;
    assert q * 10 * Pow(10, k) == q * (10 * Pow(10, k));
  }

  lemma PowersOfTen()
    ensures Pow(10, 2) == 100 && Pow(10, 4) == 10_000 && Pow(10, 9) == 1_000_000_000
  {
    assert Pow(10, 2) == 100;
    assert Pow(10, 4) == 10_000;
    PowSum(10, 4, 4);
    PowSum(10, 8, 1);
  }

  // ---------------------------------------------------------------------------
  // The texts that are accepted

  /** The number of a single digit, if there is one. */
  function DigitAt(cps: seq<int>, i: nat): Option<nat> {
    if i < |cps| && IsDigit(10, cps[i]) then Some(cps[i] - ZERO) else None
  }

  function TwoAt(cps: seq<int>, i: nat): Option<nat> {
    var a, b := DigitAt(cps, i), DigitAt(cps, i + 1);
    if a.Some? && b.Some? then Some(a.value * 10 + b.value) else None
  }

  function FourAt(cps: seq<int>, i: nat): Option<nat> {
    var a, b := TwoAt(cps, i), TwoAt(cps, i + 2);
    if a.Some? && b.Some? then Some(a.value * 100 + b.value) else None
  }

  predicate IsAt(cps: seq<int>, i: nat, c: int) {
    i < |cps| && cps[i] == c
  }

  predicate EndsAt(cps: seq<int>, i: nat) {
    i >= |cps| || IsValueTerminator(cps[i])
  }

  /** Four digits, two and two, separated by dashes, that make a date. */
  function DateAt(cps: seq<int>, i: nat, partOfDateTime: bool): Read<Date> {
    var y, m, d := FourAt(cps, i), TwoAt(cps, i + 5), TwoAt(cps, i + 8);
    if y.Some? && m.Some? && d.Some? && IsAt(cps, i + 4, DASH) && IsAt(cps, i + 7, DASH)
       && 1 <= m.value <= 12 && 1 <= d.value <= DaysInMonth(y.value, m.value)
       && (partOfDateTime || EndsAt(cps, i + 10))
    then Done(Date(y.value, m.value, d.value), i + 10)
    else Failed
  }

  function ClockAt(cps: seq<int>, i: nat): Read<Time> {
    var h, m, s := TwoAt(cps, i), TwoAt(cps, i + 3), TwoAt(cps, i + 6);
    if h.Some? && m.Some? && s.Some? && IsAt(cps, i + 2, COLON) && IsAt(cps, i + 5, COLON)
       && h.value <= 23 && m.value <= 59 && s.value <= 59
    then Done(Time(h.value, m.value, s.value, 0), i + 8)
    else Failed
  }

  /** How many digits stand at `i`, counting no further than `max`. */
  function DigitRun(cps: seq<int>, i: nat, max: nat): (n: nat)
    requires i <= |cps|
    ensures n <= max && i + n <= |cps| && AllDigits(10, cps[i..i + n])
    ensures n < max && i + n < |cps| ==> !IsDigit(10, cps[i + n])
    decreases max
  {
    if max == 0 || i == |cps| || !IsDigit(10, cps[i]) then 0
    else
      var n := 1 + DigitRun(cps, i + 1, max - 1);
      assert cps[i..i + n] == [cps[i]] + cps[i + 1..i + n];
      n
  }

  predicate StartsOffset(cps: seq<int>, i: nat) {
    IsAt(cps, i, PLUS) || IsAt(cps, i, MINUS) || IsAt(cps, i, 'Z' as int)
  }

  /** A number with `k` zeros written behind it. */
  function WithZeros(v: nat, k: nat): nat {
    if k == 0 then v else WithZeros(v, k - 1) * 10
  }

  lemma {:induction false} WithZerosIsScaled(v: nat, k: nat)
    ensures WithZeros(v, k) == v * Pow(10, k)
  {
    if k > 0 {
      WithZerosIsScaled(v, k - 1);
      TimesTen(v, k - 1);
    }
  }

  /** Nanoseconds: the missing digits of a fraction are zeros. */
  function FractionValue(d: seq<int>): nat
    requires AllDigits(10, d) && |d| <= 9
  {
    WithZeros(Value(10, d), 9 - |d|)
  }

  /** A fraction of `n` digits, and what may follow it. */
  function FractionOf(cps: seq<int>, i: nat, n: nat, partOfDateTime: bool): Read<nat>
    requires i + n <= |cps| && n <= 9 && AllDigits(10, cps[i..i + n])
  {
    var e := i + n;
    if n == 0 || (n == 9 && e < |cps| && IsDigit(10, cps[e])) || (!partOfDateTime && !EndsAt(cps, e)) then Failed
    else Done(FractionValue(cps[i..e]), e)
  }

  /** The fraction behind a dot: up to nine digits, filled up with zeros. */
  function FractionAt(cps: seq<int>, i: nat, partOfDateTime: bool): Read<nat> {
    if i >= |cps| then Failed else FractionOf(cps, i, DigitRun(cps, i, 9), partOfDateTime)
  }

  /** What follows hours, minutes and seconds. */
  function AfterClock(cps: seq<int>, t: Time, j: nat, partOfDateTime: bool): Read<Time> {
    if EndsAt(cps, j) || (partOfDateTime && StartsOffset(cps, j)) then Done(t, j)
    else if !IsAt(cps, j, DOT) then Failed
    else
      match FractionAt(cps, j + 1, partOfDateTime)
      case Failed => Failed
      case Done(ns, e) => Done(t.(nanosecond := ns), e)
  }

  function TimeAt(cps: seq<int>, i: nat, partOfDateTime: bool): Read<Time> {
    match ClockAt(cps, i)
    case Failed => Failed
    case Done(t, j) => AfterClock(cps, t, j, partOfDateTime)
  }

  function OffsetAt(cps: seq<int>, i: nat): Read<int> {
    if IsAt(cps, i, 'Z' as int) then Done(0, i + 1)
    else if !IsAt(cps, i, PLUS) && !IsAt(cps, i, MINUS) then Failed
    else
      var h, m := TwoAt(cps, i + 1), TwoAt(cps, i + 4);
      if h.Some? && m.Some? && IsAt(cps, i + 3, COLON) && h.value <= 23 && m.value <= 59
      then Done((h.value * 60 + m.value) * (if cps[i] == MINUS then -1 else 1), i + 6)
      else Failed
  }

  function DateTimeAt(cps: seq<int>, i: nat): Read<DateTime> {
    match DateAt(cps, i, true)
    case Failed => Failed
    case Done(date, j) =>
      if !IsAt(cps, j, ' ' as int) && !IsAt(cps, j, 'T' as int) then Failed
      else
        match TimeAt(cps, j + 1, true)
        case Failed => Failed
        case Done(time, k) =>
          if EndsAt(cps, k) then Done(DateTime(date, time, None), k)
          else
            match OffsetAt(cps, k)
            case Failed => Failed
            case Done(minutes, e) => if EndsAt(cps, e) then Done(DateTime(date, time, Some(minutes)), e) else Failed
  }

  // ---------------------------------------------------------------------------
  // What is printed is accepted

  predicate HasAt(cps: seq<int>, i: nat, s: seq<int>) {
    i + |s| <= |cps| && cps[i..i + |s|] == s
  }

  lemma HasBoth(cps: seq<int>, i: nat, a: seq<int>, b: seq<int>)
    ensures HasAt(cps, i, a + b) <==> HasAt(cps, i, a) && HasAt(cps, i + |a|, b)
  {
    if i + |a| + |b| <= |cps| {
      var s := cps[i..i + |a + b|];
      assert cps[i..i + |a|] == s[..|a|] && cps[i + |a|..i + |a| + |b|] == s[|a|..];
      assert s == s[..|a|] + s[|a|..];
    }
  }

  lemma HasOne(cps: seq<int>, i: nat, c: int)
    ensures HasAt(cps, i, [c]) <==> IsAt(cps, i, c)
  {
    if i < |cps| {
      assert cps[i..i + 1] == [cps[i]];
    }
  }

  lemma SplitTens(n: nat) returns (a: nat, b: nat)
    requires n < 100
    ensures n == a * 10 + b && a < 10 && b < 10
  {
    a, b := n / 10, n % 10;
  }

  /** Numbers below 100 are printed as two digits. */
  lemma TwoDigits(a: nat, b: nat, n: nat)
    requires a < 10 && b < 10 && n == a * 10 + b
    ensures Padded(n, 2) == [ZERO + a, ZERO + b]
  {
    assert n / 10 == a && n % 10 == b;
    if n < 10 {
      assert Zeros(1) == [ZERO] + Zeros(0);
    } else {
      assert Digits(n) == Digits(a) + [ZERO + b];
    }
  }

  lemma TwoWide(n: nat)
    requires n < 100
    ensures |Padded(n, 2)| == 2
  {
    var a, b := SplitTens(n);
    TwoDigits(a, b, n);
  }

  lemma Hundreds(a: nat, b: nat, n: nat)
    requires b < 100
    ensures a * 100 + b == n <==> a == n / 100 && b == n % 100
  {
  }

  lemma FourDigits(a: nat, b: nat, n: nat)
    requires a < 100 && b < 100 && n == a * 100 + b
    ensures Padded(n, 4) == Padded(a, 2) + Padded(b, 2)
  {
    var w, x := TwoPadded(a);
    var y, z := TwoPadded(b);
    FourPadded(w, x, y, z, n);
  }

  lemma TwoPadded(n: nat) returns (a: nat, b: nat)
    requires n < 100
    ensures n == a * 10 + b && a < 10 && b < 10 && Padded(n, 2) == [ZERO + a, ZERO + b]
  {
    a, b := SplitTens(n);
    TwoDigits(a, b, n);
  }

  lemma FourPadded(w: nat, x: nat, y: nat, z: nat, n: nat)
    requires w < 10 && x < 10 && y < 10 && z < 10 && n == w * 1000 + x * 100 + y * 10 + z
    ensures Padded(n, 4) == [ZERO + w, ZERO + x] + [ZERO + y, ZERO + z]
  {
    var s := [ZERO + w, ZERO + x, ZERO + y, ZERO + z];
    assert s == [ZERO + w, ZERO + x] + [ZERO + y, ZERO + z];
    FourValue(s);
    SameFour(n, s);
  }

  lemma SameFour(n: nat, s: seq<int>)
    requires n < 10_000 && |s| == 4 && AllDigits(10, s) && Value(10, s) == n
    ensures Padded(n, 4) == s
  {
    PowersOfTen();
    PaddedFits(n, 4);
    ValueDetermines(s, Padded(n, 4));
  }

  lemma FourValue(s: seq<int>)
    requires |s| == 4 && AllDigits(10, s)
    ensures Value(10, s) == (((s[0] - ZERO) * 10 + (s[1] - ZERO)) * 10 + (s[2] - ZERO)) * 10 + (s[3] - ZERO)
  {
    var a, b, c := s[..3], s[..2], s[..1];
    assert a[..2] == b && b[..1] == c && c[..0] == [];
    assert Value(10, c) == s[0] - ZERO;
    assert Value(10, b) == Value(10, c) * 10 + (s[1] - ZERO);
    assert Value(10, a) == Value(10, b) * 10 + (s[2] - ZERO);
  }

  lemma HasTwo(cps: seq<int>, i: nat, x: int, y: int)
    ensures HasAt(cps, i, [x, y]) <==> IsAt(cps, i, x) && IsAt(cps, i + 1, y)
  {
    if i + 2 <= |cps| {
      assert cps[i..i + 2] == [cps[i], cps[i + 1]];
    }
  }

  lemma TwoFromDigits(cps: seq<int>, i: nat, a: nat, b: nat)
    requires a < 10 && b < 10
    ensures IsAt(cps, i, ZERO + a) && IsAt(cps, i + 1, ZERO + b) <==> TwoAt(cps, i) == Some(a * 10 + b)
  {
    var x, y := DigitAt(cps, i), DigitAt(cps, i + 1);
    if x.Some? && y.Some? && x.value * 10 + y.value == a * 10 + b {
      LastDigit(x.value, y.value, a, b);
    }
  }

  lemma TwoPrinted(cps: seq<int>, i: nat, n: nat)
    requires n < 100
    ensures HasAt(cps, i, Padded(n, 2)) <==> TwoAt(cps, i) == Some(n)
  {
    var a, b := SplitTens(n);
    TwoDigits(a, b, n);
    HasTwo(cps, i, ZERO + a, ZERO + b);
    TwoFromDigits(cps, i, a, b);
  }

  lemma FourIsTwoTwos(cps: seq<int>, i: nat, n: nat)
    ensures FourAt(cps, i) == Some(n) <==> TwoAt(cps, i) == Some(n / 100) && TwoAt(cps, i + 2) == Some(n % 100)
  {
    var a, b := TwoAt(cps, i), TwoAt(cps, i + 2);
    if a.Some? && b.Some? {
      Hundreds(a.value, b.value, n);
    }
  }

  lemma FourPrinted(cps: seq<int>, i: nat, n: nat)
    requires n < 10_000
    ensures HasAt(cps, i, Padded(n, 4)) <==> FourAt(cps, i) == Some(n)
  {
    var a, b := n / 100, n % 100;
    FourDigits(a, b, n);
    TwoWide(a);
    HasBoth(cps, i, Padded(a, 2), Padded(b, 2));
    TwoPrinted(cps, i, a);
    TwoPrinted(cps, i + 2, b);
    FourIsTwoTwos(cps, i, n);
  }

  lemma TripleParts(cps: seq<int>, i: nat, a: seq<int>, sep: int, b: seq<int>, c: seq<int>)
    ensures HasAt(cps, i, Triple(a, sep, b, c)) <==>
            && HasAt(cps, i, a) && IsAt(cps, i + |a|, sep) && HasAt(cps, i + |a| + 1, b)
            && IsAt(cps, i + |a| + 1 + |b|, sep) && HasAt(cps, i + |a| + |b| + 2, c)
  {
    HasBoth(cps, i, a + [sep] + b + [sep], c);
    HasBoth(cps, i, a + [sep] + b, [sep]);
    HasBoth(cps, i, a + [sep], b);
    HasBoth(cps, i, a, [sep]);
    HasOne(cps, i + |a|, sep);
    HasOne(cps, i + |a| + 1 + |b|, sep);
  }

  lemma DatePrinted(cps: seq<int>, i: nat, d: Date)
    requires d.year < 10_000 && d.month < 100 && d.day < 100
    ensures HasAt(cps, i, PrintDate(d)) <==>
            FourAt(cps, i) == Some(d.year) && IsAt(cps, i + 4, DASH) && TwoAt(cps, i + 5) == Some(d.month)
            && IsAt(cps, i + 7, DASH) && TwoAt(cps, i + 8) == Some(d.day)
  {
    PowersOfTen();
    PaddedFits(d.year, 4);
    TwoWide(d.month);
    TripleParts(cps, i, Padded(d.year, 4), DASH, Padded(d.month, 2), Padded(d.day, 2));
    FourPrinted(cps, i, d.year);
    TwoPrinted(cps, i + 5, d.month);
    TwoPrinted(cps, i + 8, d.day);
  }

  lemma ClockPrinted(cps: seq<int>, i: nat, h: nat, m: nat, s: nat)
    requires h < 100 && m < 100 && s < 100
    ensures HasAt(cps, i, Triple(Padded(h, 2), COLON, Padded(m, 2), Padded(s, 2))) <==>
            TwoAt(cps, i) == Some(h) && IsAt(cps, i + 2, COLON) && TwoAt(cps, i + 3) == Some(m)
            && IsAt(cps, i + 5, COLON) && TwoAt(cps, i + 6) == Some(s)
  {
    TwoWide(h);
    TwoWide(m);
    TripleParts(cps, i, Padded(h, 2), COLON, Padded(m, 2), Padded(s, 2));
    TwoPrinted(cps, i, h);
    TwoPrinted(cps, i + 3, m);
    TwoPrinted(cps, i + 6, s);
  }

  /** `parse_date` accepts exactly the printed forms of real Gregorian dates. */
  lemma DateAcceptedIff(cps: seq<int>, i: nat, d: Date, partOfDateTime: bool)
    ensures DateAt(cps, i, partOfDateTime) == Done(d, i + 10) <==>
            ValidDate(d) && HasAt(cps, i, PrintDate(d)) && (partOfDateTime || EndsAt(cps, i + 10))
  {
    if d.year < 10_000 && d.month < 100 && d.day < 100 {
      DatePrinted(cps, i, d);
    }
  }

  // ---------------------------------------------------------------------------
  // Round trips

  lemma {:induction false} ShortestKeepsValue(ns: nat, k: nat)
    requires 0 < ns < Pow(10, k)
    ensures var (m, d) := Shortest(ns, k);
            0 < d <= k && 0 < m < Pow(10, d) && m % 10 != 0 && ns == m * Pow(10, k - d)
    decreases k
  {
    if ns % 10 == 0 {
      ShortestKeepsValue(ns / 10, k - 1);
      var (m, d) := Shortest(ns / 10, k - 1);
      TimesTen(m, k - 1 - d);
    }
  }

  lemma TimesTen(m: nat, j: nat)
    ensures m * Pow(10, j) * 10 == m * Pow(10, j + 1)
  {
  }

  lemma {:induction false} RunStopsAt(cps: seq<int>, i: nat, d: nat, max: nat)
    requires i + d <= |cps| && d <= max && AllDigits(10, cps[i..i + d])
    requires d == max || i + d == |cps| || !IsDigit(10, cps[i + d])
    ensures DigitRun(cps, i, max) == d
    decreases d
  {
    if d > 0 {
      assert cps[i] == cps[i..i + d][0];
      assert cps[i + 1..i + d] == cps[i..i + d][1..];
      RunStopsAt(cps, i + 1, d - 1, max - 1);
    }
  }

  predicate NoDigitAt(cps: seq<int>, i: nat) {
    i < |cps| ==> !IsDigit(10, cps[i])
  }

  /** Dropping the trailing zeros of a fraction is undone by filling it up. */
  lemma FractionTextKeepsValue(ns: nat) returns (f: seq<int>)
    requires 0 < ns <= 999_999_999
    ensures f == FractionText(ns) && 0 < |f| <= 9 && AllDigits(10, f) && FractionValue(f) == ns
  {
    PowersOfTen();
    ShortestKeepsValue(ns, 9);
    var (m, d) := Shortest(ns, 9);
    PaddedFits(m, d);
    WithZerosIsScaled(m, 9 - d);
    f := Padded(m, d);
  }

  lemma FractionFromText(cps: seq<int>, i: nat, f: seq<int>, partOfDateTime: bool)
    requires HasAt(cps, i, f) && 0 < |f| <= 9 && AllDigits(10, f)
    requires NoDigitAt(cps, i + |f|) && (partOfDateTime || EndsAt(cps, i + |f|))
    ensures FractionAt(cps, i, partOfDateTime) == Done(FractionValue(f), i + |f|)
  {
    RunStopsAt(cps, i, |f|, 9);
  }

  lemma ClockFromText(cps: seq<int>, i: nat, t: Time)
    requires ValidTime(t) && HasAt(cps, i, Clock(t))
    ensures |Clock(t)| == 8 && ClockAt(cps, i) == Done(t.(nanosecond := 0), i + 8)
  {
    TwoWide(t.hour);
    TwoWide(t.minute);
    TwoWide(t.second);
    ClockPrinted(cps, i, t.hour, t.minute, t.second);
  }

  /** Where a time may end: at the end of the value, or at an offset. */
  predicate TimeEndsAt(cps: seq<int>, e: nat, partOfDateTime: bool) {
    EndsAt(cps, e) || (partOfDateTime && StartsOffset(cps, e))
  }

  lemma TimeFromPieces(cps: seq<int>, i: nat, t: Time, f: seq<int>, partOfDateTime: bool)
    requires ClockAt(cps, i) == Done(t, i + 8) && IsAt(cps, i + 8, DOT) && HasAt(cps, i + 9, f)
    requires 0 < |f| <= 9 && AllDigits(10, f) && TimeEndsAt(cps, i + 9 + |f|, partOfDateTime)
    ensures TimeAt(cps, i, partOfDateTime) == Done(t.(nanosecond := FractionValue(f)), i + 9 + |f|)
  {
    FractionFromText(cps, i + 9, f, partOfDateTime);
  }

  lemma SplitAtDot(cps: seq<int>, i: nat, c: seq<int>, f: seq<int>)
    requires HasAt(cps, i, c + [DOT] + f) && |c| == 8
    ensures HasAt(cps, i, c) && IsAt(cps, i + 8, DOT) && HasAt(cps, i + 9, f)
  {
    HasBoth(cps, i, c + [DOT], f);
    HasBoth(cps, i, c, [DOT]);
    HasOne(cps, i + 8, DOT);
  }

  lemma ClockLength(t: Time)
    requires ValidTime(t)
    ensures |Clock(t)| == 8
  {
    TwoWide(t.hour);
    TwoWide(t.minute);
    TwoWide(t.second);
  }

  lemma FractionPieces(cps: seq<int>, i: nat, t: Time, e: nat) returns (f: seq<int>)
    requires ValidTime(t) && t.nanosecond > 0 && HasAt(cps, i, PrintTime(t)) && e == i + |PrintTime(t)|
    ensures HasAt(cps, i, Clock(t)) && IsAt(cps, i + 8, DOT) && HasAt(cps, i + 9, f)
    ensures 0 < |f| <= 9 && AllDigits(10, f) && FractionValue(f) == t.nanosecond && e == i + 9 + |f|
  {
    ClockLength(t);
    f := FractionTextKeepsValue(t.nanosecond);
    SplitAtDot(cps, i, Clock(t), f);
  }

  lemma FractionalTimeFromPieces(cps: seq<int>, i: nat, t: Time, f: seq<int>, e: nat, partOfDateTime: bool)
    requires ValidTime(t) && HasAt(cps, i, Clock(t)) && IsAt(cps, i + 8, DOT) && HasAt(cps, i + 9, f)
    requires 0 < |f| <= 9 && AllDigits(10, f) && FractionValue(f) == t.nanosecond && e == i + 9 + |f|
    requires TimeEndsAt(cps, e, partOfDateTime)
    ensures TimeAt(cps, i, partOfDateTime) == Done(t, e)
  {
    ClockFromText(cps, i, t);
    TimeFromPieces(cps, i, t.(nanosecond := 0), f, partOfDateTime);
  }

  lemma FractionalTimeParsesBack(cps: seq<int>, i: nat, t: Time, e: nat, partOfDateTime: bool)
    requires ValidTime(t) && t.nanosecond > 0 && HasAt(cps, i, PrintTime(t))
    requires e == i + |PrintTime(t)| && TimeEndsAt(cps, e, partOfDateTime)
    ensures TimeAt(cps, i, partOfDateTime) == Done(t, e)
  {
    var f := FractionPieces(cps, i, t, e);
    FractionalTimeFromPieces(cps, i, t, f, e, partOfDateTime);
  }

  lemma WholeTimeParsesBack(cps: seq<int>, i: nat, t: Time, e: nat, partOfDateTime: bool)
    requires ValidTime(t) && t.nanosecond == 0 && HasAt(cps, i, Clock(t)) && e == i + |Clock(t)|
    requires TimeEndsAt(cps, e, partOfDateTime)
    ensures TimeAt(cps, i, partOfDateTime) == Done(t, e)
  {
    ClockFromText(cps, i, t);
  }

  /** Printing a time and parsing it is the identity, down to the nanosecond. */
  lemma TimeParsesBack(cps: seq<int>, i: nat, t: Time, e: nat, partOfDateTime: bool)
    requires ValidTime(t) && HasAt(cps, i, PrintTime(t)) && e == i + |PrintTime(t)| && TimeEndsAt(cps, e, partOfDateTime)
    ensures TimeAt(cps, i, partOfDateTime) == Done(t, e)
  {
    if t.nanosecond > 0 {
      FractionalTimeParsesBack(cps, i, t, e, partOfDateTime);
    } else {
      WholeTimeParsesBack(cps, i, t, e, partOfDateTime);
    }
  }

  lemma OffsetText(cps: seq<int>, i: nat, sign: int, h: nat, m: nat)
    requires h < 100 && m < 100 && HasAt(cps, i, [sign] + Padded(h, 2) + [COLON] + Padded(m, 2))
    ensures IsAt(cps, i, sign) && TwoAt(cps, i + 1) == Some(h) && IsAt(cps, i + 3, COLON) && TwoAt(cps, i + 4) == Some(m)
    ensures |[sign] + Padded(h, 2) + [COLON] + Padded(m, 2)| == 6
  {
    TwoWide(h);
    TwoWide(m);
    SplitAtColon(cps, i, sign, Padded(h, 2), Padded(m, 2));
    TwoPrinted(cps, i + 1, h);
    TwoPrinted(cps, i + 4, m);
  }

  lemma SplitAtColon(cps: seq<int>, i: nat, sign: int, h: seq<int>, m: seq<int>)
    requires |h| == 2 && |m| == 2 && HasAt(cps, i, [sign] + h + [COLON] + m)
    ensures IsAt(cps, i, sign) && HasAt(cps, i + 1, h) && IsAt(cps, i + 3, COLON) && HasAt(cps, i + 4, m)
  {
    HasBoth(cps, i, [sign] + h + [COLON], m);
    HasBoth(cps, i, [sign] + h, [COLON]);
    HasBoth(cps, i, [sign], h);
    HasOne(cps, i, sign);
    HasOne(cps, i + 3, COLON);
  }

  lemma SignedOffset(cps: seq<int>, i: nat, sign: int, h: nat, m: nat, minutes: int)
    requires h <= 23 && m <= 59 && HasAt(cps, i, [sign] + Padded(h, 2) + [COLON] + Padded(m, 2))
    requires (sign == MINUS && minutes == -(h * 60 + m)) || (sign == PLUS && minutes == h * 60 + m)
    ensures StartsOffset(cps, i) && OffsetAt(cps, i) == Done(minutes, i + 6)
    ensures |[sign] + Padded(h, 2) + [COLON] + Padded(m, 2)| == 6
  {
    OffsetText(cps, i, sign, h, m);
  }

  lemma OffsetPrinted(minutes: int) returns (sign: int, h: nat, m: nat)
    requires -1439 <= minutes <= 1439 && minutes != 0
    ensures PrintOffset(minutes) == [sign] + Padded(h, 2) + [COLON] + Padded(m, 2) && h <= 23 && m <= 59
    ensures (sign == MINUS && minutes == -(h * 60 + m)) || (sign == PLUS && minutes == h * 60 + m)
  {
    var n := if minutes < 0 then -minutes else minutes;
    sign, h, m := if minutes < 0 then MINUS else PLUS, n / 60, n % 60;
  }

  lemma OffsetParsesBack(cps: seq<int>, i: nat, minutes: int)
    requires -1439 <= minutes <= 1439 && HasAt(cps, i, PrintOffset(minutes))
    ensures StartsOffset(cps, i) && OffsetAt(cps, i) == Done(minutes, i + |PrintOffset(minutes)|)
  {
    if minutes == 0 {
      HasOne(cps, i, 'Z' as int);
    } else {
      var sign, h, m := OffsetPrinted(minutes);
      SignedOffset(cps, i, sign, h, m, minutes);
    }
  }

  // ---------------------------------------------------------------------------
  // Which texts are times and offsets

  /** A fraction of one to nine digits from `i` to `e`, with no digit behind it. */
  predicate FractionSpelled(cps: seq<int>, i: nat, e: nat, nanosecond: nat) {
    && i < e <= i + 9 && e <= |cps| && AllDigits(10, cps[i..e]) && NoDigitAt(cps, e)
    && FractionValue(cps[i..e]) == nanosecond
  }

  lemma FractionAcceptedIff(cps: seq<int>, i: nat, e: nat, ns: nat, partOfDateTime: bool)
    ensures FractionAt(cps, i, partOfDateTime) == Done(ns, e) <==>
            FractionSpelled(cps, i, e, ns) && (partOfDateTime || EndsAt(cps, e))
  {
    if FractionAt(cps, i, partOfDateTime) == Done(ns, e) {
      FractionFound(cps, i, e, ns, partOfDateTime);
    }
    if FractionSpelled(cps, i, e, ns) && (partOfDateTime || EndsAt(cps, e)) {
      FractionFromText(cps, i, cps[i..e], partOfDateTime);
    }
  }

  lemma FractionFound(cps: seq<int>, i: nat, e: nat, ns: nat, partOfDateTime: bool)
    requires FractionAt(cps, i, partOfDateTime) == Done(ns, e)
    ensures FractionSpelled(cps, i, e, ns) && (partOfDateTime || EndsAt(cps, e))
  {
    RunIsSpelled(cps, i, DigitRun(cps, i, 9), e, ns, partOfDateTime);
  }

  lemma RunIsSpelled(cps: seq<int>, i: nat, n: nat, e: nat, ns: nat, partOfDateTime: bool)
    requires n <= 9 && i + n <= |cps| && AllDigits(10, cps[i..i + n])
    requires n < 9 && i + n < |cps| ==> !IsDigit(10, cps[i + n])
    requires FractionOf(cps, i, n, partOfDateTime) == Done(ns, e)
    ensures FractionSpelled(cps, i, e, ns) && (partOfDateTime || EndsAt(cps, e))
  {
  }

  /** Hours, minutes and seconds as printed, and a fraction unless it is left out for zero. */
  predicate TimeSpelled(cps: seq<int>, i: nat, t: Time, e: nat, partOfDateTime: bool) {
    && ValidTime(t) && HasAt(cps, i, Clock(t))
    && if IsAt(cps, i + 8, DOT)
       then FractionSpelled(cps, i + 9, e, t.nanosecond) && (partOfDateTime || EndsAt(cps, e))
       else t.nanosecond == 0 && e == i + 8 && TimeEndsAt(cps, e, partOfDateTime)
  }

  lemma ClockAcceptedIff(cps: seq<int>, i: nat, c: Time, j: nat)
    ensures ClockAt(cps, i) == Done(c, j) <==> ValidTime(c) && c.nanosecond == 0 && HasAt(cps, i, Clock(c)) && j == i + 8
  {
    if c.hour < 100 && c.minute < 100 && c.second < 100 {
      ClockPrinted(cps, i, c.hour, c.minute, c.second);
    }
  }

  lemma AfterClockIff(cps: seq<int>, c: Time, j: nat, t: Time, e: nat, partOfDateTime: bool)
    requires c.nanosecond == 0
    ensures AfterClock(cps, c, j, partOfDateTime) == Done(t, e) <==>
            && t == c.(nanosecond := t.nanosecond)
            && if IsAt(cps, j, DOT)
               then FractionSpelled(cps, j + 1, e, t.nanosecond) && (partOfDateTime || EndsAt(cps, e))
               else t.nanosecond == 0 && e == j && TimeEndsAt(cps, e, partOfDateTime)
  {
    FractionAcceptedIff(cps, j + 1, e, t.nanosecond, partOfDateTime);
  }

  lemma FractionBelow(cps: seq<int>, i: nat, e: nat, ns: nat)
    requires FractionSpelled(cps, i, e, ns)
    ensures ns <= 999_999_999
  {
    var d := cps[i..e];
    WithZerosIsScaled(Value(10, d), 9 - |d|);
    ScaledBelow(Value(10, d), Pow(10, 9 - |d|), Pow(10, |d|));
    PowSum(10, |d|, 9 - |d|);
    PowersOfTen();
  }

  /** `parse_time` accepts exactly the texts of times of the day, with up to nine digits of fraction. */
  lemma TimeAcceptedIff(cps: seq<int>, i: nat, t: Time, e: nat, partOfDateTime: bool)
    ensures TimeAt(cps, i, partOfDateTime) == Done(t, e) <==> TimeSpelled(cps, i, t, e, partOfDateTime)
  {
    var c := t.(nanosecond := 0);
    ClockAcceptedIff(cps, i, c, i + 8);
    AfterClockIff(cps, c, i + 8, t, e, partOfDateTime);
    if TimeAt(cps, i, partOfDateTime) == Done(t, e) {
      TimeHasClock(cps, i, t, e, partOfDateTime);
      if IsAt(cps, i + 8, DOT) {
        FractionBelow(cps, i + 9, e, t.nanosecond);
      }
    }
  }

  lemma TimeHasClock(cps: seq<int>, i: nat, t: Time, e: nat, partOfDateTime: bool)
    requires TimeAt(cps, i, partOfDateTime) == Done(t, e)
    ensures ClockAt(cps, i) == Done(t.(nanosecond := 0), i + 8)
  {
  }

  /** `Z`, or a sign and the printed hours and minutes of at most 23:59; zero may be written either way. */
  predicate OffsetSpelled(cps: seq<int>, i: nat, minutes: int, e: nat) {
    || (IsAt(cps, i, 'Z' as int) && minutes == 0 && e == i + 1)
    || (-1439 <= minutes <= 1439 && e == i + 6 && SignedAs(cps, i, minutes)
        && HasAt(cps, i + 1, HoursAndMinutes(if minutes < 0 then -minutes else minutes)))
  }

  predicate SignedAs(cps: seq<int>, i: nat, minutes: int) {
    (IsAt(cps, i, PLUS) && minutes >= 0) || (IsAt(cps, i, MINUS) && minutes <= 0)
  }

  function HoursAndMinutes(m: nat): seq<int> {
    Padded(m / 60, 2) + [COLON] + Padded(m % 60, 2)
  }

  lemma HoursAndMinutesIff(cps: seq<int>, i: nat, h: nat, m: nat, n: nat)
    requires h < 100 && m < 60 && n == h * 60 + m
    ensures HasAt(cps, i, HoursAndMinutes(n)) <==>
            TwoAt(cps, i) == Some(h) && IsAt(cps, i + 2, COLON) && TwoAt(cps, i + 3) == Some(m)
  {
    assert n / 60 == h && n % 60 == m;
    TwoWide(h);
    HasBoth(cps, i, Padded(h, 2) + [COLON], Padded(m, 2));
    HasBoth(cps, i, Padded(h, 2), [COLON]);
    HasOne(cps, i + 2, COLON);
    TwoPrinted(cps, i, h);
    TwoPrinted(cps, i + 3, m);
  }

  lemma SplitSixty(n: nat) returns (h: nat, m: nat)
    requires n <= 1439
    ensures n == h * 60 + m && h <= 23 && m <= 59
  {
    h, m := n / 60, n % 60;
  }

  /** What the parser looks for behind a sign. */
  predicate OffsetDigits(cps: seq<int>, i: nat, n: nat) {
    var h, m := TwoAt(cps, i), TwoAt(cps, i + 3);
    h.Some? && m.Some? && IsAt(cps, i + 2, COLON) && h.value <= 23 && m.value <= 59 && n == h.value * 60 + m.value
  }

  lemma DigitsArePrinted(cps: seq<int>, i: nat, n: nat)
    requires OffsetDigits(cps, i, n)
    ensures n <= 1439 && HasAt(cps, i, HoursAndMinutes(n))
  {
    HoursAndMinutesIff(cps, i, TwoAt(cps, i).value, TwoAt(cps, i + 3).value, n);
  }

  lemma PrintedAreDigits(cps: seq<int>, i: nat, n: nat)
    requires n <= 1439 && HasAt(cps, i, HoursAndMinutes(n))
    ensures OffsetDigits(cps, i, n)
  {
    var h, m := SplitSixty(n);
    HoursAndMinutesIff(cps, i, h, m, n);
  }

  /** Exactly `Z` and signed offsets of less than a day are accepted. */
  lemma OffsetAcceptedIff(cps: seq<int>, i: nat, minutes: int, e: nat)
    ensures OffsetAt(cps, i) == Done(minutes, e) <==> OffsetSpelled(cps, i, minutes, e)
  {
    var n := if minutes < 0 then -minutes else minutes;
    if OffsetDigits(cps, i + 1, n) {
      DigitsArePrinted(cps, i + 1, n);
    } else if n <= 1439 && HasAt(cps, i + 1, HoursAndMinutes(n)) {
      PrintedAreDigits(cps, i + 1, n);
    }
    SignedIff(cps, i, minutes, n, e);
  }

  lemma SignedIff(cps: seq<int>, i: nat, minutes: int, n: nat, e: nat)
    requires n == if minutes < 0 then -minutes else minutes
    ensures OffsetAt(cps, i) == Done(minutes, e) <==>
            || (IsAt(cps, i, 'Z' as int) && minutes == 0 && e == i + 1)
            || (e == i + 6 && SignedAs(cps, i, minutes) && OffsetDigits(cps, i + 1, n))
  {
  }

  /** What the parsers of date, time and offset find at a position. */
  predicate HasPieces(cps: seq<int>, i: nat, x: DateTime, k: nat, e: nat) {
    && DateAt(cps, i, true) == Done(x.date, i + 10) && TimeAt(cps, i + 11, true) == Done(x.time, k)
    && (IsAt(cps, i + 10, 'T' as int) || IsAt(cps, i + 10, ' ' as int)) && EndsAt(cps, e)
    && if x.offset.None? then e == k else !EndsAt(cps, k) && OffsetAt(cps, k) == Done(x.offset.value, e)
  }

  lemma DateTimeFromPieces(cps: seq<int>, i: nat, x: DateTime, k: nat, e: nat)
    requires HasPieces(cps, i, x, k, e)
    ensures DateTimeAt(cps, i) == Done(x, e)
  {
  }

  lemma PiecesOfDateTime(cps: seq<int>, i: nat, x: DateTime, e: nat) returns (k: nat)
    requires DateTimeAt(cps, i) == Done(x, e)
    ensures HasPieces(cps, i, x, k, e)
  {
    k := TimeAt(cps, i + 11, true).next;
  }

  /** A date, `T` or a space, a time that ends at `k`, and an offset unless the value ends there. */
  predicate DateTimeSpelled(cps: seq<int>, i: nat, x: DateTime, k: nat, e: nat) {
    && ValidDate(x.date) && HasAt(cps, i, PrintDate(x.date)) && (IsAt(cps, i + 10, 'T' as int) || IsAt(cps, i + 10, ' ' as int))
    && TimeSpelled(cps, i + 11, x.time, k, true) && EndsAt(cps, e)
    && if x.offset.None? then e == k else !EndsAt(cps, k) && OffsetSpelled(cps, k, x.offset.value, e)
  }

  lemma SpelledIsAccepted(cps: seq<int>, i: nat, x: DateTime, k: nat, e: nat)
    requires DateTimeSpelled(cps, i, x, k, e)
    ensures DateTimeAt(cps, i) == Done(x, e)
  {
    DateAcceptedIff(cps, i, x.date, true);
    TimeAcceptedIff(cps, i + 11, x.time, k, true);
    if x.offset.Some? {
      OffsetAcceptedIff(cps, k, x.offset.value, e);
    }
    DateTimeFromPieces(cps, i, x, k, e);
  }

  lemma AcceptedIsSpelled(cps: seq<int>, i: nat, x: DateTime, e: nat) returns (k: nat)
    requires DateTimeAt(cps, i) == Done(x, e)
    ensures DateTimeSpelled(cps, i, x, k, e)
  {
    k := PiecesOfDateTime(cps, i, x, e);
    DateAcceptedIff(cps, i, x.date, true);
    TimeAcceptedIff(cps, i + 11, x.time, k, true);
    if x.offset.Some? {
      OffsetAcceptedIff(cps, k, x.offset.value, e);
    }
  }

  /** `parse_date_time` accepts exactly the texts of real dates and times with an optional offset. */
  lemma DateTimeAcceptedIff(cps: seq<int>, i: nat, x: DateTime, e: nat)
    ensures DateTimeAt(cps, i) == Done(x, e) <==> exists k: nat :: DateTimeSpelled(cps, i, x, k, e)
  {
    if DateTimeAt(cps, i) == Done(x, e) {
      var k := AcceptedIsSpelled(cps, i, x, e);
    }
    forall k: nat | DateTimeSpelled(cps, i, x, k, e) ensures DateTimeAt(cps, i) == Done(x, e) {
      SpelledIsAccepted(cps, i, x, k, e);
    }
  }

  predicate ValidDateTime(x: DateTime) {
    ValidDate(x.date) && ValidTime(x.time) && ValidOffset(x.offset)
  }

  function OffsetPart(o: Option<int>): seq<int> {
    if o.Some? then PrintOffset(o.value) else []
  }

  lemma DateTimeParts(cps: seq<int>, i: nat, x: DateTime)
    requires ValidDateTime(x) && HasAt(cps, i, PrintDateTime(x))
    ensures HasAt(cps, i, PrintDate(x.date)) && |PrintDate(x.date)| == 10 && IsAt(cps, i + 10, 'T' as int)
    ensures HasAt(cps, i + 11, PrintTime(x.time)) && HasAt(cps, i + 11 + |PrintTime(x.time)|, OffsetPart(x.offset))
    ensures |PrintDateTime(x)| == 11 + |PrintTime(x.time)| + |OffsetPart(x.offset)|
  {
    var d, t, o := PrintDate(x.date), PrintTime(x.time), OffsetPart(x.offset);
    PrintDateLength(x.date);
    HasBoth(cps, i, d + ['T' as int] + t, o);
    HasBoth(cps, i, d + ['T' as int], t);
    HasBoth(cps, i, d, ['T' as int]);
    HasOne(cps, i + 10, 'T' as int);
  }

  lemma PrintDateLength(d: Date)
    requires ValidDate(d)
    ensures |PrintDate(d)| == 10
  {
    PowersOfTen();
    PaddedFits(d.year, 4);
    TwoWide(d.month);
    TwoWide(d.day);
  }

  lemma OffsetEndsNothing(cps: seq<int>, i: nat)
    requires StartsOffset(cps, i)
    ensures !EndsAt(cps, i)
  {
  }

  /** A text at the start of the input, followed by something that ends the value. */
  lemma TextAtStart(s: seq<int>, rest: seq<int>)
    requires EndsValue(rest)
    ensures HasAt(s + rest, 0, s) && EndsAt(s + rest, |s|)
  {
  }

  /** The positions between the pieces of a printed date-time. */
  lemma DateTimePieces(x: DateTime, cps: seq<int>) returns (k: nat, e: nat)
    requires ValidDateTime(x) && HasAt(cps, 0, PrintDateTime(x)) && EndsAt(cps, |PrintDateTime(x)|)
    ensures e == |PrintDateTime(x)|
    ensures DateAt(cps, 0, true) == Done(x.date, 10) && IsAt(cps, 10, 'T' as int)
    ensures HasAt(cps, 11, PrintTime(x.time)) && k == 11 + |PrintTime(x.time)|
    ensures HasAt(cps, k, OffsetPart(x.offset)) && e == k + |OffsetPart(x.offset)|
  {
    DateTimeParts(cps, 0, x);
    DateAcceptedIff(cps, 0, x.date, true);
    k, e := 11 + |PrintTime(x.time)|, |PrintDateTime(x)|;
  }

  lemma OffsetPiece(cps: seq<int>, k: nat, offset: Option<int>, e: nat)
    requires ValidOffset(offset) && HasAt(cps, k, OffsetPart(offset)) && e == k + |OffsetPart(offset)| && EndsAt(cps, e)
    ensures TimeEndsAt(cps, k, true)
    ensures if offset.None? then e == k && EndsAt(cps, k)
            else !EndsAt(cps, k) && OffsetAt(cps, k) == Done(offset.value, e)
  {
    if offset.Some? {
      OffsetParsesBack(cps, k, offset.value);
      OffsetEndsNothing(cps, k);
    }
  }

  lemma DateTimeFromText(x: DateTime, cps: seq<int>)
    requires ValidDateTime(x) && HasAt(cps, 0, PrintDateTime(x)) && EndsAt(cps, |PrintDateTime(x)|)
    ensures DateTimeAt(cps, 0) == Done(x, |PrintDateTime(x)|)
  {
    var k, e := ParsedPieces(x, cps);
    DateTimeFromPieces(cps, 0, x, k, e);
  }

  lemma ParsedPieces(x: DateTime, cps: seq<int>) returns (k: nat, e: nat)
    requires ValidDateTime(x) && HasAt(cps, 0, PrintDateTime(x)) && EndsAt(cps, |PrintDateTime(x)|)
    ensures e == |PrintDateTime(x)| && HasPieces(cps, 0, x, k, e)
  {
    k, e := DateTimePieces(x, cps);
    OffsetPiece(cps, k, x.offset, e);
    TimeParsesBack(cps, 11, x.time, k, true);
  }

  /**
    Printing a date-time and parsing it is the identity, for every valid date,
    time with nanoseconds and offset, and whatever ends the value.
   */
  lemma DateTimeParsesBack(x: DateTime, rest: seq<int>)
    requires ValidDateTime(x) && EndsValue(rest)
    ensures DateTimeAt(PrintDateTime(x) + rest, 0) == Done(x, |PrintDateTime(x)|)
  {
    TextAtStart(PrintDateTime(x), rest);
    DateTimeFromText(x, PrintDateTime(x) + rest);
  }

  // ---------------------------------------------------------------------------
  // The printer and the parser themselves

  /** `print_to_stream` with zeros in front. */
  method PrintPadded(n: nat, width: nat) returns (out: seq<int>)
    ensures out == Padded(n, width)
  {
    var buf := Digits(n);
    out := [];
    var i := |buf|;
    while i < width
      invariant |buf| <= i && out == Zeros(i - |buf|) && (i <= width || i == |buf|)
    {
      ZerosAppend(i - |buf|);
      out := out + [ZERO];
      i := i + 1;
    }
    out := out + buf;
  }

  lemma {:induction false} ZerosAppend(n: nat)
    ensures Zeros(n) + [ZERO] == Zeros(n + 1)
  {
    if n > 0 {
      ZerosAppend(n - 1);
    }
  }

  method PrintTimeText(t: Time) returns (out: seq<int>)
    ensures out == PrintTime(t)
  {
    var h := PrintPadded(t.hour, 2);
    var m := PrintPadded(t.minute, 2);
    var s := PrintPadded(t.second, 2);
    out := h + [COLON] + m + [COLON] + s;
    if 0 < t.nanosecond <= 999_999_999 {
      out := out + [DOT];
      var ns, digits := DropZeros(t.nanosecond);
      var f := PrintPadded(ns, digits);
      out := out + f;
    }
  }

  /** Exactly `len` digits, one by one. */
  method ConsumeDigits(cps: seq<int>, start: nat, len: nat) returns (ok: bool, digits: seq<nat>)
    ensures ok <==> forall k :: start <= k < start + len ==> DigitAt(cps, k).Some?
    ensures ok ==> |digits| == len && forall k :: 0 <= k < len ==> DigitAt(cps, start + k) == Some(digits[k])
  {
    digits := [];
    for i := 0 to len
      invariant |digits| == i && forall k :: start <= k < start + i ==> DigitAt(cps, k) == Some(digits[k - start])
    {
      if start + i >= |cps| || !IsDigit(10, cps[start + i]) {
        assert DigitAt(cps, start + i).None?;
        return false, digits;
      }
      digits := digits + [cps[start + i] - ZERO];
    }
    return true, digits;
  }

  method ConsumeTwo(cps: seq<int>, start: nat) returns (r: Option<nat>)
    ensures r == TwoAt(cps, start)
  {
    var ok, digits := ConsumeDigits(cps, start, 2);
    if ok {
      assert DigitAt(cps, start + 0) == Some(digits[0]) && DigitAt(cps, start + 1) == Some(digits[1]);
    }
    return if ok then Some(digits[1] + digits[0] * 10) else None;
  }

  method ConsumeFour(cps: seq<int>, start: nat) returns (r: Option<nat>)
    ensures r == FourAt(cps, start)
  {
    var ok, digits := ConsumeDigits(cps, start, 4);
    if ok {
      assert DigitAt(cps, start + 0) == Some(digits[0]) && DigitAt(cps, start + 1) == Some(digits[1]);
      assert DigitAt(cps, start + 2) == Some(digits[2]) && DigitAt(cps, start + 3) == Some(digits[3]);
    }
    return if ok then Some(digits[3] + digits[2] * 10 + digits[1] * 100 + digits[0] * 1000) else None;
  }

  method ParseDate(cps: seq<int>, start: nat, partOfDateTime: bool) returns (r: Read<Date>)
    ensures r == DateAt(cps, start, partOfDateTime)
  {
    var year := ConsumeFour(cps, start);
    if year.None? || !IsAt(cps, start + 4, DASH) {
      return Failed;
    }
    var month := ConsumeTwo(cps, start + 5);
    if month.None? || month.value == 0 || month.value > 12 || !IsAt(cps, start + 7, DASH) {
      return Failed;
    }
    var maxDays := DaysInMonth(year.value, month.value);
    var day := ConsumeTwo(cps, start + 8);
    if day.None? || day.value == 0 || day.value > maxDays {
      return Failed;
    }
    if !partOfDateTime && !EndsAt(cps, start + 10) {
      return Failed;
    }
    return Done(Date(year.value, month.value, day.value), start + 10);
  }

  method ConsumeVariable(cps: seq<int>, start: nat, max: nat) returns (digits: seq<int>)
    requires start <= |cps|
    ensures |digits| == DigitRun(cps, start, max) && digits == cps[start..start + |digits|]
  {
    digits := [];
    var i := 0;
    while i < max && start + i < |cps| && IsDigit(10, cps[start + i])
      invariant i <= max && start + i <= |cps| && digits == cps[start..start + i] && AllDigits(10, digits)
    {
      digits := digits + [cps[start + i]];
      i := i + 1;
    }
    RunStopsAt(cps, start, i, max);
  }

  function TenTimes(n: nat): nat {
    n * 10 % UINT32
  }

  /** One turn of the loop: a digit more on the left. */
  method NextPlace(c: int, ghost rest: seq<int>, value: nat, place: nat) returns (v: nat)
    requires IsDigit(10, c) && AllDigits(10, rest) && |rest| < 9 && value == Value(10, rest) && place == Pow(10, |rest|)
    ensures AllDigits(10, [c] + rest) && v == Value(10, [c] + rest)
  {
    PlaceFits(c, rest);
    v := AddAt(value, c - ZERO, place, UINT32);
  }

  /** The sum from the last digit on, in unsigned 32-bit arithmetic. */
  method SumDigits(digits: seq<int>) returns (value: nat)
    requires AllDigits(10, digits) && |digits| <= 9
    ensures value == Value(10, digits)
  {
    value := 0;
    var place := 1;
    var i := |digits|;
    while i > 0
      invariant 0 <= i <= |digits| && value == Value(10, digits[i..]) && place == Pow(10, |digits| - i)
    {
      i := i - 1;
      PlaceBelow(|digits| - i - 1);
      value := NextPlace(digits[i], digits[i + 1..], value, place);
      assert [digits[i]] + digits[i + 1..] == digits[i..];
      place := TenTimes(place);
    }
    assert digits[0..] == digits;
  }

  /** The sum and the padding with implicit zeros. */
  method FractionNumber(digits: seq<int>) returns (value: nat)
    requires AllDigits(10, digits) && 0 < |digits| <= 9
    ensures value == FractionValue(digits)
  {
    value := SumDigits(digits);
    var i := |digits|;
    while i < 9
      invariant |digits| <= i <= 9 && value == WithZeros(Value(10, digits), i - |digits|)
    {
      PaddingFits(digits, i - |digits|);
      value := TenTimes(value);
      i := i + 1;
    }
  }

  lemma ValueBelow(d: seq<int>)
    requires AllDigits(10, d) && |d| <= 9
    ensures Value(10, d) < UINT32
  {
    PowersOfTen();
    PowMonotone(10, |d|, 9);
  }

  lemma PlaceBelow(k: nat)
    requires k < 9
    ensures Pow(10, k + 1) < UINT32 && TenTimes(Pow(10, k)) == Pow(10, k + 1)
  {
    PowersOfTen();
    PowMonotone(10, k + 1, 9);
  }

  lemma PlaceParts(c: int, d: seq<int>) returns (v: nat, x: nat, p: nat, total: nat)
    requires IsDigit(10, c) && AllDigits(10, d) && |d| < 9
    ensures AllDigits(10, [c] + d) && v == Value(10, d) && x == c - ZERO && p == Pow(10, |d|)
    ensures total == Value(10, [c] + d) == x * p + v && total < UINT32
  {
    ValueCons(10, c, d);
    ValueBelow([c] + d);
    v, x, p, total := Value(10, d), c - ZERO, Pow(10, |d|), Value(10, [c] + d);
  }

  /** A digit more on the left stays below 2^32. */
  lemma PlaceFits(c: int, d: seq<int>)
    requires IsDigit(10, c) && AllDigits(10, d) && |d| < 9
    ensures AllDigits(10, [c] + d)
    ensures AddAt(Value(10, d), c - ZERO, Pow(10, |d|), UINT32) == Value(10, [c] + d)
  {
    var v, x, p, total := PlaceParts(c, d);
    AddWithoutWrap(v, x, p, UINT32, total);
  }

  lemma PaddingFits(d: seq<int>, k: nat)
    requires AllDigits(10, d) && |d| + k < 9
    ensures TenTimes(WithZeros(Value(10, d), k)) == WithZeros(Value(10, d), k + 1)
  {
    WithZerosIsScaled(Value(10, d), k);
    TimesTen(Value(10, d), k);
    ScaledBelow(Value(10, d), Pow(10, k + 1), Pow(10, |d|));
    PowSum(10, |d|, k + 1);
    PowMonotone(10, |d| + k + 1, 9);
    PowersOfTen();
  }

  method ParseClock(cps: seq<int>, start: nat) returns (r: Read<Time>)
    ensures r == ClockAt(cps, start)
  {
    var hour := ConsumeTwo(cps, start);
    if hour.None? || hour.value > 23 || !IsAt(cps, start + 2, COLON) {
      return Failed;
    }
    var minute := ConsumeTwo(cps, start + 3);
    if minute.None? || minute.value > 59 || !IsAt(cps, start + 5, COLON) {
      return Failed;
    }
    var second := ConsumeTwo(cps, start + 6);
    if second.None? || second.value > 59 {
      return Failed;
    }
    return Done(Time(hour.value, minute.value, second.value, 0), start + 8);
  }

  /** The end of a fraction: its value with the implicit zeros. */
  method EndFraction(cps: seq<int>, start: nat, digits: seq<int>, partOfDateTime: bool) returns (r: Read<nat>)
    requires start + |digits| <= |cps| && digits == cps[start..start + |digits|] && |digits| <= 9 && AllDigits(10, digits)
    ensures r == FractionOf(cps, start, |digits|, partOfDateTime)
  {
    var e := start + |digits|;
    if |digits| == 0 || (|digits| == 9 && e < |cps| && IsDigit(10, cps[e])) || (!partOfDateTime && !EndsAt(cps, e)) {
      return Failed;
    }
    var value := FractionNumber(digits);
    return Done(value, e);
  }

  method ParseFraction(cps: seq<int>, start: nat, partOfDateTime: bool) returns (r: Read<nat>)
    requires start <= |cps|
    ensures r == FractionAt(cps, start, partOfDateTime)
  {
    if start == |cps| {
      return Failed;
    }
    var digits := ConsumeVariable(cps, start, 9);
    r := EndFraction(cps, start, digits, partOfDateTime);
  }

  method ParseAfterClock(cps: seq<int>, clock: Time, i: nat, partOfDateTime: bool) returns (r: Read<Time>)
    ensures r == AfterClock(cps, clock, i, partOfDateTime)
  {
    if EndsAt(cps, i) || (partOfDateTime && StartsOffset(cps, i)) {
      return Done(clock, i);
    }
    if !IsAt(cps, i, DOT) {
      return Failed;
    }
    var fraction := ParseFraction(cps, i + 1, partOfDateTime);
    if fraction.Failed? {
      return Failed;
    }
    return Done(clock.(nanosecond := fraction.value), fraction.next);
  }

  method ParseTime(cps: seq<int>, start: nat, partOfDateTime: bool) returns (r: Read<Time>)
    ensures r == TimeAt(cps, start, partOfDateTime)
  {
    var clock := ParseClock(cps, start);
    if clock.Failed? {
      return Failed;
    }
    r := ParseAfterClock(cps, clock.value, clock.next, partOfDateTime);
  }

  method ParseOffset(cps: seq<int>, start: nat) returns (r: Read<int>)
    ensures r == OffsetAt(cps, start)
  {
    if IsAt(cps, start, 'Z' as int) {
      return Done(0, start + 1);
    }
    if !IsAt(cps, start, PLUS) && !IsAt(cps, start, MINUS) {
      return Failed;
    }
    var sign: int := if cps[start] == MINUS then -1 else 1;
    var hour := ConsumeTwo(cps, start + 1);
    if hour.None? || hour.value > 23 || !IsAt(cps, start + 3, COLON) {
      return Failed;
    }
    var minute := ConsumeTwo(cps, start + 4);
    if minute.None? || minute.value > 59 {
      return Failed;
    }
    return Done((hour.value * 60 + minute.value) * sign, start + 6);
  }

  method ParseDateTime(cps: seq<int>, start: nat) returns (r: Read<DateTime>)
    ensures r == DateTimeAt(cps, start)
  {
    var date := ParseDate(cps, start, true);
    if date.Failed? || (!IsAt(cps, date.next, ' ' as int) && !IsAt(cps, date.next, 'T' as int)) {
      return Failed;
    }
    var time := ParseTime(cps, date.next + 1, true);
    if time.Failed? {
      return Failed;
    }
    if EndsAt(cps, time.next) {
      return Done(DateTime(date.value, time.value, None), time.next);
    }
    var offset := ParseOffset(cps, time.next);
    if offset.Failed? || !EndsAt(cps, offset.next) {
      return Failed;
    }
    return Done(DateTime(date.value, time.value, Some(offset.value)), offset.next);
  }
}
