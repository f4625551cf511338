/**
  How the parser tells integers from other values: it scans ahead, collects traits of the
  text, goes back, and reads single digits itself or hands over to the integer parser.
 */
module NumberValue {
  import opened Basics
  import BufferedReader
  import opened Integer

  datatype Trait =
    | HasDigits | HasB | HasE | HasO | HasP | HasT | HasX | HasZ
    | HasColon | HasPlus | HasMinus | HasDot | BeginsSign | BeginsDigit | BeginsZero

  /** What the scan has seen: the traits and the characters other than underscores. */
  datatype Scanned = Scanned(traits: set<Trait>, chars: seq<int>)

  /** The scan looks at no more characters than this. */
  const SCAN: nat := BufferedReader.SCAN

  predicate IsLetter(c: int, lower: char) {
    c == lower as int || c + 32 == lower as int
  }

  /** The trait of the first character; values without one begin otherwise than numbers. */
  function Begins(c: int): set<Trait> {
    if c == ZERO then {BeginsZero}
    else if IsDigit(10, c) then {BeginsDigit}
    else if c == PLUS || c == MINUS then {BeginsSign}
    else {}
  }

  /** The trait that character `c` adds, as the last of `chars`. */
  function Added(traits: set<Trait>, chars: seq<int>, c: int): set<Trait> {
    if IsDigit(10, c) then {HasDigits}
    else if IsLetter(c, 'b') then if |chars| == 2 && BeginsZero in traits then {HasB} else {}
    else if IsLetter(c, 'e') then
      if |chars| > 1 && traits !! {HasB, HasO, HasP, HasT, HasX, HasZ, HasColon}
         && (traits !! {HasPlus, HasMinus} || BeginsSign in traits)
      then {HasE} else {}
    else if IsLetter(c, 'o') then if |chars| == 2 && BeginsZero in traits then {HasO} else {}
    else if IsLetter(c, 'p') then if HasX in traits then {HasP} else {}
    else if IsLetter(c, 'x') then
      if (|chars| == 2 && BeginsZero in traits) || (|chars| == 3 && BeginsSign in traits && chars[1] == ZERO)
      then {HasX} else {}
    else if IsLetter(c, 't') then {HasT}
    else if IsLetter(c, 'z') then {HasZ}
    else if c == PLUS then {HasPlus}
    else if c == MINUS then {HasMinus}
    else if c == '.' as int then {HasDot}
    else if c == ':' as int then {HasColon}
    else {}
  }

  function Add(s: Scanned, c: int): Scanned {
    if c == UNDERSCORE then s else Scanned(s.traits + Added(s.traits, s.chars + [c], c), s.chars + [c])
  }

  function ScanAll(s: Scanned, token: seq<int>): Scanned {
    if token == [] then s else Add(ScanAll(s, token[..|token| - 1]), token[|token| - 1])
  }

  /** How far the scan goes: to the end of the value or to its limit. */
  function ScanLength(cps: seq<int>, i: nat): nat
    requires i <= |cps|
  {
    var n := End(cps, i) - i;
    if n < SCAN then n else SCAN
  }

  function ScanAt(cps: seq<int>, i: nat): Scanned
    requires i < |cps|
  {
    ScanAll(Scanned(Begins(cps[i]), []), cps[i..i + ScanLength(cps, i)])
  }

  /** Who reads the value. */
  datatype Route = LoneDigit | SignedDigit | Whole(base: nat) | Other

  function RouteOf(s: Scanned): (r: Route)
    ensures r.LoneDigit? ==> |s.chars| == 1
    ensures r.SignedDigit? ==> |s.chars| == 2
    ensures r.Whole? ==> IsBase(r.base)
  {
    var t, n := s.traits, |s.chars|;
    if n == 0 then Other
    else if n == 1 then if BeginsZero in t || BeginsDigit in t then LoneDigit else Other
    else if HasP in t then Other
    else if HasX in t then Whole(16)
    else if HasO in t then Whole(8)
    else if HasB in t then Whole(2)
    else if HasE in t || ((BeginsZero in t || BeginsDigit in t) && s.chars[1] == '.' as int) then Other
    else if BeginsSign in t && n == 2 && HasDigits in t then SignedDigit
    else if BeginsSign in t && IsDigit(10, s.chars[1]) && n > 2 && s.chars[2] == '.' as int then Other
    else if BeginsSign in t && (IsLetter(s.chars[1], 'i') || IsLetter(s.chars[1], 'n')) then Other
    else if t in {{BeginsZero, HasDigits}, {BeginsDigit, HasDigits},
                  {BeginsSign, HasDigits, HasMinus}, {BeginsSign, HasDigits, HasPlus}} then Whole(10)
    else Other
  }

  /**
    What the typed parser sees after the reader has gone back `n` characters: one step more
    than the history holds shows the last character scanned in place of the first.
   */
  function Reread(cps: seq<int>, i: nat, n: nat): (r: seq<int>)
    requires i + n <= |cps| && n <= SCAN
    ensures |r| == |cps|
  {
    if n < SCAN then cps else cps[i := cps[i + n - 1]]
  }

  /** That is what the look-back ring shows, character by character. */
  lemma RereadIsShown(reader: BufferedReader.Reader<int>, i: nat, n: nat, j: nat)
    requires reader.Valid() && j < n <= SCAN && reader.position.head == i + n
    ensures BufferedReader.SteppedBack(reader, n - j) == Some(Reread(reader.stream, i, n)[i + j])
  {
    if n - j < SCAN {
      BufferedReader.StepBackShowsTheCursorIff(reader, n - j);
    } else {
      assert (i + n - SCAN) % BufferedReader.HISTORY == (i + n - 1) % BufferedReader.HISTORY;
    }
  }

  /** The integer at a position, or nothing when the value is of another kind. */
  function NumberAt(cps: seq<int>, i: nat): Option<Parsed>
    requires i < |cps|
  {
    if Begins(cps[i]) == {} then None
    else
      var s := ScanAt(cps, i);
      match RouteOf(s)
      case LoneDigit => Some(Ok(s.chars[0] - ZERO, i + 1))
      case SignedDigit => Some(Ok((s.chars[1] - ZERO) * (if s.chars[0] == MINUS then -1 else 1), i + 2))
      case Whole(base) => Some(IntegerAt(base, Reread(cps, i, ScanLength(cps, i)), i))
      case Other => None
  }

  // ---------------------------------------------------------------------------
  // The scan as a loop

  method Scan(cps: seq<int>, start: nat) returns (s: Scanned, n: nat)
    requires start < |cps| && Begins(cps[start]) != {}
    ensures s == ScanAt(cps, start) && n == ScanLength(cps, start)
  {
    s, n := Add(Scanned(Begins(cps[start]), []), cps[start]), 1;
    assert End(cps, start) >= start + 1;
    assert cps[start..start + 1][..0] == [];
    while n < SCAN && start + n < |cps| && !IsValueTerminator(cps[start + n])
      invariant 1 <= n <= SCAN && start + n <= End(cps, start)
      invariant s == ScanAll(Scanned(Begins(cps[start]), []), cps[start..start + n])
    {
      assert cps[start..start + n + 1][..n] == cps[start..start + n];
      s := Add(s, cps[start + n]);
      n := n + 1;
    }
  }

  method ParseNumber(cps: seq<int>, start: nat) returns (r: Option<Parsed>)
    requires start < |cps|
    ensures r == NumberAt(cps, start)
  {
    if Begins(cps[start]) == {} {
      return None;
    }
    var s, n := Scan(cps, start);
    match RouteOf(s) {
      case LoneDigit =>
        return Some(Ok(s.chars[0] - ZERO, start + 1));
      case SignedDigit =>
        return Some(Ok((s.chars[1] - ZERO) * (if s.chars[0] == MINUS then -1 else 1), start + 2));
      case Whole(base) =>
        var parsed := ParseInteger(base, Reread(cps, start, n), start);
        return Some(parsed);
      case Other =>
        return None;
    }
  }

  // ---------------------------------------------------------------------------
  // Scanning a number

  lemma {:induction false} ScanConcat(s: Scanned, a: seq<int>, b: seq<int>)
    ensures ScanAll(s, a + b) == ScanAll(ScanAll(s, a), b)
    decreases b
  {
    if b == [] {
      assert a + b == a;
    } else {
      ScanConcat(s, a, b[..|b| - 1]);
      assert (a + b)[..|a + b| - 1] == a + b[..|b| - 1];
    }
  }

  predicate DigitsAndUnderscores(base: nat, t: seq<int>) {
    forall k :: 0 <= k < |t| ==> IsDigit(base, t[k]) || t[k] == UNDERSCORE
  }

  lemma {:induction false} ScanDecimal(s: Scanned, t: seq<int>)
    requires DigitsAndUnderscores(10, t)
    ensures ScanAll(s, t) == Scanned(s.traits + (if Strip(t) == [] then {} else {HasDigits}), s.chars + Strip(t))
  {
    if t != [] {
      ScanDecimal(s, t[..|t| - 1]);
    }
  }

  /** Behind a prefix, digits of the base add nothing. */
  lemma {:induction false} ScanPrefixed(s: Scanned, base: nat, t: seq<int>)
    requires base == 2 || base == 8 || base == 16
    requires DigitsAndUnderscores(base, t) && |s.chars| >= 2 && HasDigits in s.traits && (base == 16 ==> HasX in s.traits)
    ensures ScanAll(s, t) == Scanned(s.traits, s.chars + Strip(t))
  {
    if t != [] {
      ScanPrefixed(s, base, t[..|t| - 1]);
      var u, c := ScanAll(s, t[..|t| - 1]), t[|t| - 1];
      if c != UNDERSCORE {
        assert Added(u.traits, u.chars + [c], c) <= u.traits;
        assert u.traits + Added(u.traits, u.chars + [c], c) == u.traits;
      }
    }
  }

  lemma TokenScanned(token: seq<int>, rest: seq<int>)
    requires EndsValue(rest) && token != [] && forall k :: 0 <= k < |token| ==> !IsValueTerminator(token[k])
    ensures var cps := token + rest;
      var n := if |token| < SCAN then |token| else SCAN;
      && End(cps, 0) == |token| && ScanLength(cps, 0) == n && cps[0] == token[0]
      && ScanAt(cps, 0) == ScanAll(Scanned(Begins(token[0]), []), token[..n])
  {
    var cps := token + rest;
    EndOfValue([], token, rest);
    assert [] + token + rest == cps;
    var n := ScanLength(cps, 0);
    assert cps[0..0 + n] == token[..n];
  }

  lemma SeparatedCharacters(base: nat, t: seq<int>)
    requires IsBase(base) && Separated(base, t)
    ensures DigitsAndUnderscores(base, t) && (t != [] ==> IsDigit(base, t[0]))
  {
    forall k | 0 <= k < |t| ensures IsDigit(base, t[k]) || t[k] == UNDERSCORE {
      assert InPlace(base, t, k);
    }
    if t != [] { FirstIsDigit(base, t); }
  }

  /** At least every other character is a digit. */
  lemma {:induction false} HalfAreDigits(base: nat, t: seq<int>, k: nat)
    requires IsBase(base) && Separated(base, t) && k <= |t|
    ensures 2 * |Strip(t[..k])| >= k
    decreases k
  {
    if k > 0 {
      StripNext(t, k - 1);
      assert InPlace(base, t, k - 1);
      if t[k - 1] == UNDERSCORE {
        assert IsDigit(base, t[k - 2]);
        StripNext(t, k - 2);
        HalfAreDigits(base, t, k - 2);
      } else {
        HalfAreDigits(base, t, k - 1);
      }
    }
  }

  // ---------------------------------------------------------------------------
  // Decimal numbers

  function Signed(s: seq<int>, v: int): int {
    if s == [MINUS] then -v else v
  }

  lemma SignTimes(s: seq<int>, v: int)
    ensures SignOf(s) * v == Signed(s, v)
  {
  }

  /** The traits of a sign and digits, of which `c` is the first. */
  function DecimalTraits(s: seq<int>, c: int): set<Trait> {
    if s == [PLUS] then {BeginsSign, HasPlus, HasDigits}
    else if s == [MINUS] then {BeginsSign, HasMinus, HasDigits}
    else if c == ZERO then {BeginsZero, HasDigits}
    else {BeginsDigit, HasDigits}
  }

  lemma SignedRoute(s: seq<int>, d: seq<int>)
    requires (s == [PLUS] || s == [MINUS]) && AllDigits(10, d) && d != []
    ensures RouteOf(Scanned(DecimalTraits(s, d[0]), s + d)) == if |d| >= 2 then Whole(10) else SignedDigit
  {
    var chars := s + d;
    assert chars[1] == d[0] && (|d| >= 2 ==> chars[2] == d[1]);
    assert {BeginsSign, HasPlus, HasDigits} == {BeginsSign, HasDigits, HasPlus};
    assert {BeginsSign, HasMinus, HasDigits} == {BeginsSign, HasDigits, HasMinus};
  }

  lemma UnsignedRoute(d: seq<int>)
    requires AllDigits(10, d) && d != []
    ensures RouteOf(Scanned(DecimalTraits([], d[0]), d)) == if |d| >= 2 then Whole(10) else LoneDigit
  {
  }

  /** The scan of a sign and digits. */
  lemma DecimalScanned(s: seq<int>, u: seq<int>)
    requires IsSign(s) && DigitsAndUnderscores(10, u) && u != [] && IsDigit(10, u[0]) && Strip(u) != []
    ensures ScanAll(Scanned(Begins((s + u)[0]), []), s + u) == Scanned(DecimalTraits(s, u[0]), s + Strip(u))
  {
    var start := Scanned(Begins((s + u)[0]), []);
    assert (s + u)[0] == (s + [u[0]])[0];
    ScanConcat(start, s, u);
    SignScanned(s, u[0]);
    ScanDecimal(ScanAll(start, s), u);
  }

  lemma SignScanned(s: seq<int>, c: int)
    requires IsSign(s) && IsDigit(10, c)
    ensures var token := s + [c];
      ScanAll(Scanned(Begins(token[0]), []), s) ==
      Scanned(if s == [PLUS] then {BeginsSign, HasPlus} else if s == [MINUS] then {BeginsSign, HasMinus} else Begins(c), s)
  {
    if s != [] {
      assert s[..0] == [];
      assert {BeginsSign} + {HasPlus} == {BeginsSign, HasPlus} && {BeginsSign} + {HasMinus} == {BeginsSign, HasMinus};
    }
  }

  lemma StrippedAreDigits(base: nat, u: seq<int>)
    requires DigitsAndUnderscores(base, u)
    ensures AllDigits(base, Strip(u))
  {
    forall i | 0 <= i < |Strip(u)| ensures IsDigit(base, Strip(u)[i]) {
      var k :| 0 <= k < |u| && u[k] == Strip(u)[i];
    }
  }

  lemma DecimalRoute(s: seq<int>, u: seq<int>)
    requires IsSign(s) && DigitsAndUnderscores(10, u) && u != [] && IsDigit(10, u[0])
    ensures var r := ScanAll(Scanned(Begins((s + u)[0]), []), s + u);
      && r.chars == s + Strip(u)
      && RouteOf(r) == if |Strip(u)| >= 2 then Whole(10) else if s == [] then LoneDigit else SignedDigit
  {
    FirstDigitStays(u);
    StrippedAreDigits(10, u);
    DecimalScanned(s, u);
    if s == [] {
      assert s + Strip(u) == Strip(u);
      UnsignedRoute(Strip(u));
    } else {
      SignedRoute(s, Strip(u));
    }
  }

  /** What of the digits the scan has seen: all of them, or at least two. */
  lemma ScannedDigits(s: seq<int>, t: seq<int>) returns (u: seq<int>)
    requires IsSign(s) && Separated(10, t) && t != []
    ensures var n := if |s + t| < SCAN then |s + t| else SCAN;
      && (s + t)[..n] == s + u && u != [] && u[0] == t[0] && DigitsAndUnderscores(10, u) && IsDigit(10, u[0])
      && (if |s + t| < SCAN then u == t else |Strip(u)| >= 2)
  {
    SeparatedCharacters(10, t);
    var n := if |s + t| < SCAN then |s + t| else SCAN;
    u := t[..n - |s|];
    assert (s + t)[..n] == s + u;
    HalfAreDigits(10, t, n - |s|);
  }

  lemma DecimalCharacters(s: seq<int>, t: seq<int>)
    requires IsSign(s) && Separated(10, t)
    ensures forall k :: 0 <= k < |s + t| ==> !IsValueTerminator((s + t)[k])
  {
    TokenIsNoTerminator(10, t);
  }

  lemma DecimalScanAt(s: seq<int>, t: seq<int>, rest: seq<int>) returns (u: seq<int>)
    requires IsSign(s) && Separated(10, t) && t != [] && EndsValue(rest)
    ensures u != [] && DigitsAndUnderscores(10, u) && IsDigit(10, u[0]) && (u == t || |Strip(u)| >= 2)
    ensures ScanAt(s + t + rest, 0) == ScanAll(Scanned(Begins((s + u)[0]), []), s + u)
    ensures Begins((s + t + rest)[0]) != {} && (|s + t| < SCAN ==> u == t)
    ensures ScanLength(s + t + rest, 0) == if |s + t| < SCAN then |s + t| else SCAN
  {
    u := ScannedDigits(s, t);
    DecimalCharacters(s, t);
    TokenScanned(s + t, rest);
    assert (s + t)[0] == (s + u)[0];
    assert (s + u)[0] == if s == [] then u[0] else s[0];
  }

  lemma OneDigitScan(s: seq<int>, t: seq<int>, rest: seq<int>)
    requires IsSign(s) && |t| == 1 && IsDigit(10, t[0]) && EndsValue(rest)
    ensures var cps := s + t + rest;
      && Begins(cps[0]) != {} && ScanAt(cps, 0).chars == s + t
      && RouteOf(ScanAt(cps, 0)) == if s == [] then LoneDigit else SignedDigit
  {
    assert Separated(10, t) by { assert InPlace(10, t, 0); }
    var u := DecimalScanAt(s, t, rest);
    OneKept(t);
    DecimalRoute(s, u);
  }

  lemma OneKept(t: seq<int>)
    requires |t| == 1 && t[0] != UNDERSCORE
    ensures Strip(t) == t
  {
    assert t[..0] == [];
  }

  lemma WholeScan(s: seq<int>, t: seq<int>, rest: seq<int>)
    requires IsSign(s) && Separated(10, t) && |Strip(t)| >= 2 && EndsValue(rest)
    ensures var cps := s + t + rest;
      var n := if |s + t| < SCAN then |s + t| else SCAN;
      NumberAt(cps, 0) == Some(IntegerAt(10, Reread(cps, 0, n), 0))
  {
    var u := DecimalScanAt(s, t, rest);
    DecimalRoute(s, u);
  }

  lemma LongTokenIsRefused(token: seq<int>, rest: seq<int>)
    requires EndsValue(rest) && |token| >= SCAN && forall k :: 0 <= k < |token| ==> !IsValueTerminator(token[k])
    requires token[0] != PLUS && token[0] != MINUS
    ensures IntegerAt(10, token + rest, 0) == Error
  {
    var cps := token + rest;
    assert cps == [] + token + rest;
    EndOfValue([], token, rest);
    assert cps[0..|token|] == token;
    if Separated(10, token) {
      HalfAreDigits(10, token, |token|);
      assert token[..|token|] == token;
    }
  }

  /** Going back one step too far does not matter to decimals: they are too long by then. */
  lemma LongDecimalIsRefused(s: seq<int>, t: seq<int>, rest: seq<int>)
    requires IsSign(s) && Separated(10, t) && EndsValue(rest) && |s + t| >= SCAN
    ensures IntegerAt(10, Reread(s + t + rest, 0, SCAN), 0) == Error
  {
    DecimalCharacters(s, t);
    SeparatedCharacters(10, t);
    var c := (s + t)[SCAN - 1];
    assert c == t[SCAN - 1 - |s|];
    var token := (s + t)[0 := c];
    assert Reread(s + t + rest, 0, SCAN) == token + rest;
    LongTokenIsRefused(token, rest);
  }

  lemma LongDecimalIsOutOfRange(s: seq<int>, t: seq<int>)
    requires IsSign(s) && Separated(10, t) && |s + t| >= SCAN && AllDigits(10, Strip(t)) && Strip(t) != [] && Strip(t)[0] != ZERO
    ensures !IsInt64(Signed(s, Value(10, Strip(t))))
  {
    HalfAreDigits(10, t, |t|);
    assert t[..|t|] == t;
    LongDecimalsAreTooLarge(Strip(t));
  }

  lemma OneDigitValue(s: seq<int>, c: int, rest: seq<int>)
    requires IsSign(s) && IsDigit(10, c) && EndsValue(rest)
    ensures NumberAt(s + [c] + rest, 0) == Some(Ok(Signed(s, c - ZERO), |s| + 1))
  {
    OneDigitScan(s, [c], rest);
    OneDigitRead(s + [c] + rest, s, c);
  }

  lemma OneDigitRead(cps: seq<int>, s: seq<int>, c: int)
    requires IsSign(s) && cps != [] && Begins(cps[0]) != {} && ScanAt(cps, 0).chars == s + [c]
    requires RouteOf(ScanAt(cps, 0)) == if s == [] then LoneDigit else SignedDigit
    ensures NumberAt(cps, 0) == Some(Ok(Signed(s, c - ZERO), |s| + 1))
  {
    assert s != [] ==> (s + [c])[0] == s[0] && (s + [c])[1] == c;
  }

  lemma WholeValue(s: seq<int>, t: seq<int>, rest: seq<int>)
    requires IsSign(s) && EndsValue(rest) && Separated(10, t) && AllDigits(10, Strip(t))
    requires |Strip(t)| >= 2 && Strip(t)[0] != ZERO
    ensures var n := Signed(s, Value(10, Strip(t)));
      NumberAt(s + t + rest, 0) == Some(if IsInt64(n) then Ok(n, |s| + |t|) else Error)
  {
    WholeScan(s, t, rest);
    if |s + t| < SCAN {
      DecimalsAreInt64(s, t, rest);
      SignTimes(s, Value(10, Strip(t)));
    } else {
      LongDecimalIsRefused(s, t, rest);
      LongDecimalIsOutOfRange(s, t);
    }
  }

  lemma LeadingZeroIsRefused(s: seq<int>, t: seq<int>, rest: seq<int>)
    requires IsSign(s) && EndsValue(rest) && Separated(10, t) && AllDigits(10, Strip(t))
    requires |Strip(t)| >= 2 && Strip(t)[0] == ZERO
    ensures NumberAt(s + t + rest, 0) == Some(Error)
  {
    WholeScan(s, t, rest);
    if |s + t| < SCAN {
      DecimalText(s, t, rest);
    } else {
      LongDecimalIsRefused(s, t, rest);
    }
  }

  lemma TwoKept(t: seq<int>)
    requires Separated(10, t) && |t| >= 2
    ensures |Strip(t)| >= 2
  {
    HalfAreDigits(10, t, |t|);
    assert t[..|t|] == t;
    if |t| == 2 {
      assert InPlace(10, t, 1) && InPlace(10, t, 0);
      HalfAreDigits(10, t, 1);
      StripNext(t, 1);
    }
  }

  /** What the digits of a decimal of some length stand for: nothing with a superfluous zero or outside the 64-bit range. */
  function Judged(s: seq<int>, length: nat, d: seq<int>): Parsed
    requires AllDigits(10, d) && d != []
  {
    var n := Signed(s, Value(10, d));
    if (length > 1 && d[0] == ZERO) || !IsInt64(n) then Error else Ok(n, |s| + length)
  }

  /** What a decimal should be read as. */
  function DecimalValue(s: seq<int>, t: seq<int>): Parsed
    requires Separated(10, t) && t != []
  {
    StripDigits(10, t);
    FirstIsDigit(10, t);
    FirstDigitStays(t);
    Judged(s, |t|, Strip(t))
  }

  lemma OneDigitJudged(s: seq<int>, c: int)
    requires IsSign(s) && IsDigit(10, c)
    ensures Judged(s, 1, [c]) == Ok(Signed(s, c - ZERO), |s| + 1)
  {
    SingleDigit(10, [c]);
  }

  lemma OneDigitExpected(s: seq<int>, t: seq<int>) returns (expected: Parsed)
    requires IsSign(s) && Separated(10, t) && |t| == 1
    ensures IsDigit(10, t[0]) && expected == DecimalValue(s, t) == Ok(Signed(s, t[0] - ZERO), |s| + 1)
  {
    expected := DecimalValue(s, t);
    FirstIsDigit(10, t);
    OneKept(t);
    assert t == [t[0]];
    OneDigitJudged(s, t[0]);
  }

  lemma OneDigitCase(s: seq<int>, t: seq<int>, rest: seq<int>, cps: seq<int>)
    requires IsSign(s) && EndsValue(rest) && Separated(10, t) && |t| == 1 && cps == s + t + rest
    ensures NumberAt(cps, 0) == Some(DecimalValue(s, t))
  {
    var expected := OneDigitExpected(s, t);
    assert t == [t[0]];
    OneDigitGiven(s, t[0], rest, expected);
  }

  lemma OneDigitGiven(s: seq<int>, c: int, rest: seq<int>, expected: Parsed)
    requires IsSign(s) && EndsValue(rest) && IsDigit(10, c) && expected == Ok(Signed(s, c - ZERO), |s| + 1)
    ensures NumberAt(s + [c] + rest, 0) == Some(expected)
  {
    OneDigitValue(s, c, rest);
  }

  lemma ZeroCase(s: seq<int>, t: seq<int>, rest: seq<int>)
    requires IsSign(s) && EndsValue(rest) && Separated(10, t) && |t| > 1 && |Strip(t)| >= 2 && Strip(t)[0] == ZERO
    ensures NumberAt(s + t + rest, 0) == Some(DecimalValue(s, t))
  {
    StripDigits(10, t);
    LeadingZeroIsRefused(s, t, rest);
  }

  lemma WholeCase(s: seq<int>, t: seq<int>, rest: seq<int>)
    requires IsSign(s) && EndsValue(rest) && Separated(10, t) && |t| > 1 && |Strip(t)| >= 2 && Strip(t)[0] != ZERO
    ensures NumberAt(s + t + rest, 0) == Some(DecimalValue(s, t))
  {
    StripDigits(10, t);
    WholeValue(s, t, rest);
  }

  /**
    Every decimal, of any length and with any underscores, is read as its value.  It is refused
    exactly when it has a superfluous zero or its value is no signed 64-bit number.
   */
  lemma DecimalValues(s: seq<int>, t: seq<int>, rest: seq<int>)
    requires IsSign(s) && EndsValue(rest) && Separated(10, t) && t != []
    ensures NumberAt(s + t + rest, 0) == Some(DecimalValue(s, t))
  {
    if |t| == 1 {
      OneDigitCase(s, t, rest, s + t + rest);
    } else {
      TwoKept(t);
      if Strip(t)[0] == ZERO {
        ZeroCase(s, t, rest);
      } else {
        WholeCase(s, t, rest);
      }
    }
  }

  /** Every signed 64-bit number is parsed back from its printed form. */
  lemma PrintedNumberParsesBack(n: int, rest: seq<int>)
    requires IsInt64(n) && EndsValue(rest)
    ensures Print(n) + rest != [] && NumberAt(Print(n) + rest, 0) == Some(Ok(n, |Print(n)|))
  {
    var s, d := PrintedParts(n, rest);
    DigitsAreAToken(d);
    SignTimes(s, Value(10, d));
    DecimalValues(s, d, rest);
  }

  // ---------------------------------------------------------------------------
  // Numbers with a prefix

  function PrefixTrait(base: nat): Trait {
    match base
    case 2 => HasB
    case 8 => HasO
    case _ => HasX
  }

  lemma PrefixScanned(base: nat)
    requires base == 2 || base == 8 || base == 16
    ensures ScanAll(Scanned({BeginsZero}, []), [ZERO, Prefix(base)]) ==
      Scanned({BeginsZero, HasDigits, PrefixTrait(base)}, [ZERO, Prefix(base)])
  {
    var a := [ZERO, Prefix(base)];
    assert a[..1] == [ZERO] && [ZERO][..0] == [];
    assert {BeginsZero} + {HasDigits} == {BeginsZero, HasDigits};
    assert ScanAll(Scanned({BeginsZero}, []), [ZERO]) == Scanned({BeginsZero, HasDigits}, [ZERO]);
    assert [ZERO] + [Prefix(base)] == a;
    assert {BeginsZero, HasDigits} + {PrefixTrait(base)} == {BeginsZero, HasDigits, PrefixTrait(base)};
  }

  lemma PrefixedTraits(base: nat, t: seq<int>, rest: seq<int>) returns (chars: seq<int>)
    requires base == 2 || base == 8 || base == 16
    requires Separated(base, t) && EndsValue(rest)
    ensures var cps := [ZERO, Prefix(base)] + t + rest;
      && ScanLength(cps, 0) == (if |t| + 2 < SCAN then |t| + 2 else SCAN)
      && ScanAt(cps, 0) == Scanned({BeginsZero, HasDigits, PrefixTrait(base)}, chars) && |chars| >= 2
  {
    var a := [ZERO, Prefix(base)];
    TokenIsNoTerminator(base, t);
    SeparatedCharacters(base, t);
    TokenScanned(a + t, rest);
    var n := if |t| + 2 < SCAN then |t| + 2 else SCAN;
    var u := t[..n - 2];
    assert (a + t)[..n] == a + u;
    ScanConcat(Scanned({BeginsZero}, []), a, u);
    PrefixScanned(base);
    ScanPrefixed(Scanned({BeginsZero, HasDigits, PrefixTrait(base)}, a), base, u);
    chars := a + Strip(u);
  }

  lemma PrefixedScan(base: nat, t: seq<int>, rest: seq<int>)
    requires base == 2 || base == 8 || base == 16
    requires Separated(base, t) && EndsValue(rest)
    ensures var cps := [ZERO, Prefix(base)] + t + rest;
      var n := if |t| + 2 < SCAN then |t| + 2 else SCAN;
      NumberAt(cps, 0) == Some(IntegerAt(base, Reread(cps, 0, n), 0))
  {
    var chars := PrefixedTraits(base, t, rest);
    assert RouteOf(Scanned({BeginsZero, HasDigits, PrefixTrait(base)}, chars)) == Whole(base);
  }

  /** What a number with a prefix should be read as: a prefix at the very end is an error. */
  function PrefixedValue(base: nat, t: seq<int>, rest: seq<int>): Parsed
    requires IsBase(base) && Separated(base, t)
  {
    StripDigits(base, t);
    if t + rest == [] || |Strip(t)| > BufferLength(base) || (base == 16 && Value(16, Strip(t)) > INT64_MAX) then Error
    else Ok(Value(base, Strip(t)), 2 + |t|)
  }

  lemma PrefixedIntegers(base: nat, t: seq<int>, rest: seq<int>)
    requires base == 2 || base == 8 || base == 16
    requires Separated(base, t) && EndsValue(rest)
    ensures IntegerAt(base, [ZERO, Prefix(base)] + t + rest, 0) == PrefixedValue(base, t, rest)
  {
    StripDigits(base, t);
    if t + rest != [] {
      if |Strip(t)| <= BufferLength(base) {
        PrefixedNumbers(base, t, rest);
      } else {
        var a := [ZERO, Prefix(base)];
        TokenBetween(base, a, t, rest);
        PrefixedStart(base, a + t + rest);
      }
    }
  }

  /**
    A number with a prefix is read as its value exactly when the scan did not go back too far
    or happened to find a zero there, or when it is an error anyway.
   */
  lemma PrefixedValuesIff(base: nat, t: seq<int>, rest: seq<int>)
    requires base == 2 || base == 8 || base == 16
    requires Separated(base, t) && EndsValue(rest)
    ensures NumberAt([ZERO, Prefix(base)] + t + rest, 0) == Some(PrefixedValue(base, t, rest)) <==>
      |t| + 2 < SCAN || t[SCAN - 3] == ZERO || PrefixedValue(base, t, rest) == Error
    ensures NumberAt([ZERO, Prefix(base)] + t + rest, 0) in {Some(PrefixedValue(base, t, rest)), Some(Error)}
  {
    var cps := [ZERO, Prefix(base)] + t + rest;
    PrefixedScan(base, t, rest);
    PrefixedIntegers(base, t, rest);
    if |t| + 2 >= SCAN {
      var r := Reread(cps, 0, SCAN);
      assert cps[SCAN - 1] == t[SCAN - 3];
      if t[SCAN - 3] == ZERO {
        assert r == cps;
      } else {
        assert r[0] != ZERO;
      }
    }
  }

  /** A hexadecimal prefix and the end of its line: read as zero. */
  lemma BarePrefixIsZero()
    ensures NumberAt([ZERO, Prefix(16)] + [] + [0x0A], 0) == Some(Ok(0, 2))
  {
    PrefixedValuesIff(16, [], [0x0A]);
  }

  /** A prefix without digits is read as zero exactly when something follows it. */
  lemma BarePrefixIff(base: nat, rest: seq<int>)
    requires base == 2 || base == 8 || base == 16
    requires EndsValue(rest)
    ensures NumberAt([ZERO, Prefix(base)] + [] + rest, 0) == Some(if rest == [] then Error else Ok(0, 2))
  {
    PrefixedValuesIff(base, [], rest);
  }

  /** Ones with underscores between them. */
  function Ones(n: nat): (t: seq<int>)
    ensures |t| == n && forall k :: 0 <= k < n ==> t[k] == if k % 2 == 0 then ZERO + 1 else UNDERSCORE
  {
    seq(n, k => if k % 2 == 0 then ZERO + 1 else UNDERSCORE)
  }

  lemma {:induction false} OnesKept(n: nat)
    ensures |Strip(Ones(n))| == (n + 1) / 2
  {
    if n > 0 {
      OnesKept(n - 1);
      assert Ones(n)[..n - 1] == Ones(n - 1);
    }
  }

  lemma OnesAreABinaryNumber()
    ensures Separated(2, Ones(125)) && PrefixedValue(2, Ones(125), []).Ok?
  {
    var t := Ones(125);
    forall k | 0 <= k < |t| ensures InPlace(2, t, k) {
    }
    OnesKept(125);
  }

  /** The largest binary number, with an underscore between any two digits, is refused. */
  lemma LongBinaryIsRefused()
    ensures Separated(2, Ones(125)) && PrefixedValue(2, Ones(125), []).Ok?
    ensures NumberAt([ZERO, Prefix(2)] + Ones(125) + [], 0) == Some(Error)
  {
    OnesAreABinaryNumber();
    PrefixedValuesIff(2, Ones(125), []);
  }
}
