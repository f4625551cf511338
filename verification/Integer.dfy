/**
  Integers: the parser of decimal, binary, octal and hexadecimal numbers, in the
  64-bit arithmetic it works in.
 */
module Integer {
  import opened Basics
  import BasicString

  const INT64_MAX: nat := 0x7FFF_FFFF_FFFF_FFFF
  const UNDERSCORE: int := 0x5F
  const ZERO: int := 0x30
  const PLUS: int := 0x2B
  const MINUS: int := 0x2D

  datatype Parsed = Ok(value: int, next: nat) | Error

  // ---------------------------------------------------------------------------
  // Characters

  predicate IsLineBreak(c: int) {
    0x0A <= c <= 0x0D || c == 0x85 || c == 0x2028 || c == 0x2029
  }

  predicate IsWhitespace(c: int) {
    || c == 0x09 || c == 0x20 || c == 0xA0 || c == 0x1680 || 0x2000 <= c <= 0x200A
    || c == 0x202F || c == 0x205F || c == 0x3000
  }

  predicate IsValueTerminator(c: int) {
    || IsLineBreak(c) || IsWhitespace(c)
    || c == ']' as int || c == '}' as int || c == ',' as int || c == '#' as int
  }

  // ---------------------------------------------------------------------------
  // The four bases

  predicate IsBase(base: nat) {
    base == 2 || base == 8 || base == 10 || base == 16
  }

  predicate IsDigit(base: nat, c: int) {
    match base
    case 2 => c == ZERO || c == ZERO + 1
    case 8 => ZERO <= c <= ZERO + 7
    case 10 => ZERO <= c <= ZERO + 9
    case _ => BasicString.IsHexDigit(c)
  }

  function DigitValue(base: nat, c: nat): (d: int)
    requires IsBase(base)
    ensures IsDigit(base, c) ==> 0 <= d < base
  {
    if base == 16 then BasicString.HexToDec(c) else c - ZERO
  }

  /** The length of the digit buffer. */
  function BufferLength(base: nat): nat {
    match base
    case 2 => 63
    case 8 => 21
    case 10 => 19
    case _ => 16
  }

  function Prefix(base: nat): int {
    match base
    case 2 => 'b' as int
    case 8 => 'o' as int
    case _ => 'x' as int
  }

  // ---------------------------------------------------------------------------
  // Positional value

  predicate AllDigits(base: nat, d: seq<int>) {
    forall i :: 0 <= i < |d| ==> IsDigit(base, d[i])
  }

  /** The number a digit string stands for, most significant digit first. */
  function Value(base: nat, d: seq<int>): (v: nat)
    requires IsBase(base) && AllDigits(base, d)
    ensures v < Pow(base, |d|)
  {
    if d == [] then 0
    else
      var v := Value(base, d[..|d| - 1]);
      BelowNextPower(base, v, DigitValue(base, d[|d| - 1]), |d| - 1);
      v * base + DigitValue(base, d[|d| - 1])
  }

  lemma BelowNextPower(base: nat, v: nat, d: nat, k: nat)
    requires base > 0 && v < Pow(base, k) && d < base
    ensures v * base + d < Pow(base, k + 1)
  {
    assert (v + 1) * base <= Pow(base, k) * base;
  }

  /** A first digit counts as many powers as digits follow. */
  lemma {:induction false} ValueCons(base: nat, c: int, d: seq<int>)
    requires IsBase(base) && IsDigit(base, c) && AllDigits(base, d)
    ensures AllDigits(base, [c] + d)
    ensures Value(base, [c] + d) == DigitValue(base, c) * Pow(base, |d|) + Value(base, d)
  {
    if d == [] {
      assert ([c] + d)[..0] == [];
    } else {
      var init, last := d[..|d| - 1], d[|d| - 1];
      ValueCons(base, c, init);
      assert ([c] + d)[..|d|] == [c] + init;
      Shift(DigitValue(base, c), Pow(base, |init|), Value(base, init), base, DigitValue(base, last));
    }
  }

  lemma Shift(a: nat, p: nat, v: nat, base: nat, d: nat)
    ensures (a * p + v) * base + d == a * (base * p) + (v * base + d)
  {
  }

  lemma LeadingZero(base: nat, d: seq<int>)
    requires IsBase(base) && AllDigits(base, d) && d != [] && d[0] == ZERO
    ensures AllDigits(base, d[1..]) && Value(base, d) == Value(base, d[1..])
  {
    var rest := d[1..];
    assert d == [ZERO] + rest;
    assert forall i :: 0 <= i < |rest| ==> rest[i] == d[i + 1];
    assert DigitValue(base, ZERO) == 0;
    ValueCons(base, ZERO, rest);
  }

  /** The largest power and the largest value a buffer can hold stay below 2^64. */
  lemma BufferFits(base: nat)
    requires IsBase(base)
    ensures Pow(base, BufferLength(base) - 1) < UINT64 && Pow(base, BufferLength(base)) <= UINT64
  {
    match base
    case 2 =>
      assert Pow(2, 4) == 16;
      PowSum(2, 4, 4); PowSum(2, 8, 8); PowSum(2, 16, 16); PowSum(2, 32, 31); PowSum(2, 31, 31);
      PowSum(2, 16, 15);
      PowSum(2, 8, 7);
      assert Pow(2, 7) == 128;
    case 8 =>
      assert Pow(8, 5) == 32768;
      PowSum(8, 5, 5); PowSum(8, 10, 10); PowSum(8, 1, 20);
    case 10 =>
      assert Pow(10, 3) == 1000;
      PowSum(10, 3, 3); PowSum(10, 6, 6); PowSum(10, 12, 6); PowSum(10, 1, 18);
    case _ =>
      assert Pow(16, 5) == 0x10_0000;
      PowSum(16, 5, 5); PowSum(16, 10, 5); PowSum(16, 1, 15);
  }

  // ---------------------------------------------------------------------------
  // Tokens

  /** Where the value starting at `i` ends. */
  function End(cps: seq<int>, i: nat): (e: nat)
    requires i <= |cps|
    ensures i <= e <= |cps| && (e < |cps| ==> IsValueTerminator(cps[e]))
    ensures forall j :: i <= j < e ==> !IsValueTerminator(cps[j])
    decreases |cps| - i
  {
    if i == |cps| || IsValueTerminator(cps[i]) then i else End(cps, i + 1)
  }

  /** The character at `k` is a digit, or an underscore between two digits. */
  predicate InPlace(base: nat, t: seq<int>, k: nat)
    requires k < |t|
  {
    if t[k] == UNDERSCORE then 0 < k && IsDigit(base, t[k - 1]) && k + 1 < |t| && IsDigit(base, t[k + 1])
    else IsDigit(base, t[k])
  }

  /** Digits, with single underscores between digits only. */
  predicate Separated(base: nat, t: seq<int>) {
    forall k :: 0 <= k < |t| ==> InPlace(base, t, k)
  }

  function Strip(t: seq<int>): (r: seq<int>)
    ensures |r| <= |t| && forall i :: 0 <= i < |r| ==> r[i] in t && r[i] != UNDERSCORE
  {
    if t == [] then []
    else Strip(t[..|t| - 1]) + if t[|t| - 1] == UNDERSCORE then [] else [t[|t| - 1]]
  }

  lemma StripAppend(t: seq<int>, c: int)
    ensures Strip(t + [c]) == Strip(t) + if c == UNDERSCORE then [] else [c]
  {
    assert (t + [c])[..|t|] == t;
  }

  lemma StripNext(t: seq<int>, k: nat)
    requires k < |t|
    ensures Strip(t[..k + 1]) == Strip(t[..k]) + if t[k] == UNDERSCORE then [] else [t[k]]
  {
    assert t[..k + 1] == t[..k] + [t[k]];
    StripAppend(t[..k], t[k]);
  }

  lemma {:induction false} StripGrows(t: seq<int>, k: nat)
    requires k <= |t|
    ensures |Strip(t[..k])| <= |Strip(t)|
  {
    if k == |t| {
      assert t[..k] == t;
    } else {
      StripGrows(t[..|t| - 1], k);
      assert t[..|t| - 1][..k] == t[..k];
    }
  }

  lemma StripDigits(base: nat, t: seq<int>)
    requires IsBase(base) && Separated(base, t)
    ensures AllDigits(base, Strip(t))
  {
    forall i | 0 <= i < |Strip(t)| ensures IsDigit(base, Strip(t)[i]) {
      var k :| 0 <= k < |t| && t[k] == Strip(t)[i];
      assert InPlace(base, t, k);
    }
  }

  /** The loop over the characters of a value has accepted these so far. */
  predicate Accepted(base: nat, p: seq<int>) {
    forall k :: 0 <= k < |p| ==> InPlaceSoFar(base, p, k)
  }

  /** As `InPlace`, except that the digit after a last underscore may still come. */
  predicate InPlaceSoFar(base: nat, p: seq<int>, k: nat)
    requires k < |p|
  {
    InPlace(base, p, k) || (k == |p| - 1 && p[k] == UNDERSCORE && 0 < k && IsDigit(base, p[k - 1]))
  }

  lemma AcceptedNext(base: nat, p: seq<int>, c: int)
    requires Accepted(base, p)
    requires if c == UNDERSCORE then p != [] && IsDigit(base, p[|p| - 1]) else IsDigit(base, c)
    ensures Accepted(base, p + [c])
  {
    var q := p + [c];
    forall k | 0 <= k < |q| ensures InPlaceSoFar(base, q, k) {
      if k < |p| {
        assert InPlaceSoFar(base, p, k);
        assert p[k] == UNDERSCORE ==> !IsDigit(base, p[k]);
      }
    }
  }

  lemma AcceptedAtEnd(base: nat, t: seq<int>)
    requires Accepted(base, t) && (t == [] || t[|t| - 1] != UNDERSCORE)
    ensures Separated(base, t)
  {
    forall k | 0 <= k < |t| ensures InPlace(base, t, k) {
      assert InPlaceSoFar(base, t, k);
    }
  }

  /** A character the loop stops at with an error spoils the whole value. */
  lemma Spoiled(base: nat, t: seq<int>, k: nat)
    requires k < |t| && !InPlace(base, t, k)
    ensures !Separated(base, t)
  {
  }

  lemma TooLong(base: nat, t: seq<int>, k: nat)
    requires k < |t| && t[k] != UNDERSCORE && |Strip(t[..k])| == BufferLength(base)
    ensures |Strip(t)| > BufferLength(base)
  {
    StripNext(t, k);
    StripGrows(t, k + 1);
  }

  /** One turn of the loop: character `c` at position `k` of the value `t`, behind `prev`. */
  method TakeChar(base: nat, prev: Option<int>, c: int, atEnd: bool, chars: seq<int>, ghost t: seq<int>, ghost k: nat)
    returns (r: Option<seq<int>>)
    requires k < |t| && t[k] == c && (atEnd ==> k + 1 == |t|) && prev == if k == 0 then None else Some(t[k - 1])
    requires Accepted(base, t[..k]) && chars == Strip(t[..k]) && |chars| <= BufferLength(base)
    ensures r.Some? ==> Accepted(base, t[..k + 1]) && r.value == Strip(t[..k + 1]) && |r.value| <= BufferLength(base)
    ensures r.None? ==> !Separated(base, t) || |Strip(t)| > BufferLength(base)
  {
    assert t[..k + 1] == t[..k] + [c];
    StripNext(t, k);
    if c == UNDERSCORE {
      if prev.None? || !IsDigit(base, prev.value) || atEnd {
        Spoiled(base, t, k);
        return None;
      }
      AcceptedNext(base, t[..k], c);
      return Some(chars);
    }
    if !IsDigit(base, c) {
      Spoiled(base, t, k);
      return None;
    }
    if |chars| == BufferLength(base) {
      TooLong(base, t, k);
      return None;
    }
    AcceptedNext(base, t[..k], c);
    return Some(chars + [c]);
  }

  /** The digits of the value at `start`, or nothing when it is malformed or too long. */
  method ScanDigits(base: nat, cps: seq<int>, start: nat) returns (r: Option<seq<int>>, i: nat)
    requires IsBase(base) && start <= |cps|
    ensures var t := cps[start..End(cps, start)];
            && (r.Some? <==> Separated(base, t) && |Strip(t)| <= BufferLength(base))
            && (r.Some? ==> r.value == Strip(t) && i == End(cps, start))
  {
    var chars: seq<int> := [];
    var prev: Option<int> := None;
    i := start;
    ghost var t := cps[start..End(cps, start)];
    while i < |cps| && !IsValueTerminator(cps[i])
      invariant start <= i <= End(cps, start)
      invariant prev == if i == start then None else Some(t[i - start - 1])
      invariant Accepted(base, t[..i - start]) && chars == Strip(t[..i - start]) && |chars| <= BufferLength(base)
    {
      var more := TakeChar(base, prev, cps[i], i + 1 == |cps|, chars, t, i - start);
      if more.None? {
        return None, i;
      }
      chars, prev, i := more.value, Some(cps[i]), i + 1;
    }
    assert t[..i - start] == t;
    if prev == Some(UNDERSCORE) {
      Spoiled(base, t, |t| - 1);
      return None, i;
    }
    AcceptedAtEnd(base, t);
    return Some(chars), i;
  }

  // ---------------------------------------------------------------------------
  // The value

  lemma PowerFits(base: nat, k: nat)
    requires IsBase(base) && k < BufferLength(base)
    ensures Pow(base, k) < UINT64
  {
    BufferFits(base);
    PowMonotone(base, k, BufferLength(base) - 1);
  }

  function NextPower(power: nat, base: nat): nat {
    power * base % UINT64
  }

  lemma NextPowerIsPow(base: nat, k: nat)
    requires IsBase(base) && k < BufferLength(base)
    ensures NextPower(Pow(base, k) % UINT64, base) == Pow(base, k + 1) % UINT64
  {
    PowerFits(base, k);
    Commute(base, Pow(base, k));
  }

  lemma ValueFits(base: nat, d: seq<int>)
    requires IsBase(base) && AllDigits(base, d) && |d| <= BufferLength(base)
    ensures Value(base, d) < UINT64
  {
    BufferFits(base);
    PowMonotone(base, |d|, BufferLength(base));
  }

  lemma SumParts(base: nat, c: int, d: seq<int>) returns (v: nat, x: nat, p: nat, total: nat)
    requires IsBase(base) && IsDigit(base, c) && AllDigits(base, d) && |d| < BufferLength(base)
    ensures AllDigits(base, [c] + d) && v == Value(base, d) && x == DigitValue(base, c)
    ensures p == Pow(base, |d|) == Pow(base, |d|) % UINT64 && total == Value(base, [c] + d) == v + x * p < UINT64
  {
    PowerFits(base, |d|);
    ValueCons(base, c, d);
    ValueFits(base, [c] + d);
    v, x, p, total := Value(base, d), DigitValue(base, c), Pow(base, |d|), Value(base, [c] + d);
  }

  /** Adding one more digit on the left never wraps. */
  lemma SumStep(base: nat, c: int, d: seq<int>)
    requires IsBase(base) && IsDigit(base, c) && AllDigits(base, d) && |d| < BufferLength(base)
    ensures AllDigits(base, [c] + d)
    ensures AddAt(Value(base, d), DigitValue(base, c), Pow(base, |d|) % UINT64, UINT64) == Value(base, [c] + d)
  {
    var v, x, p, total := SumParts(base, c, d);
    AddWithoutWrap(v, x, p, UINT64, total);
  }

  method SkipZeros(base: nat, chars: seq<int>) returns (msd: nat)
    requires IsBase(base) && AllDigits(base, chars)
    ensures msd <= |chars| && Value(base, chars[msd..]) == Value(base, chars)
    ensures msd < |chars| ==> chars[msd] != ZERO
  {
    msd := 0;
    while msd < |chars| && chars[msd] == ZERO
      invariant msd <= |chars| && Value(base, chars[msd..]) == Value(base, chars)
    {
      LeadingZero(base, chars[msd..]);
      assert chars[msd..][1..] == chars[msd + 1..];
      msd := msd + 1;
    }
  }

  /**
    The loop from the last digit to the first, in unsigned 64-bit arithmetic:
    the sum never wraps, although the power does after the last digit of a full
    hexadecimal buffer.
   */
  method SumDigits(base: nat, chars: seq<int>, msd: nat) returns (result: nat)
    requires IsBase(base) && AllDigits(base, chars) && msd <= |chars| <= BufferLength(base)
    ensures result == Value(base, chars[msd..])
  {
    result := 0;
    var power := 1;
    var end := |chars|;
    while end > msd
      invariant msd <= end <= |chars|
      invariant result == Value(base, chars[end..])
      invariant power == Pow(base, |chars| - end) % UINT64
    {
      NextPowerIsPow(base, |chars| - end);
      end := end - 1;
      SumStep(base, chars[end], chars[end + 1..]);
      assert [chars[end]] + chars[end + 1..] == chars[end..];
      result := AddAt(result, DigitValue(base, chars[end]), power, UINT64);
      power := NextPower(power, base);
    }
  }

  // ---------------------------------------------------------------------------
  // The parser

  /** The reinterpretation of an unsigned 64-bit number as a signed one. */
  function AsInt64(n: int): int {
    var m := n % UINT64;
    if m > INT64_MAX then m - UINT64 else m
  }

  /** Where the digits of an integer start, or nothing when sign or prefix are wrong. */
  function DigitsStart(base: nat, cps: seq<int>, start: nat): (r: Option<nat>)
    requires start < |cps|
    ensures r.Some? ==> start <= r.value < |cps|
  {
    if base == 10 then
      var i := if cps[start] == PLUS || cps[start] == MINUS then start + 1 else start;
      if i < |cps| && IsDigit(10, cps[i]) then Some(i) else None
    else if start + 2 < |cps| && cps[start] == ZERO && cps[start + 1] == Prefix(base) then Some(start + 2)
    else None
  }

  function Sign(base: nat, cps: seq<int>, start: nat): int
    requires start < |cps|
  {
    if base == 10 && cps[start] == MINUS then -1 else 1
  }

  /** What the digits make of the value: a single digit is returned without its sign. */
  function Evaluate(base: nat, digits: seq<int>, sign: int): Option<int>
    requires IsBase(base) && AllDigits(base, digits)
  {
    var v := Value(base, digits);
    if base == 10 && digits != [] && digits[0] == ZERO then None
    else if |digits| == 1 then Some(v)
    else if v > INT64_MAX + (if sign < 0 then 1 else 0) then None
    else Some(v * sign)
  }

  function IntegerAt(base: nat, cps: seq<int>, start: nat): Parsed
    requires IsBase(base) && start < |cps|
  {
    match DigitsStart(base, cps, start)
    case None => Error
    case Some(i) =>
      var e := End(cps, i);
      var t := cps[i..e];
      if !Separated(base, t) || |Strip(t)| > BufferLength(base) then Error
      else
        StripDigits(base, t);
        match Evaluate(base, Strip(t), Sign(base, cps, start))
        case None => Error
        case Some(v) => Ok(v, e)
  }

  lemma SingleDigit(base: nat, d: seq<int>)
    requires IsBase(base) && AllDigits(base, d) && |d| == 1
    ensures Value(base, d) == DigitValue(base, d[0])
  {
    assert d[..0] == [];
  }

  lemma CastAndSign(v: nat, sign: int)
    requires sign == 1 || sign == -1
    requires v <= INT64_MAX + if sign < 0 then 1 else 0
    ensures AsInt64(AsInt64(v) * sign) == v * sign
  {
  }

  method Evaluation(base: nat, chars: seq<int>, sign: int) returns (r: Option<int>)
    requires IsBase(base) && AllDigits(base, chars) && |chars| <= BufferLength(base)
    requires (sign == 1 || sign == -1) && (base == 10 ==> chars != [])
    ensures r == Evaluate(base, chars, sign)
  {
    if base == 10 && chars[0] == ZERO {
      return None;
    }
    if |chars| == 1 {
      SingleDigit(base, chars);
      return Some(DigitValue(base, chars[0]));
    }
    var msd := SkipZeros(base, chars);
    if msd == |chars| {
      return Some(0);
    }
    var result := SumDigits(base, chars, msd);
    if result > INT64_MAX + (if sign < 0 then 1 else 0) {
      return None;
    }
    CastAndSign(result, sign);
    return Some(AsInt64(AsInt64(result) * sign));
  }

  /** Past the sign of a decimal number or the prefix of another one. */
  method SkipPrefix(base: nat, cps: seq<int>, start: nat) returns (r: Option<nat>, sign: int)
    requires IsBase(base) && start < |cps|
    ensures r == DigitsStart(base, cps, start) && sign == Sign(base, cps, start)
  {
    sign := 1;
    var i := start;
    if base == 10 {
      sign := if cps[i] == MINUS then -1 else 1;
      if cps[i] == PLUS || cps[i] == MINUS {
        i := i + 1;
        if i == |cps| {
          return None, sign;
        }
      }
      return if IsDigit(10, cps[i]) then Some(i) else None, sign;
    }
    if cps[i] != ZERO || i + 1 == |cps| || cps[i + 1] != Prefix(base) || i + 2 == |cps| {
      return None, sign;
    }
    return Some(i + 2), sign;
  }

  /** `parse_integer` for all four bases. */
  method ParseInteger(base: nat, cps: seq<int>, start: nat) returns (r: Parsed)
    requires IsBase(base) && start < |cps|
    ensures r == IntegerAt(base, cps, start)
  {
    var i, sign := SkipPrefix(base, cps, start);
    if i.None? {
      return Error;
    }
    var chars, next := ScanDigits(base, cps, i.value);
    if chars.None? {
      return Error;
    }
    ghost var t := cps[i.value..next];
    StripDigits(base, t);
    if base == 10 {
      FirstDigitStays(t);
    }
    var v := Evaluation(base, chars.value, sign);
    return if v.None? then Error else Ok(v.value, next);
  }

  lemma {:induction false} FirstDigitStays(t: seq<int>)
    requires t != [] && t[0] != UNDERSCORE
    ensures Strip(t) != [] && Strip(t)[0] == t[0]
  {
    if |t| > 1 {
      FirstDigitStays(t[..|t| - 1]);
    }
  }

  // ---------------------------------------------------------------------------
  // What is accepted

  /** Nothing follows, or something that ends a value. */
  predicate EndsValue(rest: seq<int>) {
    rest == [] || IsValueTerminator(rest[0])
  }

  lemma {:induction false} EndOfValue(a: seq<int>, t: seq<int>, rest: seq<int>)
    requires EndsValue(rest) && forall k :: 0 <= k < |t| ==> !IsValueTerminator(t[k])
    ensures End(a + t + rest, |a|) == |a| + |t|
    decreases |t|
  {
    var cps := a + t + rest;
    if t == [] {
      assert rest != [] ==> cps[|a|] == rest[0];
    } else {
      assert cps[|a|] == t[0];
      assert cps == (a + [t[0]]) + t[1..] + rest;
      EndOfValue(a + [t[0]], t[1..], rest);
    }
  }

  lemma TokenIsNoTerminator(base: nat, t: seq<int>)
    requires IsBase(base) && Separated(base, t)
    ensures forall k :: 0 <= k < |t| ==> !IsValueTerminator(t[k])
  {
    forall k | 0 <= k < |t| ensures !IsValueTerminator(t[k]) {
      assert InPlace(base, t, k);
    }
  }

  /** A digit string without leading zero is at least the power of its length. */
  lemma {:induction false} ValueAtLeast(d: seq<int>)
    requires AllDigits(10, d) && d != [] && d[0] != ZERO
    ensures Value(10, d) >= Pow(10, |d| - 1)
  {
    if |d| == 1 {
      SingleDigit(10, d);
    } else {
      ValueAtLeast(d[..|d| - 1]);
    }
  }

  lemma LongDecimalsAreTooLarge(d: seq<int>)
    requires AllDigits(10, d) && |d| > BufferLength(10) && d[0] != ZERO
    ensures Value(10, d) > INT64_MAX + 1
  {
    ValueAtLeast(d);
    PowMonotone(10, 19, |d| - 1);
    assert Pow(10, 3) == 1000;
    PowSum(10, 3, 3);
    PowSum(10, 6, 6);
    PowSum(10, 12, 6);
    PowSum(10, 1, 18);
  }

  /** The sign as written: nothing, plus or minus. */
  predicate IsSign(s: seq<int>) {
    s == [] || s == [PLUS] || s == [MINUS]
  }

  function SignOf(s: seq<int>): int {
    if s == [MINUS] then -1 else 1
  }

  predicate IsInt64(n: int) {
    -(INT64_MAX as int) - 1 <= n <= INT64_MAX
  }

  /** A value between something before and something behind it. */
  lemma TokenBetween(base: nat, a: seq<int>, t: seq<int>, rest: seq<int>)
    requires IsBase(base) && Separated(base, t) && EndsValue(rest)
    ensures var cps := a + t + rest;
            End(cps, |a|) == |a| + |t| && cps[|a|..|a| + |t|] == t && (t != [] ==> cps[|a|] == t[0])
  {
    TokenIsNoTerminator(base, t);
    EndOfValue(a, t, rest);
  }

  lemma DecimalStart(s: seq<int>, c: int, cps: seq<int>)
    requires IsSign(s) && IsDigit(10, c) && s + [c] <= cps
    ensures DigitsStart(10, cps, 0) == Some(|s|) && Sign(10, cps, 0) == SignOf(s)
  {
    assert cps[|s|] == (s + [c])[|s|] && cps[0] == (s + [c])[0];
  }

  lemma DecimalText(s: seq<int>, t: seq<int>, rest: seq<int>)
    requires IsSign(s) && Separated(10, t) && t != [] && EndsValue(rest)
    ensures var cps := s + t + rest;
            && DigitsStart(10, cps, 0) == Some(|s|) && End(cps, |s|) == |s| + |t| && cps[|s|..|s| + |t|] == t
            && Sign(10, cps, 0) == SignOf(s)
  {
    TokenBetween(10, s, t, rest);
    FirstIsDigit(10, t);
    DecimalStart(s, t[0], s + t + rest);
  }

  lemma FirstIsDigit(base: nat, t: seq<int>)
    requires Separated(base, t) && t != []
    ensures IsDigit(base, t[0])
  {
    assert InPlace(base, t, 0);
  }

  /**
    Decimals of two or more digits without leading zero, underscores ignored, are
    accepted exactly when they are in the range of signed 64-bit numbers.
   */
  lemma DecimalsAreInt64(s: seq<int>, t: seq<int>, rest: seq<int>)
    requires IsSign(s) && EndsValue(rest)
    requires Separated(10, t) && AllDigits(10, Strip(t)) && |Strip(t)| >= 2 && Strip(t)[0] != ZERO
    ensures var n := SignOf(s) * Value(10, Strip(t));
            IntegerAt(10, s + t + rest, 0) == if IsInt64(n) then Ok(n, |s| + |t|) else Error
  {
    DecimalText(s, t, rest);
    if |Strip(t)| > BufferLength(10) {
      LongDecimalsAreTooLarge(Strip(t));
      SignedRange(s, Value(10, Strip(t)));
    } else {
      IntegerOfToken(10, s + t + rest, |s|, t);
      DecimalInRange(s, Strip(t), Value(10, Strip(t)));
    }
  }

  /** The range check in front of the sign is the range check behind it. */
  lemma SignedRange(s: seq<int>, v: nat)
    requires IsSign(s)
    ensures IsInt64(SignOf(s) * v) <==> v <= INT64_MAX + if SignOf(s) < 0 then 1 else 0
    ensures SignOf(s) * v == v * SignOf(s)
  {
  }

  lemma DecimalInRange(s: seq<int>, d: seq<int>, v: nat)
    requires IsSign(s) && AllDigits(10, d) && |d| >= 2 && d[0] != ZERO && v == Value(10, d)
    ensures Evaluate(10, d, SignOf(s)) == if IsInt64(SignOf(s) * v) then Some(SignOf(s) * v) else None
  {
    SignedRange(s, v);
  }

  lemma EvaluatePrefixed(base: nat, d: seq<int>)
    requires base == 2 || base == 8 || base == 16
    requires AllDigits(base, d) && |d| <= BufferLength(base)
    ensures Evaluate(base, d, 1) == if base == 16 && Value(16, d) > INT64_MAX then None else Some(Value(base, d))
  {
    PowMonotone(base, |d|, BufferLength(base));
    SmallBuffers();
  }

  lemma IntegerOfToken(base: nat, cps: seq<int>, i: nat, t: seq<int>)
    requires IsBase(base) && cps != [] && DigitsStart(base, cps, 0) == Some(i)
    requires End(cps, i) == i + |t| && cps[i..i + |t|] == t
    requires Separated(base, t) && |Strip(t)| <= BufferLength(base) && AllDigits(base, Strip(t))
    ensures IntegerAt(base, cps, 0) ==
            match Evaluate(base, Strip(t), Sign(base, cps, 0)) case None => Error case Some(v) => Ok(v, i + |t|)
  {
  }

  /**
    Binary and octal numbers always fit, hexadecimal ones when they are in range.
    A prefix with no digits before a terminator counts as zero.
   */
  lemma PrefixedNumbers(base: nat, t: seq<int>, rest: seq<int>)
    requires base == 2 || base == 8 || base == 16
    requires Separated(base, t) && AllDigits(base, Strip(t)) && |Strip(t)| <= BufferLength(base)
    requires t + rest != [] && EndsValue(rest)
    ensures IntegerAt(base, [ZERO, Prefix(base)] + t + rest, 0) ==
            if base == 16 && Value(16, Strip(t)) > INT64_MAX then Error else Ok(Value(base, Strip(t)), 2 + |t|)
  {
    var a := [ZERO, Prefix(base)];
    TokenBetween(base, a, t, rest);
    PrefixedStart(base, a + t + rest);
    IntegerOfToken(base, a + t + rest, 2, t);
    EvaluatePrefixed(base, Strip(t));
  }

  lemma PrefixedStart(base: nat, cps: seq<int>)
    requires base != 10 && [ZERO, Prefix(base)] < cps
    ensures DigitsStart(base, cps, 0) == Some(2) && Sign(base, cps, 0) == 1
  {
    assert cps[0] == [ZERO, Prefix(base)][0] && cps[1] == [ZERO, Prefix(base)][1];
  }

  lemma SmallBuffers()
    ensures Pow(2, 63) == INT64_MAX + 1 && Pow(8, 21) == INT64_MAX + 1 && Pow(16, 1) == 16
  {
    assert Pow(2, 7) == 128;
    PowSum(2, 7, 8); PowSum(2, 8, 8); PowSum(2, 1, 7); PowSum(2, 15, 16); PowSum(2, 16, 16); PowSum(2, 31, 32);
    assert Pow(8, 5) == 32768;
    PowSum(8, 5, 5); PowSum(8, 10, 10); PowSum(8, 1, 20);
  }

  // ---------------------------------------------------------------------------
  // Printing and parsing

  /** The decimal digits of a number. */
  function Digits(n: nat): (d: seq<int>)
    ensures d != [] && AllDigits(10, d) && Value(10, d) == n
    ensures n > 0 ==> d[0] != ZERO
    ensures |d| == 1 <==> n < 10
  {
    if n < 10 then SingleDigit(10, [ZERO + n]); [ZERO + n]
    else
      var d := Digits(n / 10) + [ZERO + n % 10];
      assert d[..|d| - 1] == Digits(n / 10);
      d
  }

  function Print(n: int): seq<int> {
    if n < 0 then [MINUS] + Digits(-n) else Digits(n)
  }

  lemma DigitsAreAToken(d: seq<int>)
    requires AllDigits(10, d)
    ensures Separated(10, d) && Strip(d) == d
  {
    forall k | 0 <= k < |d| ensures InPlace(10, d, k) {
      assert IsDigit(10, d[k]);
    }
    StripNothing(d);
  }

  lemma {:induction false} StripNothing(d: seq<int>)
    requires UNDERSCORE !in d
    ensures Strip(d) == d
  {
    if d != [] {
      StripNothing(d[..|d| - 1]);
      assert d == d[..|d| - 1] + [d[|d| - 1]];
    }
  }

  lemma PrintedParts(n: int, rest: seq<int>) returns (s: seq<int>, d: seq<int>)
    ensures Print(n) == s + d && Print(n) + rest == s + d + rest && IsSign(s) && d != []
    ensures AllDigits(10, d) && n == SignOf(s) * Value(10, d) && (d[0] == ZERO <==> n == 0)
    ensures (|d| == 1 <==> -10 < n < 10) && (|d| == 1 && s == [MINUS] <==> -10 < n < 0)
  {
    s, d := if n < 0 then [MINUS] else [], Digits(if n < 0 then -n else n);
  }
}
