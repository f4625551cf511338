/**
  Basic strings: the escaping printer, the parser, and the round trip.
 */
module BasicString {
  import opened Basics
  import opened Numerals
  import opened Text
  import opened Utf8
  import opened Utf8Reader

  const QUOTE: int := 0x22
  const BACKSLASH: int := 0x5C
  const DELETE: int := 0x7F

  datatype Parsed = Ok(str: seq<byte>, next: nat) | Error

  // ---------------------------------------------------------------------------
  // Hexadecimal digits

  predicate IsHexDigit(c: int) {
    '0' as int <= c <= '9' as int || 'A' as int <= c <= 'F' as int || 'a' as int <= c <= 'f' as int
  }

  /** Setting the bit 0x20, which turns capital letters into small ones. */
  function LowerCase(c: nat): nat {
    if c / 32 % 2 == 1 then c else c + 32
  }

  function HexToDec(c: nat): (d: int)
    ensures IsHexDigit(c) ==> 0 <= d < 16
  {
    if c >= 0x41 then 10 + LowerCase(c) - 0x61 else c - 0x30
  }

  lemma HexDigitsAreWritten(c: int, d: nat)
    ensures IsHexDigit(c) ==> Writes(c, HexToDec(c))
    ensures Writes(c, d) ==> IsHexDigit(c) && HexToDec(c) == d
  {
  }

  /**
    The hexadecimal digits are exactly the characters of the two rows of digits, and each is
    worth its place in its row.
   */
  lemma HexDigitsAreTheRows(c: int)
    ensures IsHexDigit(c) <==> exists d: nat :: d < 16 && (c == SMALL[d] as int || c == CAPITAL[d] as int)
    ensures forall d: nat :: d < 16 && (c == SMALL[d] as int || c == CAPITAL[d] as int) ==> HexToDec(c) == d
  {
    forall d: nat | d < 16 && (c == SMALL[d] as int || c == CAPITAL[d] as int) ensures IsHexDigit(c) && HexToDec(c) == d {
      WritesIffInRow(c, d);
      HexDigitsAreWritten(c, d);
    }
    if IsHexDigit(c) {
      HexDigitsAreWritten(c, 0);
      WritesIffInRow(c, HexToDec(c));
    }
  }

  predicate HexDigits(items: seq<Codepoint>, i: nat, n: nat) {
    i + n <= |items| && forall j :: i <= j < i + n ==> IsHexDigit(items[j].value)
  }

  /** The number the hexadecimal digits from `i` on stand for, most significant first. */
  function HexValue(items: seq<Codepoint>, i: nat, n: nat): (v: nat)
    requires HexDigits(items, i, n)
    ensures v < Pow(16, n)
  {
    if n == 0 then 0 else HexValue(items, i, n - 1) * 16 + HexToDec(items[i + n - 1].value)
  }

  lemma NextHexDigit(items: seq<Codepoint>, start: nat, k: nat)
    requires HexDigits(items, start, k) && start + k < |items| && IsHexDigit(items[start + k].value)
    ensures HexDigits(items, start, k + 1)
    ensures HexValue(items, start, k + 1) == HexValue(items, start, k) * 16 + HexToDec(items[start + k].value)
  {
  }

  /** From `i` on the items write these digits. */
  predicate Spells(items: seq<Codepoint>, i: nat, ds: seq<nat>) {
    i + |ds| <= |items| && forall j :: 0 <= j < |ds| ==> Writes(items[i + j].value, ds[j])
  }

  lemma {:induction false} SpelledValue(items: seq<Codepoint>, i: nat, ds: seq<nat>)
    requires Spells(items, i, ds)
    ensures HexDigits(items, i, |ds|) && HexValue(items, i, |ds|) == Positional(16, ds)
  {
    if ds != [] {
      var n := |ds| - 1;
      SpelledValue(items, i, ds[..n]);
      assert Writes(items[i + n].value, ds[n]);
      WrittenDigit(items[i + n].value, ds[n]);
      NextHexDigit(items, i, n);
    }
  }

  lemma WrittenDigit(c: int, d: nat)
    requires Writes(c, d)
    ensures IsHexDigit(c) && HexToDec(c) == d
  {
    HexDigitsAreWritten(c, d);
  }

  lemma {:induction false} DigitsAreSpelled(items: seq<Codepoint>, i: nat, n: nat) returns (ds: seq<nat>)
    requires HexDigits(items, i, n)
    ensures |ds| == n && Spells(items, i, ds)
    decreases n
  {
    ds := [];
    if n > 0 {
      var rest := DigitsAreSpelled(items, i, n - 1);
      assert IsHexDigit(items[i + n - 1].value);
      HexDigitsAreWritten(items[i + n - 1].value, 0);
      ds := rest + [HexToDec(items[i + n - 1].value)];
    }
  }

  /** `r` is the number that the next `n` items write, or nothing when they do not write any. */
  ghost predicate Reads(items: seq<Codepoint>, i: nat, n: nat, r: Option<nat>) {
    && (r.Some? <==> exists ds :: |ds| == n && Spells(items, i, ds))
    && (forall ds :: |ds| == n && Spells(items, i, ds) ==> r == Some(Positional(16, ds)))
  }

  lemma DigitsAreRead(items: seq<Codepoint>, i: nat, n: nat, r: Option<nat>)
    requires r.Some? <==> HexDigits(items, i, n)
    requires r.Some? ==> r.value == HexValue(items, i, n)
    ensures Reads(items, i, n, r)
  {
    if r.Some? {
      var ds := DigitsAreSpelled(items, i, n);
    }
    forall ds | |ds| == n && Spells(items, i, ds) ensures r == Some(Positional(16, ds)) {
      SpelledValue(items, i, ds);
    }
  }

  lemma PowersOfSixteen()
    ensures Pow(16, 3) == 0x1000 && Pow(16, 4) == 0x1_0000 && Pow(16, 7) == 0x1000_0000 && Pow(16, 8) == UINT32
  {
    assert Pow(16, 3) == 0x1000;
    assert Pow(16, 4) == 0x1_0000;
    assert Pow(16, 5) == 0x10_0000;
    assert Pow(16, 6) == 0x100_0000;
    assert Pow(16, 7) == 0x1000_0000;
  }

  lemma Distribute(v: nat, d: nat, p: nat)
    ensures (v * 16 + d) * p == v * (16 * p) + d * p && d * p >= 0
  {
  }

  lemma PlaceValueFits(v: nat, d: nat, n: nat, k: nat)
    requires k < n <= 8 && v < Pow(16, k) && d < 16
    ensures (v * 16 + d) * Pow(16, n - k - 1) < UINT32
  {
    var p := Pow(16, n - k - 1);
    PowersOfSixteen();
    PowSum(16, k + 1, n - k - 1);
    PowMonotone(16, n, 8);
    ScaledBelow(v * 16 + d, p, Pow(16, k + 1));
  }

  /** Adding a digit at its place, without the additions and products ever wrapping. */
  lemma PlaceValueStep(v: nat, d: nat, n: nat, k: nat)
    requires k < n <= 8 && v < Pow(16, k) && d < 16
    ensures AddAt(v * Pow(16, n - k), d, Pow(16, n - k - 1), UINT32) == (v * 16 + d) * Pow(16, n - k - 1)
  {
    var p := Pow(16, n - k - 1);
    PlaceValueFits(v, d, n, k);
    Distribute(v, d, p);
    AddWithoutWrap(v * Pow(16, n - k), d, p, UINT32, (v * 16 + d) * p);
  }

  lemma NextPlace(m: nat)
    ensures Pow(16, m) / 16 == if m > 0 then Pow(16, m - 1) else 0
  {
  }

  /** One turn of the place value loop, after `k` of `n` digits of value `v`. */
  method TakeDigit(sequenceValue: nat, placeValue: nat, d: nat, ghost v: nat, ghost n: nat, ghost k: nat)
    returns (value: nat, place: nat)
    requires k < n <= 8 && v < Pow(16, k) && d < 16
    requires sequenceValue == v * Pow(16, n - k) && placeValue == Pow(16, n - k - 1)
    ensures value == (v * 16 + d) * Pow(16, n - k - 1) && place == if k + 1 < n then Pow(16, n - k - 2) else 0
  {
    PlaceValueStep(v, d, n, k);
    NextPlace(n - k - 1);
    value, place := AddAt(sequenceValue, d, placeValue, UINT32), placeValue / 16;
  }

  /**
    The place value loop, in 32-bit arithmetic: the positional value of the next
    `n` digits, or nothing when they are not all there.
   */
  method AddUpPlaces(items: seq<Codepoint>, start: nat, n: nat) returns (r: Option<nat>)
    requires n == 4 || n == 8
    requires start <= |items|
    ensures r.Some? <==> HexDigits(items, start, n)
    ensures r.Some? ==> r.value == HexValue(items, start, n)
  {
    var placeValue := if n == 8 then 0x1000_0000 else 0x1000;
    assert placeValue == Pow(16, n - 1) by { PowersOfSixteen(); }
    var sequenceValue := 0;
    var i := start;
    ghost var k, v: nat := 0, 0;
    while placeValue > 0
      invariant i == start + k <= |items| && k <= n && HexDigits(items, start, k) && v == HexValue(items, start, k)
      invariant placeValue == if k < n then Pow(16, n - k - 1) else 0
      invariant sequenceValue == v * Pow(16, n - k)
      decreases placeValue
    {
      if i == |items| {
        return None;
      }
      if !IsHexDigit(items[i].value) {
        return None;
      }
      NextHexDigit(items, start, k);
      sequenceValue, placeValue := TakeDigit(sequenceValue, placeValue, HexToDec(items[i].value), v, n, k);
      k, v := k + 1, v * 16 + HexToDec(items[i].value);
      i := i + 1;
    }
    assert sequenceValue == v by { assert Pow(16, 0) == 1; }
    return Some(sequenceValue);
  }

  /** The number that the next `n` digits write, in small or capital letters. */
  method ParseHex(items: seq<Codepoint>, start: nat, n: nat) returns (r: Option<nat>)
    requires n == 4 || n == 8
    requires start <= |items|
    ensures Reads(items, start, n, r)
    ensures r.Some? <==> HexDigits(items, start, n)
    ensures r.Some? ==> r.value == HexValue(items, start, n)
  {
    r := AddUpPlaces(items, start, n);
    DigitsAreRead(items, start, n, r);
  }

  // ---------------------------------------------------------------------------
  // The encoder behind the unicode escapes

  /**
    The bytes appended for an escaped scalar value.  The middle byte of three
    keeps only five bits of the value, one less than RFC 3629 puts there.
   */
  function EncodeEscape(v: scalar): (r: seq<byte>) {
    assert IsScalar(v);
    var v1: nat := v / 64;
    var v2: nat := v1 / 64;
    if v <= 0x7F then [v]
    else if v <= 0x7FF then [0xC0 + v1 % 32, 0x80 + v % 64]
    else if v <= 0xFFFF then [0xE0 + v2 % 16, 0x80 + v1 % 32, 0x80 + v % 64]
    else [0xF0 + v2 / 64 % 8, 0x80 + v2 % 64, 0x80 + v1 % 64, 0x80 + v % 64]
  }

  /** The encoder keeps the bit 0x800 of a three-byte value only if it is not set. */
  predicate KeepsValue(v: int) {
    !(0x800 <= v <= 0xFFFF && v / 0x800 % 2 == 1)
  }

  lemma MiddleBits(v: nat)
    requires v <= 0xFFFF
    ensures v / 64 % 64 == v / 64 % 32 + if v / 0x800 % 2 == 1 then 32 else 0
  {
    Halves(v / 64);
    assert v / 0x800 == v / 64 / 32;
  }

  lemma Halves(w: nat)
    ensures w % 64 == w % 32 + if w / 32 % 2 == 1 then 32 else 0
  {
    var q := w / 32;
    assert w == 32 * q + w % 32 && q == 2 * (q / 2) + q % 2;
    assert w == 64 * (q / 2) + (32 * (q % 2) + w % 32);
  }

  lemma GoodEscape(v: scalar)
    requires KeepsValue(v)
    ensures EncodeEscape(v) == Encode(v)
  {
    assert IsScalar(v);
    if v > 0xFFFF {
      FourByteEscape(v);
    } else if v >= 0x800 {
      MiddleBits(v);
    }
  }

  lemma FourByteEscape(v: scalar)
    requires v > 0xFFFF
    ensures EncodeEscape(v) == Encode(v)
  {
    assert IsScalar(v);
    var v3: nat := v / 64 / 64 / 64;
    assert v3 % 8 == v3;
  }

  lemma BadEscape(v: scalar, rest: seq<byte>)
    requires !KeepsValue(v)
    ensures var s := EncodeEscape(v) + rest;
            CharLen(s) == 0 || CharValue(s) == v - 0x800
  {
    assert IsScalar(v);
    MiddleBits(v);
    var s := EncodeEscape(v) + rest;
    var v1: nat := v / 64;
    var v2: nat := v1 / 64;
    assert s[0] == 0xE0 + v2 && s[1] == 0x80 + v1 % 64 - 32 && s[2] == 0x80 + v % 64;
    if CharLen(s) > 0 {
      assert CharLen(s) == 3;
      assert CharValue(s) == (v2 * 64 + (v1 % 64 - 32)) * 64 + v % 64;
    }
  }

  function EncodeEscapes(vs: seq<scalar>): seq<byte> {
    if vs == [] then [] else EncodeEscape(vs[0]) + EncodeEscapes(vs[1..])
  }

  /** Escaped scalar values come back as themselves exactly when the encoder keeps all of them. */
  lemma {:induction false} EscapesComeBackIff(vs: seq<scalar>)
    ensures Decode(EncodeEscapes(vs)) == Some(vs) <==> forall i :: 0 <= i < |vs| ==> KeepsValue(vs[i])
  {
    if vs != [] {
      var a, b := EncodeEscape(vs[0]), EncodeEscapes(vs[1..]);
      EscapesComeBackIff(vs[1..]);
      if KeepsValue(vs[0]) {
        GoodEscape(vs[0]);
        CharLenOfPrefix(a, b);
        assert (a + b)[|a|..] == b;
        assert vs == [vs[0]] + vs[1..];
        assert Decode(a + b) == (match Decode(b) case None => None case Some(r) => Some([vs[0]] + r));
        assert forall r: seq<scalar> :: [vs[0]] + r == vs ==> ([vs[0]] + r)[1..] == r;
      } else {
        BadEscape(vs[0], b);
        if CharLen(a + b) > 0 && Decode(a + b).Some? {
          assert Decode(a + b).value[0] == vs[0] - 0x800;
        }
      }
    }
  }

  // ---------------------------------------------------------------------------
  // Parsing

  predicate IsControl(c: int) {
    c <= 0x08 || 0x0A <= c <= 0x1F || c == DELETE
  }

  /** The byte a one-letter escape stands for. */
  function ShortEscape(c: int): Option<byte> {
    if c == 'b' as int then Some(0x08)
    else if c == 'f' as int then Some(0x0C)
    else if c == 'n' as int then Some(0x0A)
    else if c == 'r' as int then Some(0x0D)
    else if c == 't' as int then Some(0x09)
    else if c == QUOTE then Some(0x22)
    else if c == BACKSLASH then Some(0x5C)
    else None
  }

  datatype Escape = Escape(bytes: seq<byte>, next: nat) | BadEscapeSequence

  /** The escape whose letter stands at `i`, behind the backslash. */
  function ParseEscape(items: seq<Codepoint>, i: nat): (r: Escape)
    requires i < |items|
    ensures r.Escape? ==> i < r.next <= |items|
  {
    var c := items[i].value;
    if ShortEscape(c).Some? then
      if i + 1 == |items| then BadEscapeSequence else Escape([ShortEscape(c).value], i + 1)
    else if c == 'u' as int || c == 'U' as int then
      var n := if c == 'U' as int then 8 else 4;
      if !HexDigits(items, i + 1, n) then BadEscapeSequence
      else
        var v := HexValue(items, i + 1, n);
        if IsScalar(v) then Escape(EncodeEscape(v), i + 1 + n) else BadEscapeSequence
    else BadEscapeSequence
  }

  predicate FourBytes(items: seq<Codepoint>) {
    forall i :: 0 <= i < |items| ==> |items[i].bytes| == 4
  }

  /** The rest of a string from position `i` on, after the bytes of `str`. */
  function Body(items: seq<Codepoint>, i: nat, str: seq<byte>): Parsed
    requires i <= |items| && FourBytes(items)
    decreases |items| - i
  {
    if i == |items| then Error
    else
      var c := items[i].value;
      if c == QUOTE then Ok(str, i + 1)
      else if c == BACKSLASH then
        if i + 1 == |items| then Error
        else
          match ParseEscape(items, i + 1)
          case BadEscapeSequence => Error
          case Escape(bytes, next) => Body(items, next, str + bytes)
      else if IsControl(c) || IsSurrogate(c) then Error
      else Body(items, i + 1, str + AsView(items[i].bytes))
  }

  // ---------------------------------------------------------------------------
  // Strings of unicode escapes

  /** How many digits follow the letter of a unicode escape. */
  function EscapeDigits(letter: int): nat {
    if letter == 'U' as int then 8 else 4
  }

  /** At `i` stands a unicode escape, of either length and in any case, of the scalar value. */
  predicate SpelledAt(items: seq<Codepoint>, i: nat, v: scalar) {
    && i + 1 < |items| && items[i].value == BACKSLASH && items[i + 1].value in {'u' as int, 'U' as int}
    && var n := EscapeDigits(items[i + 1].value);
    HexDigits(items, i + 2, n) && HexValue(items, i + 2, n) == v
  }

  /** From `i` on stand escapes of these scalar values and the closing quote. */
  predicate Spelled(items: seq<Codepoint>, i: nat, vs: seq<scalar>)
    decreases vs
  {
    if vs == [] then i < |items| && items[i].value == QUOTE
    else SpelledAt(items, i, vs[0]) && Spelled(items, i + 2 + EscapeDigits(items[i + 1].value), vs[1..])
  }

  lemma OneEscapeParsed(items: seq<Codepoint>, i: nat, v: scalar, str: seq<byte>)
    requires FourBytes(items) && SpelledAt(items, i, v)
    ensures var next := i + 2 + EscapeDigits(items[i + 1].value);
      next <= |items| && Body(items, i, str) == Body(items, next, str + EncodeEscape(v))
  {
    assert IsScalar(v);
    assert ParseEscape(items, i + 1) == Escape(EncodeEscape(v), i + 2 + EscapeDigits(items[i + 1].value));
  }

  lemma {:induction false} EscapesAreParsed(items: seq<Codepoint>, i: nat, vs: seq<scalar>, str: seq<byte>)
    requires FourBytes(items) && Spelled(items, i, vs) && i <= |items|
    ensures Body(items, i, str).Ok? && Body(items, i, str).str == str + EncodeEscapes(vs)
    decreases vs
  {
    if vs == [] {
      assert str + EncodeEscapes(vs) == str;
    } else {
      OneEscapeParsed(items, i, vs[0], str);
      EscapesAreParsed(items, i + 2 + EscapeDigits(items[i + 1].value), vs[1..], str + EncodeEscape(vs[0]));
      Associative(str, EncodeEscape(vs[0]), EncodeEscapes(vs[1..]));
    }
  }

  /**
    A string written as unicode escapes is always accepted, and its bytes are those of the
    scalar values exactly when none of them is in U+0800 to U+FFFF with bit 0x800 set.
   */
  lemma EscapedStringComesBackIff(items: seq<Codepoint>, vs: seq<scalar>)
    requires FourBytes(items) && items != [] && Spelled(items, 1, vs)
    ensures Body(items, 1, []).Ok?
    ensures Decode(Body(items, 1, []).str) == Some(vs) <==> forall i :: 0 <= i < |vs| ==> KeepsValue(vs[i])
  {
    EscapesAreParsed(items, 1, vs, []);
    assert [] + EncodeEscapes(vs) == EncodeEscapes(vs);
    EscapesComeBackIff(vs);
  }

  /** The branch for an escaped code point. */
  method ParseEscaped(items: seq<Codepoint>, start: nat) returns (r: Escape)
    requires start < |items|
    ensures r == ParseEscape(items, start)
  {
    var c := items[start].value;
    var short := ShortEscape(c);
    if short.Some? {
      return if start + 1 == |items| then BadEscapeSequence else Escape([short.value], start + 1);
    }
    if c != 'u' as int && c != 'U' as int {
      return BadEscapeSequence;
    }
    if start + 1 == |items| {
      return BadEscapeSequence;
    }
    var n := if c == 'U' as int then 8 else 4;
    var v := ParseHex(items, start + 1, n);
    if v.None? {
      return BadEscapeSequence;
    }
    if IsSurrogate(v.value) || v.value > 0x10FFFF {
      return BadEscapeSequence;
    }
    return Escape(EncodeEscape(v.value), start + 1 + n);
  }

  /** `parse_basic_string` for single-line strings, from the opening quote on. */
  method ParseBasicString(items: seq<Codepoint>, start: nat) returns (r: Parsed)
    requires FourBytes(items) && start < |items| && items[start].value == QUOTE
    ensures r == Body(items, start + 1, [])
  {
    var i := start + 1;
    var str: seq<byte> := [];
    var escaped := false;
    while i < |items|
      invariant i <= |items|
      invariant escaped ==> start + 1 < i < |items| && items[i - 1].value == BACKSLASH
      invariant Body(items, start + 1, []) == Body(items, if escaped then i - 1 else i, str)
      decreases |items| - i, escaped
    {
      if escaped {
        escaped := false;
        var e := ParseEscaped(items, i);
        if e.BadEscapeSequence? {
          return Error;
        }
        str := str + e.bytes;
        i := e.next;
      } else {
        var c := items[i].value;
        if c == QUOTE {
          return Ok(str, i + 1);
        } else if c == BACKSLASH {
          i := i + 1;
          if i == |items| {
            return Error;
          }
          escaped := true;
        } else if IsControl(c) {
          return Error;
        } else if IsSurrogate(c) {
          return Error;
        } else {
          str := str + AsView(items[i].bytes);
          i := i + 1;
        }
      }
    }
    return Error;
  }

  // ---------------------------------------------------------------------------
  // Printing

  function HexChar(d: nat): (c: byte)
    requires d < 16
    ensures IsHexDigit(c) && HexToDec(c) == d && c <= 0x7F
  {
    if d < 10 then 0x30 + d else 0x37 + d
  }

  /** What is printed for one byte; the first 32 entries are the escape table. */
  function EscapeByte(b: byte): (r: seq<byte>)
    ensures r != [] && (b <= 0x7F ==> forall i :: 0 <= i < |r| ==> r[i] <= 0x7F)
  {
    if b == 0x08 then [BACKSLASH, 'b' as int]
    else if b == 0x09 then [BACKSLASH, 't' as int]
    else if b == 0x0A then [BACKSLASH, 'n' as int]
    else if b == 0x0C then [BACKSLASH, 'f' as int]
    else if b == 0x0D then [BACKSLASH, 'r' as int]
    else if b <= 0x1F || b == DELETE then [BACKSLASH, 'u' as int, 0x30, 0x30, HexChar(b / 16), HexChar(b % 16)]
    else if b == QUOTE then [BACKSLASH, QUOTE]
    else if b == BACKSLASH then [BACKSLASH, BACKSLASH]
    else [b]
  }

  function EscapeBytes(s: seq<byte>): seq<byte> {
    if s == [] then [] else EscapeByte(s[0]) + EscapeBytes(s[1..])
  }

  lemma NextEscape(s: seq<byte>, i: nat)
    requires i < |s|
    ensures EscapeBytes(s[i..]) == EscapeByte(s[i]) + EscapeBytes(s[i + 1..])
  {
    assert s[i..][0] == s[i] && s[i..][1..] == s[i + 1..];
  }

  method PrintWithEscapes(str: seq<byte>) returns (out: seq<byte>)
    ensures out == EscapeBytes(str)
  {
    out := [];
    for i := 0 to |str|
      invariant EscapeBytes(str) == out + EscapeBytes(str[i..])
    {
      var c := str[i];
      NextEscape(str, i);
      Associative(out, EscapeByte(c), EscapeBytes(str[i + 1..]));
      out := out + EscapeByte(c);
    }
  }

  // ---------------------------------------------------------------------------
  // Escaping works on characters

  /** The escape of a character, as characters. */
  function EscapeChar(c: scalar): (r: seq<scalar>)
    ensures r != []
  {
    assert IsScalar(c);
    if c <= 0x7F then Ascii(EscapeByte(c)) else [c]
  }

  function Ascii(s: seq<byte>): (r: seq<scalar>)
    ensures |r| == |s| && forall i :: 0 <= i < |s| ==> r[i] == s[i]
  {
    if s == [] then [] else [s[0]] + Ascii(s[1..])
  }

  function EscapeChars(cs: seq<scalar>): seq<scalar> {
    if cs == [] then [] else EscapeChar(cs[0]) + EscapeChars(cs[1..])
  }

  lemma {:induction false} EncodeAscii(s: seq<byte>)
    requires forall i :: 0 <= i < |s| ==> s[i] <= 0x7F
    ensures EncodeAll(Ascii(s)) == s
  {
    if s != [] {
      EncodeAscii(s[1..]);
      assert Ascii(s)[1..] == Ascii(s[1..]);
      assert Encode(Ascii(s)[0]) == [s[0]];
    }
  }

  lemma EncodeAllCons(c: scalar, cs: seq<scalar>)
    ensures EncodeAll([c] + cs) == Encode(c) + EncodeAll(cs)
  {
    assert ([c] + cs)[1..] == cs;
  }

  lemma EncodedHead(a: seq<scalar>, b: seq<scalar>) returns (e: seq<byte>)
    requires a != []
    ensures EncodeAll(a) == e + EncodeAll(a[1..]) && EncodeAll(a + b) == e + EncodeAll(a[1..] + b)
  {
    e := Encode(a[0]);
    assert a + b == [a[0]] + (a[1..] + b);
    EncodeAllCons(a[0], a[1..] + b);
  }

  lemma {:induction false} EncodeAllSplit(a: seq<scalar>, b: seq<scalar>)
    ensures EncodeAll(a + b) == EncodeAll(a) + EncodeAll(b)
  {
    if a == [] {
      assert a + b == b;
    } else {
      EncodeAllSplit(a[1..], b);
      var e := EncodedHead(a, b);
      Associative(e, EncodeAll(a[1..]), EncodeAll(b));
    }
  }

  lemma {:induction false} EscapeBytesSplit(a: seq<byte>, b: seq<byte>)
    ensures EscapeBytes(a + b) == EscapeBytes(a) + EscapeBytes(b)
  {
    if a == [] {
      assert a + b == b;
    } else {
      EscapeBytesSplit(a[1..], b);
      assert (a + b)[1..] == a[1..] + b;
      Associative(EscapeByte(a[0]), EscapeBytes(a[1..]), EscapeBytes(b));
    }
  }

  lemma {:induction false} EscapeHighBytes(s: seq<byte>)
    requires forall i :: 0 <= i < |s| ==> s[i] >= 0x80
    ensures EscapeBytes(s) == s
  {
    if s != [] {
      EscapeHighBytes(s[1..]);
    }
  }

  lemma EscapeCharBytes(c: scalar)
    ensures EscapeBytes(Encode(c)) == EncodeAll(EscapeChar(c))
  {
    assert IsScalar(c);
    if c <= 0x7F {
      EncodeAscii(EscapeByte(c));
      assert EscapeBytes([c]) == EscapeByte(c) + EscapeBytes([]);
    } else {
      EscapeHighBytes(Encode(c));
      assert EncodeAll([c]) == Encode(c) + EncodeAll([]);
    }
  }

  /** Escaping the bytes of a text gives the bytes of the escaped text. */
  lemma {:induction false} EscapingCommutes(cs: seq<scalar>)
    ensures EscapeBytes(EncodeAll(cs)) == EncodeAll(EscapeChars(cs))
  {
    if cs != [] {
      EscapingCommutes(cs[1..]);
      EscapeBytesSplit(Encode(cs[0]), EncodeAll(cs[1..]));
      EscapeCharBytes(cs[0]);
      EncodeAllSplit(EscapeChar(cs[0]), EscapeChars(cs[1..]));
    }
  }

  // ---------------------------------------------------------------------------
  // The round trip

  /** The items of a text: its values and their encodings. */
  predicate ItemsOf(items: seq<Codepoint>, cs: seq<scalar>) {
    && |items| == |cs|
    && forall i :: 0 <= i < |cs| ==> items[i].value == cs[i] && items[i].bytes == Pad(Encode(cs[i]))
  }

  lemma {:induction false} ItemsOfEncoded(cs: seq<scalar>, before: seq<int>)
    ensures Decode(EncodeAll(cs)) == Some(cs) && ItemsOf(Items(EncodeAll(cs), before), cs)
  {
    DecodeEncode(cs);
    if cs != [] {
      var a, b := Encode(cs[0]), EncodeAll(cs[1..]);
      ItemsOfEncoded(cs[1..], before + [cs[0]]);
      CharLenOfPrefix(a, b);
      assert (a + b)[|a|..] == b && (a + b)[..|a|] == a;
      var rest := Items(b, before + [cs[0]]);
      assert Items(a + b, before) == [Codepoint(cs[0], Pad(a), PositionAfter(before))] + rest;
    }
  }

  /** The text `"\u0800"`. */
  const QUOTED_ESCAPE: seq<scalar> :=
    [QUOTE, BACKSLASH, 'u' as int, '0' as int, '8' as int, '0' as int, '0' as int, QUOTE]

  lemma EscapeNumber(items: seq<Codepoint>)
    requires |items| == 8
    requires items[3].value == 0x30 && items[4].value == 0x38 && items[5].value == 0x30 && items[6].value == 0x30
    ensures HexDigits(items, 3, 4) && HexValue(items, 3, 4) == 0x800
  {
    assert HexValue(items, 3, 0) == 0;
    assert HexValue(items, 3, 1) == 0;
    assert HexValue(items, 3, 2) == 8;
    assert HexValue(items, 3, 3) == 0x80;
  }

  lemma EscapeIsSpelled(items: seq<Codepoint>)
    requires |items| == 8 && items[1].value == BACKSLASH && items[2].value == 'u' as int && items[7].value == QUOTE
    requires items[3].value == 0x30 && items[4].value == 0x38 && items[5].value == 0x30 && items[6].value == 0x30
    ensures Spelled(items, 1, [0x800])
  {
    EscapeNumber(items);
    var vs: seq<scalar> := [0x800];
    assert EscapeDigits(items[2].value) == 4;
    assert SpelledAt(items, 1, vs[0]);
    assert vs[1..] == [] && Spelled(items, 7, vs[1..]);
  }

  lemma ReadEscape() returns (items: seq<Codepoint>)
    ensures Decode(EncodeAll(QUOTED_ESCAPE)).Some? && items == Items(EncodeAll(QUOTED_ESCAPE), [])
    ensures FourBytes(items) && |items| == 8 && forall i :: 0 <= i < 8 ==> items[i].value == QUOTED_ESCAPE[i]
  {
    ItemsOfEncoded(QUOTED_ESCAPE, []);
    items := Items(EncodeAll(QUOTED_ESCAPE), []);
  }

  /** The string `"\u0800"`, as read, is accepted and gives other bytes than those of U+0800. */
  lemma LostBit() returns (items: seq<Codepoint>)
    ensures Decode(EncodeAll(QUOTED_ESCAPE)).Some? && items == Items(EncodeAll(QUOTED_ESCAPE), []) && items != []
    ensures FourBytes(items) && Body(items, 1, []).Ok? && Decode(Body(items, 1, []).str) != Some([0x800])
  {
    items := ReadEscape();
    EscapeIsSpelled(items);
    BitIsLost(items);
  }

  lemma BitIsLost(items: seq<Codepoint>)
    requires FourBytes(items) && items != [] && Spelled(items, 1, [0x800])
    ensures Body(items, 1, []).Ok? && Decode(Body(items, 1, []).str) != Some([0x800])
  {
    EscapedStringComesBackIff(items, [0x800]);
  }

  lemma ViewOfScalar(c: scalar)
    requires c != 0
    ensures AsView(Pad(Encode(c))) == Encode(c)
  {
    assert IsScalar(c);
    ViewOfChar(Encode(c));
    assert Encode(c)[..|Encode(c)|] == Encode(c);
  }

  /** From position `i` on, the items have the values of `e`. */
  predicate Matches(items: seq<Codepoint>, i: nat, e: seq<scalar>) {
    i + |e| <= |items| && forall j :: 0 <= j < |e| ==> items[i + j].value == e[j]
  }

  /** Every item carries the encoding of its value. */
  predicate Encoded(items: seq<Codepoint>) {
    && FourBytes(items)
    && forall j {:trigger AsView(items[j].bytes)} :: 0 <= j < |items| && IsScalar(items[j].value) && items[j].value != 0 ==>
         AsView(items[j].bytes) == Encode(items[j].value)
  }

  lemma PlainComesBack(items: seq<Codepoint>, i: nat, c: scalar, str: seq<byte>)
    requires Encoded(items) && i < |items| && items[i].value == c && c != QUOTE && c != BACKSLASH && !IsControl(c)
    ensures Body(items, i, str) == Body(items, i + 1, str + Encode(c))
  {
    assert IsScalar(c);
  }

  lemma ShortComesBack(items: seq<Codepoint>, i: nat, letter: int, b: byte, str: seq<byte>)
    requires FourBytes(items) && i + 2 < |items| && items[i].value == BACKSLASH && items[i + 1].value == letter
    requires ShortEscape(letter) == Some(b)
    ensures Body(items, i, str) == Body(items, i + 2, str + [b])
  {
  }

  /** Reading the escape printed for a control character gives the character back. */
  lemma LongEscapeComesBack(items: seq<Codepoint>, i: nat, b: byte)
    requires b <= 0x7F && i + 5 < |items| && items[i].value == 'u' as int
    requires items[i + 1].value == 0x30 && items[i + 2].value == 0x30
    requires items[i + 3].value == HexChar(b / 16) && items[i + 4].value == HexChar(b % 16)
    ensures ParseEscape(items, i) == Escape([b], i + 5)
  {
    assert HexDigits(items, i + 1, 4);
    assert HexValue(items, i + 1, 1) == 0;
    assert HexValue(items, i + 1, 2) == 0;
    assert HexValue(items, i + 1, 3) == b / 16;
    assert HexValue(items, i + 1, 4) == b / 16 * 16 + b % 16 == b;
  }

  lemma LongComesBack(items: seq<Codepoint>, i: nat, b: byte, str: seq<byte>)
    requires FourBytes(items) && b <= 0x7F && i + 6 < |items| && items[i].value == BACKSLASH && items[i + 1].value == 'u' as int
    requires items[i + 2].value == 0x30 && items[i + 3].value == 0x30
    requires items[i + 4].value == HexChar(b / 16) && items[i + 5].value == HexChar(b % 16)
    ensures Body(items, i, str) == Body(items, i + 6, str + [b])
  {
    LongEscapeComesBack(items, i + 1, b);
  }

  /** A character stands for itself, or is escaped with a letter or with its number. */
  predicate IsEscapeOf(e: seq<scalar>, c: scalar) {
    || (e == [c] && c != QUOTE && c != BACKSLASH && !IsControl(c))
    || (|e| == 2 && c <= 0x7F && e[0] == BACKSLASH && ShortEscape(e[1]) == Some(c))
    || (|e| == 6 && 0 <= c <= 0x7F && e[0] == BACKSLASH && e[1] == 'u' as int && e[2] == 0x30 && e[3] == 0x30
        && e[4] == HexChar(c / 16) && e[5] == HexChar(c % 16))
  }

  lemma EscapeCharIsEscape(c: scalar)
    ensures IsEscapeOf(EscapeChar(c), c)
  {
    assert IsScalar(c);
  }

  /** One printed character and something behind it: the parser consumes the character. */
  lemma CharComesBack(items: seq<Codepoint>, i: nat, c: scalar, e: seq<scalar>, str: seq<byte>)
    requires Encoded(items) && Matches(items, i, e) && i + |e| < |items| && IsEscapeOf(e, c)
    ensures Body(items, i, str) == Body(items, i + |e|, str + Encode(c))
  {
    assert IsScalar(c);
    assert items[i].value == items[i + 0].value == e[0];
    if |e| == 1 {
      PlainComesBack(items, i, c, str);
    } else if |e| == 2 {
      assert items[i + 1].value == e[1];
      ShortComesBack(items, i, e[1], c, str);
    } else {
      assert items[i + 1].value == e[1] && items[i + 2].value == e[2] && items[i + 3].value == e[3];
      assert items[i + 4].value == e[4] && items[i + 5].value == e[5];
      LongComesBack(items, i, c, str);
    }
  }

  lemma MatchesSplit(items: seq<Codepoint>, i: nat, a: seq<scalar>, b: seq<scalar>)
    requires Matches(items, i, a + b)
    ensures Matches(items, i, a) && Matches(items, i + |a|, b)
  {
    forall j | 0 <= j < |a| ensures items[i + j].value == a[j] {
      assert (a + b)[j] == a[j];
    }
    forall j | 0 <= j < |b| ensures items[i + |a| + j].value == b[j] {
      assert (a + b)[|a| + j] == b[j] && items[i + (|a| + j)].value == (a + b)[|a| + j];
    }
  }

  lemma QuoteEnds(items: seq<Codepoint>, i: nat, str: seq<byte>)
    requires FourBytes(items) && i < |items| && items[i].value == QUOTE
    ensures Body(items, i, str) == Ok(str, i + 1)
  {
  }

  /** From position `i` on, the items are those of `e` and the closing quote. */
  predicate EndsWith(items: seq<Codepoint>, i: nat, e: seq<scalar>) {
    Encoded(items) && |items| == i + |e| + 1 && Matches(items, i, e) && items[|items| - 1].value == QUOTE
  }

  lemma EndsWithSplit(items: seq<Codepoint>, i: nat, a: seq<scalar>, b: seq<scalar>)
    requires EndsWith(items, i, a + b)
    ensures Matches(items, i, a) && i + |a| < |items| && EndsWith(items, i + |a|, b)
  {
    MatchesSplit(items, i, a, b);
  }

  lemma FirstEscape(items: seq<Codepoint>, i: nat, cs: seq<scalar>) returns (e: seq<scalar>)
    requires cs != [] && EndsWith(items, i, EscapeChars(cs))
    ensures IsEscapeOf(e, cs[0]) && Matches(items, i, e) && i + |e| < |items|
    ensures EndsWith(items, i + |e|, EscapeChars(cs[1..]))
  {
    e := EscapeChar(cs[0]);
    EscapeCharIsEscape(cs[0]);
    EndsWithSplit(items, i, e, EscapeChars(cs[1..]));
  }

  /** Consuming the first character of the rest of a printed string. */
  lemma FirstComesBack(items: seq<Codepoint>, i: nat, cs: seq<scalar>, str: seq<byte>) returns (next: nat, more: seq<byte>)
    requires cs != [] && EndsWith(items, i, EscapeChars(cs))
    ensures EndsWith(items, next, EscapeChars(cs[1..]))
    ensures Body(items, i, str) == Body(items, next, more) && more + EncodeAll(cs[1..]) == str + EncodeAll(cs)
  {
    var e := FirstEscape(items, i, cs);
    CharComesBack(items, i, cs[0], e, str);
    next, more := i + |e|, str + Encode(cs[0]);
    Associative(str, Encode(cs[0]), EncodeAll(cs[1..]));
  }

  lemma {:induction false} BodyComesBack(items: seq<Codepoint>, i: nat, cs: seq<scalar>, str: seq<byte>)
    requires EndsWith(items, i, EscapeChars(cs))
    ensures Body(items, i, str) == Ok(str + EncodeAll(cs), |items|)
    decreases |cs|
  {
    if cs == [] {
      QuoteEnds(items, i, str);
      assert str + EncodeAll(cs) == str;
    } else {
      var next, more := FirstComesBack(items, i, cs, str);
      BodyComesBack(items, next, cs[1..], more);
    }
  }

  lemma ItemsAreEncoded(items: seq<Codepoint>, cs: seq<scalar>)
    requires ItemsOf(items, cs)
    ensures Encoded(items)
  {
    forall j | 0 <= j < |items| && items[j].value != 0 ensures AsView(items[j].bytes) == Encode(cs[j]) {
      ViewOfScalar(cs[j]);
    }
  }

  /** A printed string: the escaped bytes between quotes. */
  function Quoted(s: seq<byte>): seq<byte> {
    [QUOTE] + EscapeBytes(s) + [QUOTE]
  }

  /** The characters of a printed string. */
  function QuotedChars(cs: seq<scalar>): seq<scalar> {
    [QUOTE] + EscapeChars(cs) + [QUOTE]
  }

  lemma EncodeQuoted(cs: seq<scalar>)
    ensures EncodeAll(QuotedChars(cs)) == Quoted(EncodeAll(cs))
  {
    var quote: seq<scalar> := [QUOTE];
    EscapingCommutes(cs);
    assert EncodeAll(quote) == Encode(QUOTE) + EncodeAll([]) == [QUOTE];
    EncodeAllSplit(quote + EscapeChars(cs), quote);
    EncodeAllSplit(quote, EscapeChars(cs));
  }

  lemma QuotedIsPrinted(items: seq<Codepoint>, cs: seq<scalar>)
    requires ItemsOf(items, QuotedChars(cs))
    ensures EndsWith(items, 1, EscapeChars(cs)) && items[0].value == QUOTE
  {
    var text := QuotedChars(cs);
    ItemsAreEncoded(items, text);
    assert forall j :: 0 <= j < |EscapeChars(cs)| ==> text[1 + j] == EscapeChars(cs)[j];
  }

  /**
    Printing with escapes and parsing is the identity: for every well-formed
    byte string, reading the quoted text as UTF-8 and parsing it returns the
    same bytes and consumes the whole text.
   */
  lemma PrintedStringParsesBack(s: seq<byte>)
    requires Decode(s).Some?
    ensures Decode(Quoted(s)).Some?
    ensures var items := Items(Quoted(s), []);
            && FourBytes(items) && items != [] && items[0].value == QUOTE
            && Body(items, 1, []) == Ok(s, |items|)
  {
    var cs := Decode(s).value;
    EncodeDecode(s);
    EncodeQuoted(cs);
    ItemsOfEncoded(QuotedChars(cs), []);
    var items := Items(Quoted(s), []);
    QuotedIsPrinted(items, cs);
    BodyComesBack(items, 1, cs, []);
    assert [] + EncodeAll(cs) == s;
  }

  lemma QuotedTextParsesBack(s: seq<byte>, text: seq<byte>)
    requires Decode(s).Some? && text == Quoted(s)
    ensures Content(text) == text && Decode(text).Some?
    ensures var items := Items(text, []);
            FourBytes(items) && items != [] && items[0].value == QUOTE && Body(items, 1, []) == Ok(s, |items|)
  {
    PrintedStringParsesBack(s);
    QuotedHasNothingToTrim(s);
  }

  /** The reader delivers the characters of a printed string. */
  method ReadQuoted(text: seq<byte>, ghost s: seq<byte>) returns (items: seq<Codepoint>)
    requires Decode(s).Some? && text == Quoted(s)
    ensures FourBytes(items) && items != [] && items[0].value == QUOTE && Body(items, 1, []) == Ok(s, |items|)
  {
    QuotedTextParsesBack(s, text);
    var read := ReadAll(text);
    items := read.value;
  }

  /** The same through the reader, printer and parser themselves. */
  method RoundTrip(s: seq<byte>) returns (r: Parsed)
    requires Decode(s).Some?
    ensures r.Ok? && r.str == s
  {
    var printed := PrintWithEscapes(s);
    var items := ReadQuoted([QUOTE] + printed + [QUOTE], s);
    r := ParseBasicString(items, 0);
  }

  lemma QuotedHasNothingToTrim(s: seq<byte>)
    ensures Content(Quoted(s)) == Quoted(s)
  {
    var q := Quoted(s);
    assert q[|q| - 1] == QUOTE && q[0] == QUOTE;
    assert TrimmedLength(q) == |q|;
    assert q[..|q|] == q;
  }
}
