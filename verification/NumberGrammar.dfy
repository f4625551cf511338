/**
  The grammar of integers: groups of digits with single underscores between them, and the
  number that the digits stand for.
 */
module NumberGrammar {
  import opened Basics
  import opened Numerals
  import BasicString
  import opened Integer
  import opened NumberValue

  // ---------------------------------------------------------------------------
  // Digits

  lemma DigitWritten(base: nat, c: int, d: nat)
    requires IsBase(base)
    ensures d < base && Writes(c, d) ==> IsDigit(base, c) && DigitValue(base, c) == d
    ensures IsDigit(base, c) ==> 0 <= DigitValue(base, c) < base && Writes(c, DigitValue(base, c))
  {
    BasicString.HexDigitsAreWritten(c, d);
    if IsDigit(base, c) {
      BasicString.HexDigitsAreWritten(c, DigitValue(base, c));
    }
  }

  lemma WrittenButLast(base: nat, text: seq<int>, ds: seq<nat>)
    requires WritesAll(base, text, ds) && ds != []
    ensures WritesAll(base, text[..|ds| - 1], ds[..|ds| - 1])
    ensures ds[|ds| - 1] < base && Writes(text[|ds| - 1], ds[|ds| - 1])
  {
  }

  lemma ValueOfLast(base: nat, text: seq<int>, c: int)
    requires IsBase(base) && AllDigits(base, text) && IsDigit(base, c)
    ensures AllDigits(base, text + [c]) && Value(base, text + [c]) == Value(base, text) * base + DigitValue(base, c)
  {
    assert (text + [c])[..|text|] == text;
  }

  /** Digits are worth what their places say. */
  lemma {:induction false} ValueIsPositional(base: nat, text: seq<int>, ds: seq<nat>)
    requires IsBase(base) && WritesAll(base, text, ds)
    ensures AllDigits(base, text) && Value(base, text) == Positional(base, ds)
  {
    if ds != [] {
      var n := |ds| - 1;
      WrittenButLast(base, text, ds);
      ValueIsPositional(base, text[..n], ds[..n]);
      DigitWritten(base, text[n], ds[n]);
      assert text == text[..n] + [text[n]];
      ValueOfLast(base, text[..n], text[n]);
    }
  }

  lemma {:induction false} DigitsAreWritten(base: nat, text: seq<int>) returns (ds: seq<nat>)
    requires IsBase(base) && AllDigits(base, text)
    ensures WritesAll(base, text, ds)
    decreases text
  {
    ds := [];
    if text != [] {
      var n := |text| - 1;
      var rest := DigitsAreWritten(base, text[..n]);
      DigitWritten(base, text[n], 0);
      ds := rest + [DigitValue(base, text[n])];
    }
  }

  // ---------------------------------------------------------------------------
  // Groups

  function Join(gs: seq<seq<int>>): seq<int>
    requires gs != []
  {
    if |gs| == 1 then gs[0] else gs[0] + ['_' as int] + Join(gs[1..])
  }

  function Flat(gs: seq<seq<int>>): seq<int> {
    if gs == [] then [] else gs[0] + Flat(gs[1..])
  }

  predicate Groups(base: nat, gs: seq<seq<int>>) {
    gs != [] && forall i :: 0 <= i < |gs| ==> gs[i] != [] && AllDigits(base, gs[i])
  }

  lemma {:induction false} StripConcat(a: seq<int>, b: seq<int>)
    ensures Strip(a + b) == Strip(a) + Strip(b)
    decreases b
  {
    if b == [] {
      assert a + b == a;
    } else {
      var n, c := |b| - 1, b[|b| - 1];
      StripConcat(a, b[..n]);
      assert a + b == (a + b[..n]) + [c] && b == b[..n] + [c];
      StripAppend(a + b[..n], c);
      StripAppend(b[..n], c);
    }
  }

  lemma StripDigitsOnly(base: nat, d: seq<int>)
    requires IsBase(base) && AllDigits(base, d)
    ensures Strip(d) == d
  {
    forall i | 0 <= i < |d| ensures d[i] != UNDERSCORE { assert IsDigit(base, d[i]); }
    StripNothing(d);
  }

  /** Digits, an underscore, and what is separated again. */
  lemma SeparatedCons(base: nat, g: seq<int>, t: seq<int>)
    requires IsBase(base) && g != [] && AllDigits(base, g) && t != [] && Separated(base, t)
    ensures Separated(base, g + [UNDERSCORE] + t)
  {
    var all := g + [UNDERSCORE] + t;
    var n := |g|;
    assert InPlace(base, t, 0) && t[0] != UNDERSCORE;
    forall k | 0 <= k < |all| ensures InPlace(base, all, k) {
      if k < n {
        assert all[k] == g[k] && IsDigit(base, g[k]);
      } else if k == n {
        assert all[n - 1] == g[n - 1] && all[n + 1] == t[0];
      } else {
        var j := k - n - 1;
        assert all[k] == t[j] && InPlace(base, t, j);
        assert j > 0 ==> all[k - 1] == t[j - 1];
        assert j + 1 < |t| ==> all[k + 1] == t[j + 1];
      }
    }
  }

  lemma DigitsAreSeparated(base: nat, d: seq<int>)
    requires IsBase(base) && AllDigits(base, d)
    ensures Separated(base, d)
  {
    forall k | 0 <= k < |d| ensures InPlace(base, d, k) { assert IsDigit(base, d[k]); }
  }

  lemma StripGroup(base: nat, g: seq<int>)
    requires IsBase(base) && AllDigits(base, g)
    ensures Strip(g + [UNDERSCORE]) == g
  {
    StripDigitsOnly(base, g);
    StripAppend(g, UNDERSCORE);
    assert g + [] == g;
  }

  lemma StripCons(base: nat, g: seq<int>, t: seq<int>)
    requires IsBase(base) && AllDigits(base, g)
    ensures Strip(g + [UNDERSCORE] + t) == g + Strip(t)
  {
    StripGroup(base, g);
    StripConcat(g + [UNDERSCORE], t);
  }

  lemma OneGroup(base: nat, gs: seq<seq<int>>)
    requires IsBase(base) && Groups(base, gs) && |gs| == 1
    ensures Join(gs) != [] && Separated(base, Join(gs)) && Strip(Join(gs)) == Flat(gs)
  {
    StripDigitsOnly(base, gs[0]);
    DigitsAreSeparated(base, gs[0]);
    assert gs[1..] == [];
    assert gs[0] + [] == gs[0];
  }

  /** Groups joined by underscores are in place, and without the underscores they are all the digits. */
  lemma {:induction false} JoinedIsSeparated(base: nat, gs: seq<seq<int>>)
    requires IsBase(base) && Groups(base, gs)
    ensures Join(gs) != [] && Separated(base, Join(gs)) && Strip(Join(gs)) == Flat(gs)
    decreases gs
  {
    if |gs| == 1 {
      OneGroup(base, gs);
    } else {
      var g, rest := gs[0], gs[1..];
      assert Groups(base, rest);
      JoinedIsSeparated(base, rest);
      SeparatedCons(base, g, Join(rest));
      StripCons(base, g, Join(rest));
    }
  }

  /** The first group of a token, and the rest of it. */
  function FirstGroup(t: seq<int>): (n: nat)
    ensures n <= |t| && (forall i :: 0 <= i < n ==> t[i] != UNDERSCORE) && (n < |t| ==> t[n] == UNDERSCORE)
  {
    if t == [] || t[0] == UNDERSCORE then 0 else 1 + FirstGroup(t[1..])
  }

  lemma SeparatedTail(base: nat, t: seq<int>, n: nat)
    requires IsBase(base) && Separated(base, t) && n < |t| && t[n] == UNDERSCORE
    ensures n > 0 && n + 1 < |t| && Separated(base, t[n + 1..])
  {
    assert InPlace(base, t, n);
    var u := t[n + 1..];
    forall k | 0 <= k < |u| ensures InPlace(base, u, k) {
      assert u[k] == t[n + 1 + k] && InPlace(base, t, n + 1 + k);
      assert k > 0 ==> u[k - 1] == t[n + k];
      assert k + 1 < |u| ==> u[k + 1] == t[n + 2 + k];
    }
  }

  lemma {:induction false} SeparatedIsJoined(base: nat, t: seq<int>) returns (gs: seq<seq<int>>)
    requires IsBase(base) && Separated(base, t) && t != []
    ensures Groups(base, gs) && Join(gs) == t
    decreases |t|
  {
    var n := FirstGroup(t);
    assert InPlace(base, t, 0);
    var g := t[..n];
    forall i | 0 <= i < n ensures IsDigit(base, g[i]) { assert InPlace(base, t, i); }
    if n == |t| {
      gs := [g];
    } else {
      SeparatedTail(base, t, n);
      var rest := SeparatedIsJoined(base, t[n + 1..]);
      gs := [g] + rest;
      assert gs[1..] == rest && t == g + [UNDERSCORE] + t[n + 1..];
    }
  }

  // ---------------------------------------------------------------------------
  // Integers as written

  /** Groups that write the digits. */
  predicate Written(base: nat, gs: seq<seq<int>>, ds: seq<nat>) {
    Groups(base, gs) && WritesAll(base, Flat(gs), ds)
  }

  /** The text is a token with the digits; every token is such a text. */
  lemma TokenOf(base: nat, gs: seq<seq<int>>, ds: seq<nat>)
    requires IsBase(base) && Written(base, gs, ds)
    ensures Join(gs) != [] && Separated(base, Join(gs)) && Strip(Join(gs)) == Flat(gs) && AllDigits(base, Flat(gs))
    ensures Value(base, Flat(gs)) == Positional(base, ds)
  {
    JoinedIsSeparated(base, gs);
    ValueIsPositional(base, Flat(gs), ds);
  }

  lemma WrittenOf(base: nat, t: seq<int>) returns (gs: seq<seq<int>>, ds: seq<nat>)
    requires IsBase(base) && Separated(base, t) && t != []
    ensures Written(base, gs, ds) && Join(gs) == t
  {
    gs := SeparatedIsJoined(base, t);
    JoinedIsSeparated(base, gs);
    StripDigits(base, t);
    ds := DigitsAreWritten(base, Flat(gs));
  }

  predicate MaySign(sign: string) {
    sign == "" || sign == "+" || sign == "-"
  }

  function Negated(sign: string, v: int): int {
    if sign == "-" then -v else v
  }

  function Codes(text: string): seq<int> {
    seq(|text|, i requires 0 <= i < |text| => text[i] as int)
  }

  lemma SignCodes(sign: string)
    requires MaySign(sign)
    ensures IsSign(Codes(sign)) && |Codes(sign)| == |sign| && (Codes(sign) == [MINUS] <==> sign == "-")
  {
    if sign == "+" {
      assert Codes(sign) == [PLUS];
    } else if sign == "-" {
      assert Codes(sign) == [MINUS];
    } else {
      assert Codes(sign) == [];
    }
  }

  /** A decimal of that sign and those digits: no superfluous zero, and in the range of signed 64-bit numbers. */
  function DecimalOf(sign: string, ds: seq<nat>, length: nat): Parsed {
    var v := Negated(sign, Positional(10, ds));
    if |ds| > 1 && ds[0] == 0 then Error
    else if v < -0x8000_0000_0000_0000 || v > 0x7FFF_FFFF_FFFF_FFFF then Error
    else Ok(v, length)
  }

  lemma ZeroIsWritten(gs: seq<seq<int>>, ds: seq<nat>)
    requires Written(10, gs, ds)
    ensures ds != [] && (Flat(gs)[0] == ZERO <==> ds[0] == 0)
    ensures |Join(gs)| > 1 <==> |ds| > 1
  {
    TokenOf(10, gs, ds);
    DigitWritten(10, Flat(gs)[0], ds[0]);
    if |Join(gs)| > 1 {
      TwoKept(Join(gs));
    }
  }

  lemma JudgedAsDecimal(s: seq<int>, length: nat, d: seq<int>, sign: string, ds: seq<nat>)
    requires AllDigits(10, d) && d != [] && ds != [] && Value(10, d) == Positional(10, ds)
    requires (d[0] == ZERO <==> ds[0] == 0) && (length > 1 <==> |ds| > 1) && (s == [MINUS] <==> sign == "-")
    ensures Judged(s, length, d) == DecimalOf(sign, ds, |s| + length)
  {
  }

  lemma DecimalValueIs(s: seq<int>, t: seq<int>, d: seq<int>)
    requires Separated(10, t) && t != [] && Strip(t) == d && AllDigits(10, d) && d != []
    ensures DecimalValue(s, t) == Judged(s, |t|, d)
  {
  }

  /** The digits of a token, and what they say. */
  predicate Digital(t: seq<int>, d: seq<int>, ds: seq<nat>) {
    && Separated(10, t) && t != [] && Strip(t) == d && AllDigits(10, d) && d != [] && ds != []
    && Value(10, d) == Positional(10, ds) && (d[0] == ZERO <==> ds[0] == 0) && (|t| > 1 <==> |ds| > 1)
  }

  lemma WrittenIsDigital(gs: seq<seq<int>>, ds: seq<nat>) returns (d: seq<int>)
    requires Written(10, gs, ds)
    ensures Digital(Join(gs), d, ds)
  {
    TokenOf(10, gs, ds);
    ZeroIsWritten(gs, ds);
    d := Flat(gs);
  }

  lemma SignedIsDecimal(sign: string, t: seq<int>, d: seq<int>, ds: seq<nat>)
    requires MaySign(sign) && Digital(t, d, ds)
    ensures IsSign(Codes(sign)) && DecimalValue(Codes(sign), t) == DecimalOf(sign, ds, |sign| + |t|)
  {
    SignCodes(sign);
    DecimalValueIs(Codes(sign), t, d);
    JudgedAsDecimal(Codes(sign), |t|, d, sign, ds);
  }

  lemma ReadAs(s: seq<int>, t: seq<int>, rest: seq<int>, expected: Parsed)
    requires IsSign(s) && EndsValue(rest) && Separated(10, t) && t != [] && DecimalValue(s, t) == expected
    ensures s + t + rest != [] && NumberAt(s + t + rest, 0) == Some(expected)
  {
    DecimalValues(s, t, rest);
  }

  /** The text is read as the decimal of that sign and those digits. */
  predicate ReadsDecimal(cps: seq<int>, sign: string, ds: seq<nat>, length: nat) {
    cps != [] && NumberAt(cps, 0) == Some(DecimalOf(sign, ds, length))
  }

  lemma {:induction false} WrittenIsDecimal(sign: string, gs: seq<seq<int>>, ds: seq<nat>)
    requires MaySign(sign) && Written(10, gs, ds)
    ensures IsSign(Codes(sign)) && Join(gs) != [] && Separated(10, Join(gs))
    ensures DecimalValue(Codes(sign), Join(gs)) == DecimalOf(sign, ds, |sign| + |Join(gs)|)
  {
    var d := WrittenIsDigital(gs, ds);
    SignedIsDecimal(sign, Join(gs), d, ds);
  }

  /** Every decimal, with any sign and any groups, is read as its digits say. */
  lemma {:induction false} DecimalsAreRead(sign: string, gs: seq<seq<int>>, ds: seq<nat>, rest: seq<int>)
    requires MaySign(sign) && Written(10, gs, ds) && EndsValue(rest)
    ensures ReadsDecimal(Codes(sign) + Join(gs) + rest, sign, ds, |sign| + |Join(gs)|)
  {
    WrittenIsDecimal(sign, gs, ds);
    ReadAs(Codes(sign), Join(gs), rest, DecimalOf(sign, ds, |sign| + |Join(gs)|));
  }

  // ---------------------------------------------------------------------------
  // Numbers with a prefix

  function PrefixOf(base: nat): string {
    if base == 2 then "0b" else if base == 8 then "0o" else "0x"
  }

  /** The most digits the parser takes. */
  function MostDigits(base: nat): nat {
    if base == 2 then 63 else if base == 8 then 21 else 16
  }

  function PrefixedOf(base: nat, ds: seq<nat>, length: nat): Parsed {
    if |ds| > MostDigits(base) || Positional(base, ds) > 0x7FFF_FFFF_FFFF_FFFF then Error
    else Ok(Positional(base, ds), length)
  }

  lemma PrefixCodes(base: nat)
    requires base in {2, 8, 16}
    ensures Codes(PrefixOf(base)) == [ZERO, Prefix(base)]
  {
  }

  lemma PrefixedValueIs(base: nat, t: seq<int>, rest: seq<int>, d: seq<int>, v: nat)
    requires base in {2, 8, 16} && Separated(base, t) && t != [] && Strip(t) == d && AllDigits(base, d) && v == Value(base, d)
    ensures v < Pow(base, |d|)
    ensures PrefixedValue(base, t, rest) ==
      if |d| > BufferLength(base) || (base == 16 && v > INT64_MAX) then Error else Ok(v, 2 + |t|)
  {
  }

  /** Numbers of few binary or octal digits are in range. */
  lemma FewDigitsFit(base: nat, n: nat, v: nat)
    requires base in {2, 8} && n <= MostDigits(base) && v < Pow(base, n)
    ensures v <= INT64_MAX
  {
    PowMonotone(base, n, MostDigits(base));
    SmallBuffers();
  }

  lemma PrefixedExpected(base: nat, t: seq<int>, rest: seq<int>, d: seq<int>, ds: seq<nat>, v: nat)
    requires base in {2, 8, 16} && Separated(base, t) && t != [] && Strip(t) == d && AllDigits(base, d)
    requires |d| == |ds| && Value(base, d) == v == Positional(base, ds)
    ensures PrefixedValue(base, t, rest) == PrefixedOf(base, ds, 2 + |t|)
  {
    PrefixedValueIs(base, t, rest, d, v);
    if base != 16 && |ds| <= MostDigits(base) {
      FewDigitsFit(base, |ds|, v);
    }
  }

  lemma PrefixedToken(base: nat, t: seq<int>, rest: seq<int>, expected: Parsed)
    requires base in {2, 8, 16} && Separated(base, t) && EndsValue(rest) && |t| + 2 < SCAN && PrefixedValue(base, t, rest) == expected
    ensures NumberAt([ZERO, Prefix(base)] + t + rest, 0) == Some(expected)
  {
    PrefixedValuesIff(base, t, rest);
  }

  /**
    A binary, octal or hexadecimal number of fewer than 72 characters, with any groups, is read
    as the number its digits stand for.  It is refused exactly when that is no signed 64-bit
    number or it has more than 63, 21 or 16 digits.
   */
  lemma {:induction false} PrefixedAreRead(base: nat, gs: seq<seq<int>>, ds: seq<nat>, rest: seq<int>) returns (cps: seq<int>, r: Parsed)
    requires base in {2, 8, 16} && Written(base, gs, ds) && EndsValue(rest) && |Join(gs)| + 2 < SCAN
    ensures cps == Codes(PrefixOf(base)) + Join(gs) + rest && r == PrefixedOf(base, ds, 2 + |Join(gs)|)
    ensures cps != [] && NumberAt(cps, 0) == Some(r)
  {
    cps, r := Codes(PrefixOf(base)) + Join(gs) + rest, PrefixedOf(base, ds, 2 + |Join(gs)|);
    TokenOf(base, gs, ds);
    PrefixedExpected(base, Join(gs), rest, Flat(gs), ds, Positional(base, ds));
    PrefixCodes(base);
    PrefixedToken(base, Join(gs), rest, r);
  }

  lemma ScaledAtLeast(p: nat, q: nat, base: nat)
    requires p <= q
    ensures base * p <= q * base
  {
    assert (q - p) * base >= 0;
  }

  lemma {:induction false} PositionalAtLeast(base: nat, ds: seq<nat>)
    requires base > 0 && ds != [] && ds[0] != 0
    ensures Positional(base, ds) >= Pow(base, |ds| - 1)
  {
    if |ds| > 1 {
      var init := ds[..|ds| - 1];
      PositionalAtLeast(base, init);
      ScaledAtLeast(Pow(base, |init| - 1), Positional(base, init), base);
    }
  }

  lemma HugePower(base: nat)
    requires base in {2, 8, 16}
    ensures Pow(base, MostDigits(base)) > 0x7FFF_FFFF_FFFF_FFFF
  {
    if base == 16 {
      assert Pow(16, 4) == 0x1_0000;
      PowSum(16, 4, 4);
      PowSum(16, 8, 8);
    } else {
      SmallBuffers();
    }
  }

  /** Without superfluous zeros only numbers out of range have too many digits. */
  lemma ManyDigitsAreTooLarge(base: nat, ds: seq<nat>)
    requires base in {2, 8, 16} && ds != [] && ds[0] != 0 && |ds| > MostDigits(base)
    ensures Positional(base, ds) > 0x7FFF_FFFF_FFFF_FFFF
  {
    HugePower(base);
    PositionalAtLeast(base, ds);
    PowMonotone(base, MostDigits(base), |ds| - 1);
  }

  const ZEROS_AND_ONE: seq<nat> := [0, 0, 0, 0, 0, 0, 0, 0, 0, 0, 0, 0, 0, 0, 0, 0, 1]

  lemma {:induction false} ZerosAreWorthNothing(n: nat)
    requires n <= 16
    ensures Positional(16, ZEROS_AND_ONE[..n]) == 0
  {
    if n > 0 {
      ZerosAreWorthNothing(n - 1);
      assert ZEROS_AND_ONE[..n][..n - 1] == ZEROS_AND_ONE[..n - 1];
    }
  }

  /** The text of `ZEROS_AND_ONE`. */
  const SEVENTEEN: seq<int> := seq(17, i => if i == 16 then 0x31 else 0x30)

  lemma SeventeenDigits()
    ensures Written(16, [SEVENTEEN], ZEROS_AND_ONE) && Join([SEVENTEEN]) == SEVENTEEN
  {
    assert Flat([SEVENTEEN]) == SEVENTEEN + Flat([]) == SEVENTEEN;
    forall i | 0 <= i < 17 ensures ZEROS_AND_ONE[i] < 16 && Writes(SEVENTEEN[i], ZEROS_AND_ONE[i]) {
      assert ZEROS_AND_ONE[i] == if i == 16 then 1 else 0;
    }
    forall i | 0 <= i < 17 ensures IsDigit(16, SEVENTEEN[i]) {
    }
    assert AllDigits(16, [SEVENTEEN][0]);
  }

  /** Superfluous zeros count: `0x00000000000000001` is refused although it is one. */
  lemma ZerosAreCounted() returns (cps: seq<int>)
    ensures Positional(16, ZEROS_AND_ONE) == 1 && cps == Codes("0x") + SEVENTEEN && NumberAt(cps, 0) == Some(Error)
  {
    assert ZEROS_AND_ONE[..|ZEROS_AND_ONE| - 1] == ZEROS_AND_ONE[..16];
    ZerosAreWorthNothing(16);
    SeventeenDigits();
    var text, r := PrefixedAreRead(16, [SEVENTEEN], ZEROS_AND_ONE, []);
    cps := text;
    assert Codes("0x") + SEVENTEEN + [] == Codes("0x") + SEVENTEEN;
  }
}
