/**
  Which texts reach the parser: an input that is a text in UTF-8, with or without a byte order
  mark in front and zero bytes behind, is read as just that text.
 */
module InputText {
  import opened Basics
  import opened Text
  import opened Utf8
  import opened Utf8Reader
  import BasicString

  const MARK: scalar := 0xFEFF

  function ZeroBytes(n: nat): (z: seq<byte>)
    ensures |z| == n && forall i :: 0 <= i < n ==> z[i] == 0
  {
    seq(n, _ => 0)
  }

  /** Zero bytes behind something that does not end with one are cut off. */
  lemma ZerosAreCut(s: seq<byte>, n: nat)
    requires s != [] && s[|s| - 1] != 0
    ensures (s + ZeroBytes(n))[..TrimmedLength(s + ZeroBytes(n))] == s
  {
    var t := s + ZeroBytes(n);
    assert t[|s| - 1] != 0;
    assert forall i :: |s| <= i < |t| ==> t[i] == 0;
    assert TrimmedLength(t) == |s|;
  }

  lemma MarkIsBom()
    ensures Encode(MARK) == BOM
  {
  }

  /** A text starts with the mark exactly when its bytes start with those of the mark. */
  lemma {:induction false} StartsWithMarkIff(cs: seq<scalar>)
    ensures BOM <= EncodeAll(cs) <==> cs != [] && cs[0] == MARK
  {
    MarkIsBom();
    if cs != [] {
      var a, b := Encode(cs[0]), EncodeAll(cs[1..]);
      CharLenOfPrefix(a, b);
      if BOM <= a + b {
        var c := (a + b)[3..];
        assert a + b == BOM + c;
        CharLenOfPrefix(BOM, c);
        assert CharValue(BOM) == MARK;
      }
    }
  }

  /** The last byte of a text is zero exactly when its last character is. */
  lemma {:induction false} EndsWithZeroIff(cs: seq<scalar>)
    requires cs != []
    ensures EncodeAll(cs) != [] && (EncodeAll(cs)[|EncodeAll(cs)| - 1] == 0 <==> cs[|cs| - 1] == 0)
  {
    if |cs| == 1 {
      assert cs[1..] == [];
      assert EncodeAll(cs) == Encode(cs[0]) + [];
      LastByte(cs[0]);
    } else {
      EndsWithZeroIff(cs[1..]);
    }
  }

  lemma LastByte(c: scalar)
    ensures Encode(c)[|Encode(c)| - 1] == 0 <==> c == 0
  {
    assert IsScalar(c);
  }

  /**
    A text that does not end with U+0000 or begin with the mark is what is read, with or without
    a mark in front of it and zero bytes behind it.
   */
  lemma {:induction false} TextIsRead(cs: seq<scalar>, n: nat)
    requires cs != [] && cs[0] != MARK && cs[|cs| - 1] != 0
    ensures Content(EncodeAll(cs) + ZeroBytes(n)) == EncodeAll(cs)
    ensures Content(EncodeAll([MARK] + cs) + ZeroBytes(n)) == EncodeAll(cs)
    ensures Decode(Content(EncodeAll([MARK] + cs) + ZeroBytes(n))) == Some(cs)
  {
    DecodeEncode(cs);
    EndsWithZeroIff(cs);
    StartsWithMarkIff(cs);
    ZerosAreCut(EncodeAll(cs), n);
    MarkedTextIsRead(cs, n);
  }

  lemma {:induction false} MarkedTextIsRead(cs: seq<scalar>, n: nat)
    requires cs != [] && cs[|cs| - 1] != 0
    ensures Content(EncodeAll([MARK] + cs) + ZeroBytes(n)) == EncodeAll(cs)
  {
    var all := [MARK] + cs;
    EndsWithZeroIff(all);
    MarkIsBom();
    BasicString.EncodeAllCons(MARK, cs);
    ZerosAreCut(EncodeAll(all), n);
    assert (BOM + EncodeAll(cs))[3..] == EncodeAll(cs);
  }
}
