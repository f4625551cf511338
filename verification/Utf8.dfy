/** Unicode scalar values. */
module Text {

  /** Surrogates are not scalar values. */
  predicate IsSurrogate(c: int) {
    0xD800 <= c <= 0xDFFF
  }

  predicate IsScalar(c: int) {
    0 <= c <= 0x10FFFF && !IsSurrogate(c)
  }

  type scalar = c: int | IsScalar(c) witness 0
}

/**
  UTF-8 as RFC 3629 defines it, and the table-driven decoder proved to accept
  exactly that.
 */
module Utf8 {
  import opened Basics
  import opened Text

  // ---------------------------------------------------------------------------
  // Section 4 of RFC 3629: the syntax of UTF-8 byte sequences

  predicate Tail(b: byte) {
    0x80 <= b <= 0xBF
  }

  predicate Utf8_2(s: seq<byte>) {
    |s| >= 2 && 0xC2 <= s[0] <= 0xDF && Tail(s[1])
  }

  predicate Utf8_3(s: seq<byte>) {
    && |s| >= 3 && Tail(s[2])
    && (|| (s[0] == 0xE0 && 0xA0 <= s[1] <= 0xBF)
        || (0xE1 <= s[0] <= 0xEC && Tail(s[1]))
        || (s[0] == 0xED && 0x80 <= s[1] <= 0x9F)
        || (0xEE <= s[0] <= 0xEF && Tail(s[1])))
  }

  predicate Utf8_4(s: seq<byte>) {
    && |s| >= 4 && Tail(s[2]) && Tail(s[3])
    && (|| (s[0] == 0xF0 && 0x90 <= s[1] <= 0xBF)
        || (0xF1 <= s[0] <= 0xF3 && Tail(s[1]))
        || (s[0] == 0xF4 && 0x80 <= s[1] <= 0x8F))
  }

  /** The length of the character `s` starts with, or 0 if it starts with none. */
  function CharLen(s: seq<byte>): (n: nat)
    ensures n <= |s| && n <= 4
  {
    if |s| >= 1 && s[0] <= 0x7F then 1
    else if Utf8_2(s) then 2
    else if Utf8_3(s) then 3
    else if Utf8_4(s) then 4
    else 0
  }

  /** Section 3 of RFC 3629: the bits of the octets put together. */
  function CharValue(s: seq<byte>): (c: int)
    requires CharLen(s) > 0
    ensures IsScalar(c)
  {
    match CharLen(s)
    case 1 => s[0] as int
    case 2 => (s[0] as int - 0xC0) * 64 + (s[1] as int - 0x80)
    case 3 => ((s[0] as int - 0xE0) * 64 + (s[1] as int - 0x80)) * 64 + (s[2] as int - 0x80)
    case _ => (((s[0] as int - 0xF0) * 64 + (s[1] as int - 0x80)) * 64 + (s[2] as int - 0x80)) * 64 + (s[3] as int - 0x80)
  }

  /** The scalar values of a well-formed sequence; nothing for any other. */
  function Decode(s: seq<byte>): Option<seq<scalar>>
    decreases |s|
  {
    if s == [] then Some([])
    else if CharLen(s) == 0 then None
    else
      match Decode(s[CharLen(s)..])
      case None => None
      case Some(rest) => Some([CharValue(s)] + rest)
  }

  /** Section 3 of RFC 3629: filling in the bits, shortest form first. */
  function Encode(c: scalar): (s: seq<byte>)
    ensures 1 <= |s| <= 4 && CharLen(s) == |s| && CharValue(s) == c
  {
    assert IsScalar(c);
    var c1: nat := c / 64;
    var c2: nat := c1 / 64;
    if c <= 0x7F then [c]
    else if c <= 0x7FF then [0xC0 + c1, 0x80 + c % 64]
    else if c <= 0xFFFF then [0xE0 + c2, 0x80 + c1 % 64, 0x80 + c % 64]
    else [0xF0 + c2 / 64, 0x80 + c2 % 64, 0x80 + c1 % 64, 0x80 + c % 64]
  }

  function EncodeAll(cs: seq<scalar>): seq<byte> {
    if cs == [] then [] else Encode(cs[0]) + EncodeAll(cs[1..])
  }

  /** Only the octets of the first character matter. */
  lemma CharLenOfPrefix(a: seq<byte>, b: seq<byte>)
    requires CharLen(a) == |a| > 0
    ensures CharLen(a + b) == |a| && CharValue(a + b) == CharValue(a)
  {
  }

  lemma Digits64(q: nat, r: nat)
    requires r < 64
    ensures (q * 64 + r) / 64 == q && (q * 64 + r) % 64 == r
  {
  }

  lemma EncodeCharValue3(s: seq<byte>)
    requires CharLen(s) == 3
    ensures Encode(CharValue(s)) == s[..3]
  {
    var v: nat := (s[0] as int - 0xE0) * 64 + (s[1] as int - 0x80);
    Digits64(s[0] as int - 0xE0, s[1] as int - 0x80);
    Digits64(v, s[2] as int - 0x80);
    assert CharValue(s) == v * 64 + (s[2] as int - 0x80);
  }

  lemma EncodeCharValue4(s: seq<byte>)
    requires CharLen(s) == 4
    ensures Encode(CharValue(s)) == s[..4]
  {
    var u: nat := (s[0] as int - 0xF0) * 64 + (s[1] as int - 0x80);
    var v: nat := u * 64 + (s[2] as int - 0x80);
    Digits64(s[0] as int - 0xF0, s[1] as int - 0x80);
    Digits64(u, s[2] as int - 0x80);
    Digits64(v, s[3] as int - 0x80);
    assert CharValue(s) == v * 64 + (s[3] as int - 0x80);
  }

  lemma EncodeCharValue(s: seq<byte>)
    requires CharLen(s) > 0
    ensures Encode(CharValue(s)) == s[..CharLen(s)]
  {
    if CharLen(s) == 2 {
      Digits64(s[0] as int - 0xC0, s[1] as int - 0x80);
    } else if CharLen(s) == 3 {
      EncodeCharValue3(s);
    } else if CharLen(s) == 4 {
      EncodeCharValue4(s);
    }
  }

  lemma {:induction false} DecodeEncode(cs: seq<scalar>)
    ensures Decode(EncodeAll(cs)) == Some(cs)
  {
    if cs != [] {
      var a, b := Encode(cs[0]), EncodeAll(cs[1..]);
      DecodeEncode(cs[1..]);
      CharLenOfPrefix(a, b);
      assert (a + b)[|a|..] == b && [cs[0]] + cs[1..] == cs;
    }
  }

  lemma TakeAndDrop(s: seq<byte>, n: nat)
    requires n <= |s|
    ensures s[..n] + s[n..] == s
  {
  }

  lemma {:induction false} EncodeDecode(s: seq<byte>)
    requires Decode(s).Some?
    ensures EncodeAll(Decode(s).value) == s
    decreases |s|
  {
    if s != [] {
      var n := CharLen(s);
      var rest := Decode(s[n..]).value;
      EncodeDecode(s[n..]);
      EncodeCharValue(s);
      assert ([CharValue(s)] + rest)[1..] == rest;
      TakeAndDrop(s, n);
    }
  }

  // ---------------------------------------------------------------------------
  // The decoder's tables

  const ACCEPT: nat := 0
  const REJECT: nat := 12

  /** The first 256 entries of the state table: the class of a byte. */
  function ByteClass(b: byte): (k: nat)
    ensures k < 12
  {
    if b <= 0x7F then 0
    else if b <= 0x8F then 1
    else if b <= 0x9F then 9
    else if b <= 0xBF then 7
    else if b <= 0xC1 then 8
    else if b <= 0xDF then 2
    else if b == 0xE0 then 10
    else if b <= 0xEC then 3
    else if b == 0xED then 4
    else if b <= 0xEF then 3
    else if b == 0xF0 then 11
    else if b <= 0xF3 then 6
    else if b == 0xF4 then 5
    else 8
  }

  /** The rest of the state table: one row of twelve classes per state. */
  function Row(state: nat): (r: seq<nat>)
    requires IsState(state)
    ensures |r| == 12 && forall i :: 0 <= i < 12 ==> IsState(r[i])
  {
    match state
    case 0 => [0, 12, 24, 36, 60, 96, 84, 12, 12, 12, 48, 72]
    case 24 => [12, 0, 12, 12, 12, 12, 12, 0, 12, 0, 12, 12]
    case 36 => [12, 24, 12, 12, 12, 12, 12, 24, 12, 24, 12, 12]
    case 48 => [12, 12, 12, 12, 12, 12, 12, 24, 12, 12, 12, 12]
    case 60 => [12, 24, 12, 12, 12, 12, 12, 12, 12, 24, 12, 12]
    case 72 => [12, 12, 12, 12, 12, 12, 12, 36, 12, 36, 12, 12]
    case 84 => [12, 36, 12, 12, 12, 12, 12, 36, 12, 36, 12, 12]
    case 96 => [12, 36, 12, 12, 12, 12, 12, 12, 12, 12, 12, 12]
    case _ => [12, 12, 12, 12, 12, 12, 12, 12, 12, 12, 12, 12]
  }

  predicate IsState(s: nat) {
    s in {0, 12, 24, 36, 48, 60, 72, 84, 96}
  }

  function Next(state: nat, b: byte): (s: nat)
    requires IsState(state)
    ensures IsState(s)
  {
    Row(state)[ByteClass(b)]
  }

  lemma NextMeaning(state: nat, b: byte)
    requires IsState(state)
    ensures state == 24 ==> Next(state, b) == if Tail(b) then 0 else 12
    ensures state == 36 ==> Next(state, b) == if Tail(b) then 24 else 12
    ensures state == 48 ==> Next(state, b) == if 0xA0 <= b <= 0xBF then 24 else 12
    ensures state == 60 ==> Next(state, b) == if 0x80 <= b <= 0x9F then 24 else 12
    ensures state == 72 ==> Next(state, b) == if 0x90 <= b <= 0xBF then 36 else 12
    ensures state == 84 ==> Next(state, b) == if Tail(b) then 36 else 12
    ensures state == 96 ==> Next(state, b) == if 0x80 <= b <= 0x8F then 36 else 12
  {
  }
}
