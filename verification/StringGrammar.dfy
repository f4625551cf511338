/**
  The grammar of basic strings: which texts the parser accepts, and the bytes they stand for.
 */
module StringGrammar {
  import opened Basics
  import opened Numerals
  import opened Text
  import opened Utf8
  import opened Utf8Reader
  import opened BasicString

  /** A character as it is, an escape of one letter, or a unicode escape with its digits. */
  datatype Piece = Raw | Short(k: nat) | Unicode(ds: seq<nat>)

  /** The letters of the short escapes and the bytes they stand for. */
  const LETTERS: string := "bfnrt\"\\"
  const BYTES: seq<byte> := [0x08, 0x0C, 0x0A, 0x0D, 0x09, 0x22, 0x5C]

  /** Tab, and everything from the space on but quote, backslash, delete and surrogates. */
  predicate MayBeRaw(c: int) {
    (c == 0x09 || c >= 0x20) && c != '\"' as int && c != '\\' as int && c != 0x7F && !(0xD800 <= c <= 0xDFFF)
  }

  predicate PieceAt(items: seq<Codepoint>, i: nat, p: Piece) {
    match p
    case Raw => i < |items| && MayBeRaw(items[i].value)
    case Short(k) =>
      k < 7 && i + 1 < |items| && items[i].value == '\\' as int && items[i + 1].value == LETTERS[k] as int
    case Unicode(ds) =>
      && i + 1 < |items| && items[i].value == '\\' as int && Spells(items, i + 2, ds) && IsScalar(Positional(16, ds))
      && ((items[i + 1].value == 'u' as int && |ds| == 4) || (items[i + 1].value == 'U' as int && |ds| == 8))
  }

  function Length(p: Piece): nat {
    match p
    case Raw => 1
    case Short(_) => 2
    case Unicode(ds) => 2 + |ds|
  }

  function BytesOf(items: seq<Codepoint>, i: nat, p: Piece): seq<byte>
    requires PieceAt(items, i, p) && FourBytes(items)
  {
    match p
    case Raw => AsView(items[i].bytes)
    case Short(k) => [BYTES[k]]
    case Unicode(ds) => EncodeEscape(Positional(16, ds))
  }

  /** From `i` on stand these pieces and then the closing quote. */
  predicate PiecesAt(items: seq<Codepoint>, i: nat, ps: seq<Piece>)
    decreases ps
  {
    if ps == [] then i < |items| && items[i].value == '\"' as int
    else PieceAt(items, i, ps[0]) && PiecesAt(items, i + Length(ps[0]), ps[1..])
  }

  function AllBytes(items: seq<Codepoint>, i: nat, ps: seq<Piece>): seq<byte>
    requires PiecesAt(items, i, ps) && FourBytes(items)
    decreases ps
  {
    if ps == [] then [] else BytesOf(items, i, ps[0]) + AllBytes(items, i + Length(ps[0]), ps[1..])
  }

  function AllLength(ps: seq<Piece>): nat {
    if ps == [] then 0 else Length(ps[0]) + AllLength(ps[1..])
  }

  // ---------------------------------------------------------------------------
  // One piece

  lemma ShortLetters(c: int, k: nat)
    ensures k < 7 && c == LETTERS[k] as int ==> ShortEscape(c) == Some(BYTES[k])
    ensures ShortEscape(c).Some? ==> exists j: nat :: j < 7 && c == LETTERS[j] as int
    ensures ShortEscape(c).Some? ==> c != 'u' as int && c != 'U' as int
  {
    if ShortEscape(c).Some? {
      var j := if c == 'b' as int then 0 else if c == 'f' as int then 1 else if c == 'n' as int then 2
               else if c == 'r' as int then 3 else if c == 't' as int then 4 else if c == QUOTE then 5 else 6;
      assert c == LETTERS[j] as int;
    }
  }

  /** An escape that is complete is what its piece says, when something follows it. */
  lemma EscapeOfPiece(items: seq<Codepoint>, i: nat, p: Piece)
    requires FourBytes(items) && PieceAt(items, i, p) && !p.Raw? && i + Length(p) < |items|
    ensures ParseEscape(items, i + 1) == Escape(BytesOf(items, i, p), i + Length(p))
  {
    if p.Short? {
      ShortLetters(items[i + 1].value, p.k);
    } else {
      SpelledValue(items, i + 2, p.ds);
    }
  }

  lemma {:induction false} PieceParsed(items: seq<Codepoint>, i: nat, p: Piece, str: seq<byte>)
    requires FourBytes(items) && PieceAt(items, i, p) && i + Length(p) < |items|
    ensures Body(items, i, str) == Body(items, i + Length(p), str + BytesOf(items, i, p))
  {
    if !p.Raw? {
      EscapeOfPiece(items, i, p);
    }
  }

  lemma PieceOfEscape(items: seq<Codepoint>, i: nat) returns (p: Piece)
    requires i + 1 < |items| && items[i].value == BACKSLASH && ParseEscape(items, i + 1).Escape?
    ensures PieceAt(items, i, p) && !p.Raw? && i + Length(p) == ParseEscape(items, i + 1).next
  {
    var c := items[i + 1].value;
    ShortLetters(c, 0);
    if ShortEscape(c).Some? {
      var k: nat :| k < 7 && c == LETTERS[k] as int;
      p := Short(k);
    } else {
      var n := if c == 'U' as int then 8 else 4;
      var ds := DigitsAreSpelled(items, i + 2, n);
      SpelledValue(items, i + 2, ds);
      p := Unicode(ds);
    }
  }

  // ---------------------------------------------------------------------------
  // Whole strings

  lemma {:induction false} PiecesEndInside(items: seq<Codepoint>, i: nat, ps: seq<Piece>)
    requires PiecesAt(items, i, ps)
    ensures i + AllLength(ps) < |items|
    decreases ps
  {
    if ps != [] { PiecesEndInside(items, i + Length(ps[0]), ps[1..]); }
  }

  lemma {:induction false} PiecesAreParsed(items: seq<Codepoint>, i: nat, ps: seq<Piece>, str: seq<byte>)
    requires FourBytes(items) && PiecesAt(items, i, ps) && i <= |items|
    ensures Body(items, i, str) == Ok(str + AllBytes(items, i, ps), i + AllLength(ps) + 1)
    decreases ps
  {
    if ps == [] {
      assert str + AllBytes(items, i, ps) == str;
    } else {
      var next, rest, b := FirstPiece(items, i, ps, str);
      PiecesAreParsed(items, next, ps[1..], str + b);
      Associative(str, b, rest);
    }
  }

  lemma {:induction false} FirstPiece(items: seq<Codepoint>, i: nat, ps: seq<Piece>, str: seq<byte>) returns (next: nat, rest: seq<byte>, b: seq<byte>)
    requires FourBytes(items) && ps != [] && PiecesAt(items, i, ps) && i <= |items|
    ensures next <= |items| && PiecesAt(items, next, ps[1..]) && rest == AllBytes(items, next, ps[1..])
    ensures AllBytes(items, i, ps) == b + rest && i + AllLength(ps) == next + AllLength(ps[1..])
    ensures Body(items, i, str) == Body(items, next, str + b)
  {
    next, rest, b := FirstBytes(items, i, ps);
    PieceParsed(items, i, ps[0], str);
  }

  lemma {:induction false} FirstBytes(items: seq<Codepoint>, i: nat, ps: seq<Piece>) returns (next: nat, rest: seq<byte>, b: seq<byte>)
    requires FourBytes(items) && ps != [] && PiecesAt(items, i, ps)
    ensures next == i + Length(ps[0]) < |items| && PieceAt(items, i, ps[0]) && b == BytesOf(items, i, ps[0])
    ensures PiecesAt(items, next, ps[1..]) && rest == AllBytes(items, next, ps[1..])
    ensures AllBytes(items, i, ps) == b + rest && i + AllLength(ps) == next + AllLength(ps[1..])
  {
    next := i + Length(ps[0]);
    PiecesEndInside(items, next, ps[1..]);
    rest, b := AllBytes(items, next, ps[1..]), BytesOf(items, i, ps[0]);
  }

  lemma {:induction false} ParsedIsPieces(items: seq<Codepoint>, i: nat, str: seq<byte>) returns (ps: seq<Piece>)
    requires FourBytes(items) && i <= |items| && Body(items, i, str).Ok?
    ensures PiecesAt(items, i, ps)
    decreases |items| - i
  {
    var c := items[i].value;
    if c == QUOTE {
      ps := [];
    } else if c == BACKSLASH {
      var p := PieceOfEscape(items, i);
      var e := ParseEscape(items, i + 1);
      var rest := ParsedIsPieces(items, e.next, str + e.bytes);
      ps := [p] + rest;
    } else {
      var rest := ParsedIsPieces(items, i + 1, str + AsView(items[i].bytes));
      ps := [Raw] + rest;
    }
  }

  lemma {:induction false} PiecesParsed(items: seq<Codepoint>, i: nat, ps: seq<Piece>)
    requires FourBytes(items) && PiecesAt(items, i, ps) && i <= |items|
    ensures Body(items, i, []) == Ok(AllBytes(items, i, ps), i + AllLength(ps) + 1)
  {
    PiecesAreParsed(items, i, ps, []);
    assert [] + AllBytes(items, i, ps) == AllBytes(items, i, ps);
  }

  /**
    Behind its opening quote, a string is accepted exactly when it consists of pieces up to a
    closing quote; it then ends there, and its bytes are those of the pieces.
   */
  lemma {:induction false} StringsArePieces(items: seq<Codepoint>, i: nat)
    requires FourBytes(items) && i <= |items|
    ensures Body(items, i, []).Ok? <==> exists ps :: PiecesAt(items, i, ps)
    ensures forall ps :: PiecesAt(items, i, ps) ==> Body(items, i, []) == Ok(AllBytes(items, i, ps), i + AllLength(ps) + 1)
  {
    if Body(items, i, []).Ok? {
      var ps := ParsedIsPieces(items, i, []);
      assert exists qs :: PiecesAt(items, i, qs);
    } else if ps :| PiecesAt(items, i, ps) {
      PiecesParsed(items, i, ps);
    }
    assert Body(items, i, []).Ok? <==> exists ps :: PiecesAt(items, i, ps);
    forall ps | PiecesAt(items, i, ps) ensures Body(items, i, []) == Ok(AllBytes(items, i, ps), i + AllLength(ps) + 1) {
      PiecesParsed(items, i, ps);
    }
  }
}
