/**
  The two-slot reader that turns a byte sequence into code points with their
  bytes and source positions.
 */
module Utf8Reader {
  import opened Basics
  import opened Text
  import opened Utf8

  // ---------------------------------------------------------------------------
  // The decoder inside a character

  /** How many more bytes of `s` a character needs in a state; 0 when `s` cannot finish it. */
  function RestLen(state: nat, s: seq<byte>): (n: nat)
    ensures n <= |s|
  {
    match state
    case 24 => if |s| >= 1 && Tail(s[0]) then 1 else 0
    case 36 => if |s| >= 2 && Tail(s[0]) && Tail(s[1]) then 2 else 0
    case 48 => if |s| >= 2 && 0xA0 <= s[0] <= 0xBF && Tail(s[1]) then 2 else 0
    case 60 => if |s| >= 2 && 0x80 <= s[0] <= 0x9F && Tail(s[1]) then 2 else 0
    case 72 => if |s| >= 3 && 0x90 <= s[0] <= 0xBF && Tail(s[1]) && Tail(s[2]) then 3 else 0
    case 84 => if |s| >= 3 && Tail(s[0]) && Tail(s[1]) && Tail(s[2]) then 3 else 0
    case 96 => if |s| >= 3 && 0x80 <= s[0] <= 0x8F && Tail(s[1]) && Tail(s[2]) then 3 else 0
    case _ => 0
  }

  function Plus(a: nat, n: nat): nat {
    if n == 0 then 0 else a + n
  }

  predicate InProgress(state: nat) {
    IsState(state) && state != ACCEPT && state != REJECT
  }

  /** One more than the largest value `255 >> k` leaves. */
  function Width(k: nat): int {
    match k
    case 0 => 256 case 1 => 128 case 2 => 64 case 3 => 32
    case 4 => 16 case 5 => 8 case 6 => 4 case 7 => 2
    case _ => 1
  }

  /** The code point after one more byte: the payload bits of a first byte, or six more bits. */
  function NextCodepoint(state: nat, codepoint: nat, b: byte): nat {
    if state == ACCEPT then b as int % Width(ByteClass(b)) else b as int % 64 + codepoint * 64
  }

  /** The value reached from `cp` with the first `n` bytes of `s`. */
  function Continue(cp: nat, s: seq<byte>, n: nat): nat
    requires n <= |s|
    decreases n
  {
    if n == 0 then cp else Continue(NextCodepoint(24, cp, s[0]), s[1..], n - 1)
  }

  lemma FirstByte(s: seq<byte>)
    requires s != []
    ensures var t := Next(ACCEPT, s[0]);
            && (t == ACCEPT ==> CharLen(s) == 1)
            && (t == REJECT ==> CharLen(s) == 0)
            && (InProgress(t) ==> CharLen(s) == Plus(1, RestLen(t, s[1..])))
  {
    assert Row(ACCEPT) == [0, 12, 24, 36, 60, 96, 84, 12, 12, 12, 48, 72];
  }

  lemma NextByte(state: nat, s: seq<byte>)
    requires InProgress(state) && s != []
    ensures var t := Next(state, s[0]);
            && (t == ACCEPT ==> RestLen(state, s) == 1)
            && (t == REJECT ==> RestLen(state, s) == 0)
            && (InProgress(t) ==> RestLen(state, s) == Plus(1, RestLen(t, s[1..])))
  {
    NextMeaning(state, s[0]);
  }

  lemma TailPayload(b: byte)
    requires Tail(b)
    ensures b as int % 64 == b as int - 0x80
  {
  }

  lemma LeadPayload(s: seq<byte>)
    requires CharLen(s) > 0
    ensures NextCodepoint(ACCEPT, 0, s[0]) ==
            s[0] as int - match CharLen(s) case 1 => 0 case 2 => 0xC0 case 3 => 0xE0 case _ => 0xF0
  {
  }

  lemma ValueOfChar(s: seq<byte>)
    requires CharLen(s) > 0
    ensures Continue(NextCodepoint(ACCEPT, 0, s[0]), s[1..], CharLen(s) - 1) == CharValue(s)
  {
    var n := CharLen(s);
    var c0 := NextCodepoint(ACCEPT, 0, s[0]);
    LeadPayload(s);
    if n >= 2 {
      TailPayload(s[1]);
      var c1 := NextCodepoint(24, c0, s[1]);
      assert s[1..][0] == s[1];
      if n >= 3 {
        TailPayload(s[2]);
        var c2 := NextCodepoint(24, c1, s[2]);
        assert s[1..][1..][0] == s[2];
        if n == 4 {
          TailPayload(s[3]);
          assert s[1..][1..][1..][0] == s[3];
          assert Continue(c2, s[1..][1..][1..], 1) == NextCodepoint(24, c2, s[3]);
        }
      }
    }
  }

  /** The most bytes a state still waits for. */
  function Need(state: nat): nat {
    if state == 24 then 1 else if state in {36, 48, 60} then 2 else 3
  }

  /** The decoder has taken `k` bytes of `rest`, and what follows decides about the character. */
  predicate MidChar(rest: seq<byte>, k: nat, state: nat, cp: nat) {
    && 1 <= k <= |rest| && InProgress(state) && k + Need(state) <= 4
    && CharLen(rest) == Plus(k, RestLen(state, rest[k..]))
    && (CharLen(rest) > 0 ==> Continue(cp, rest[k..], CharLen(rest) - k) == CharValue(rest))
  }

  lemma AfterFirst(rest: seq<byte>, cp: nat)
    requires rest != []
    ensures var t, c := Next(ACCEPT, rest[0]), NextCodepoint(ACCEPT, cp, rest[0]);
            && (t == ACCEPT ==> CharLen(rest) == 1 && CharValue(rest) == c)
            && (t == REJECT ==> CharLen(rest) == 0)
            && (InProgress(t) ==> MidChar(rest, 1, t, c))
  {
    FirstByte(rest);
    if CharLen(rest) > 0 {
      ValueOfChar(rest);
    }
  }

  lemma AfterNext(rest: seq<byte>, k: nat, state: nat, cp: nat)
    requires MidChar(rest, k, state, cp) && k < |rest|
    ensures var t, c := Next(state, rest[k]), NextCodepoint(state, cp, rest[k]);
            && (t == ACCEPT ==> CharLen(rest) == k + 1 && CharValue(rest) == c)
            && (t == REJECT ==> CharLen(rest) == 0)
            && (InProgress(t) ==> MidChar(rest, k + 1, t, c))
  {
    NextByte(state, rest[k..]);
    NextMeaning(state, rest[k]);
    assert rest[k..][1..] == rest[k + 1..];
  }

  /** What one more byte decides. */
  predicate Decided(rest: seq<byte>, k: nat, state: nat, cp: nat) {
    && IsState(state)
    && (state == ACCEPT ==> CharLen(rest) == k && k > 0 && CharValue(rest) == cp)
    && (state == REJECT ==> CharLen(rest) == 0)
    && (InProgress(state) ==> MidChar(rest, k, state, cp))
  }

  lemma AfterByte(rest: seq<byte>, k: nat, state: nat, cp: nat)
    requires k < |rest| && if k == 0 then state == ACCEPT else MidChar(rest, k, state, cp)
    ensures Decided(rest, k + 1, Next(state, rest[k]), NextCodepoint(state, cp, rest[k]))
  {
    if k == 0 {
      AfterFirst(rest, cp);
    } else {
      AfterNext(rest, k, state, cp);
    }
  }

  // ---------------------------------------------------------------------------
  // Code points with their bytes and positions

  /** Lines and columns are 16-bit numbers. */
  const INDEX_RANGE: nat := 0x1_0000

  datatype Position = Position(line: nat, column: nat)

  datatype Codepoint = Codepoint(value: int, bytes: seq<byte>, position: Position)

  /** `is_line_break` without the carriage return. */
  predicate StartsNewLine(c: int) {
    0x0A <= c <= 0x0C || c == 0x85 || c == 0x2028 || c == 0x2029
  }

  function Advance(p: Position, c: int): Position {
    if StartsNewLine(c) then Position((p.line + 1) % INDEX_RANGE, 1)
    else Position(p.line, (p.column + 1) % INDEX_RANGE)
  }

  /** Where the code point after `values` stands. */
  function PositionAfter(values: seq<int>): Position {
    if values == [] then Position(1, 1)
    else Advance(PositionAfter(values[..|values| - 1]), values[|values| - 1])
  }

  lemma PositionAfterNext(values: seq<int>, c: int)
    ensures PositionAfter(values + [c]) == Advance(PositionAfter(values), c)
  {
    assert (values + [c])[..|values|] == values;
  }

  function LineBreaks(values: seq<int>): nat {
    |set i | 0 <= i < |values| && StartsNewLine(values[i])|
  }

  /** How many code points follow the last line break. */
  function SinceBreak(values: seq<int>): nat {
    if values == [] || StartsNewLine(values[|values| - 1]) then 0
    else 1 + SinceBreak(values[..|values| - 1])
  }

  lemma NoLineBreaks(values: seq<int>)
    ensures values == [] ==> LineBreaks(values) == 0
  {
    var breaks := set i | 0 <= i < |values| && StartsNewLine(values[i]);
    assert values == [] ==> breaks == {};
  }

  lemma LineBreaksAppend(values: seq<int>, c: int)
    ensures LineBreaks(values + [c]) == LineBreaks(values) + if StartsNewLine(c) then 1 else 0
  {
    var all := values + [c];
    var before := set i | 0 <= i < |values| && StartsNewLine(values[i]);
    var after := set i | 0 <= i < |all| && StartsNewLine(all[i]);
    assert after == before + if StartsNewLine(c) then {|values|} else {};
  }

  lemma WrapTwice(a: nat)
    ensures (a % INDEX_RANGE + 1) % INDEX_RANGE == (a + 1) % INDEX_RANGE
  {
  }

  /** The position counts the line breaks before and the code points since the last one, modulo 2^16. */
  lemma {:induction false} PositionCounts(values: seq<int>)
    ensures PositionAfter(values) ==
            Position((1 + LineBreaks(values)) % INDEX_RANGE, (1 + SinceBreak(values)) % INDEX_RANGE)
  {
    if values == [] {
      NoLineBreaks(values);
    } else {
      var before, last := values[..|values| - 1], values[|values| - 1];
      PositionCounts(before);
      assert values == before + [last];
      LineBreaksAppend(before, last);
      WrapTwice(1 + LineBreaks(before));
      WrapTwice(1 + SinceBreak(before));
    }
  }

  /** The four-byte field: unused bytes are zero. */
  function Pad(s: seq<byte>): (r: seq<byte>)
    requires |s| <= 4
    ensures |r| == 4 && r[..|s|] == s
  {
    s + [0, 0, 0, 0][|s|..]
  }

  lemma PadStep(s: seq<byte>, k: nat)
    requires k < |s| && k < 4
    ensures Pad(s[..k])[k := s[k]] == Pad(s[..k + 1])
  {
  }

  /** The bytes up to the first zero, as reading a C string finds them. */
  function CString(s: seq<byte>): seq<byte> {
    if s == [] || s[0] == 0 then [] else [s[0]] + CString(s[1..])
  }

  function AsView(bytes: seq<byte>): seq<byte>
    requires |bytes| == 4
  {
    if bytes[3] != 0 then bytes else CString(bytes)
  }

  /** The view of a character is its bytes, except that U+0000 has none. */
  lemma ViewOfChar(s: seq<byte>)
    requires CharLen(s) > 0
    ensures AsView(Pad(s[..CharLen(s)])) == if s[0] == 0 then [] else s[..CharLen(s)]
  {
    var n := CharLen(s);
    var p := Pad(s[..n]);
    assert forall i :: 0 <= i < n ==> p[i] == s[i];
    assert forall i :: n <= i < 4 ==> p[i] == 0;
    if n < 4 && s[0] != 0 {
      CStringStops(p, n);
      assert p[..n] == s[..n];
    }
  }

  lemma {:induction false} CStringStops(p: seq<byte>, n: nat)
    requires n < |p| && p[n] == 0 && forall i :: 0 <= i < n ==> p[i] != 0
    ensures CString(p) == p[..n]
  {
    if n > 0 {
      CStringStops(p[1..], n - 1);
      assert p[..n] == [p[0]] + p[1..][..n - 1];
    }
  }

  // ---------------------------------------------------------------------------
  // The byte stream

  const BOM: seq<byte> := [0xEF, 0xBB, 0xBF]

  /** The length without trailing zeros; a stream of zeros only is left alone. */
  function TrimmedLength(s: seq<byte>): (n: nat)
    ensures n <= |s|
    ensures forall i :: n <= i < |s| ==> s[i] == 0
    ensures n < |s| ==> n > 0 && s[n - 1] != 0
    ensures n == |s| && n > 0 && s[n - 1] == 0 ==> forall i :: 0 <= i < |s| ==> s[i] == 0
  {
    if exists i :: 0 <= i < |s| && s[i] != 0 then LastNonZero(s, |s|) else |s|
  }

  /** Zero bytes are left at the end exactly when there is nothing else. */
  lemma ZerosAreLeftIff(s: seq<byte>)
    ensures (TrimmedLength(s) > 0 && s[TrimmedLength(s) - 1] == 0) <==> s != [] && forall i :: 0 <= i < |s| ==> s[i] == 0
  {
  }

  lemma OneZeroIsLeft()
    ensures TrimmedLength([0]) == 1
  {
    ZerosAreLeftIff([0]);
  }

  function LastNonZero(s: seq<byte>, n: nat): (r: nat)
    requires n <= |s| && exists i :: 0 <= i < n && s[i] != 0
    ensures 0 < r <= n && s[r - 1] != 0 && forall i :: r <= i < n ==> s[i] == 0
  {
    if s[n - 1] != 0 then n else LastNonZero(s, n - 1)
  }

  /** The bytes the parser reads: without trailing zeros and without a byte order mark. */
  function Content(s: seq<byte>): seq<byte> {
    var t := s[..TrimmedLength(s)];
    if BOM <= t then t[3..] else t
  }

  // ---------------------------------------------------------------------------
  // What the reader should deliver

  /** The code points of a well-formed sequence, standing after `before`. */
  function Items(s: seq<byte>, before: seq<int>): (r: seq<Codepoint>)
    requires Decode(s).Some?
    ensures |r| == |Decode(s).value| && forall i :: 0 <= i < |r| ==> r[i].value == Decode(s).value[i]
    ensures forall i :: 0 <= i < |r| ==> |r[i].bytes| == 4
    decreases |s|
  {
    if s == [] then []
    else
      var n := CharLen(s);
      [Codepoint(CharValue(s), Pad(s[..n]), PositionAfter(before))] + Items(s[n..], before + [CharValue(s)])
  }

  /** The position after a character at `at`. */
  method NextPosition(at: Position, value: int) returns (next: Position)
    ensures next == Advance(at, value)
  {
    if StartsNewLine(value) {
      next := Position((at.line + 1) % INDEX_RANGE, 1);
    } else {
      next := Position(at.line, (at.column + 1) % INDEX_RANGE);
    }
  }

  lemma OtherSlot(i: nat)
    requires i >= 1
    ensures 0 <= i % 2 < 2 && 0 <= (i - 1) % 2 < 2 && i % 2 != (i - 1) % 2 && (i - 1) % 2 == (i + 1) % 2
  {
  }

  datatype ReadResult = EndOfFile | Invalid(at: Position) | Item(cp: Codepoint)

  class Reader {
    const source: seq<byte>
    var position: nat
    var state: nat
    var codepoint: nat
    const codepoints: array<Codepoint>
    var cpIdx: nat
    var byteCount: nat
    /** The values delivered so far. */
    ghost var values: seq<int>

    ghost function LastPosition(): Position
      reads this
    {
      if values == [] then Position(1, 1) else PositionAfter(values[..|values| - 1])
    }

    /** Between two calls: the slot to fill next is cleared and knows its position. */
    ghost predicate Valid()
      reads this, codepoints
    {
      && codepoints.Length == 2 && position <= |source| && state == ACCEPT && byteCount == 0 && cpIdx >= 1
      && codepoints[cpIdx % 2].bytes == Pad([]) && codepoints[cpIdx % 2].position == PositionAfter(values)
      && codepoints[(cpIdx - 1) % 2].position == LastPosition()
    }

    /** Trailing zeros are trimmed and a byte order mark is skipped. */
    constructor (bytes: seq<byte>)
      ensures Valid() && fresh(codepoints) && values == []
      ensures source[position..] == Content(bytes)
    {
      var n := |bytes|;
      var i := |bytes|;
      while i > 0
        invariant 0 <= i <= |bytes| && n == |bytes|
        invariant forall j :: i <= j < |bytes| ==> bytes[j] == 0
      {
        i := i - 1;
        if bytes[i] != 0 {
          n := i + 1;
          break;
        }
      }
      assert n == TrimmedLength(bytes);
      source := bytes[..n];
      position := if n >= 3 && bytes[..3] == BOM then 3 else 0;
      state, codepoint, cpIdx, byteCount, values := ACCEPT, 0, 1, 0, [];
      codepoints := new Codepoint[2](_ => Codepoint(0, [0, 0, 0, 0], Position(1, 1)));
    }

    /** The decoder's call operator. */
    method Feed(b: byte)
      requires IsState(state)
      modifies this`state, this`codepoint
      ensures state == Next(old(state), b) && codepoint == NextCodepoint(old(state), old(codepoint), b)
    {
      codepoint := NextCodepoint(state, codepoint, b);
      state := Next(state, b);
    }

    /** Store the value in one slot, and clear and place the other one. */
    method TurnSlots(current: nat, prev: nat)
      requires codepoints.Length == 2 && current < 2 && prev < 2 && current != prev
      modifies codepoints
      ensures codepoints[current] == old(codepoints[current]).(value := codepoint)
      ensures codepoints[prev].bytes == Pad([])
      ensures codepoints[prev].position == Advance(old(codepoints[current].position), codepoint)
    {
      codepoints[current] := codepoints[current].(value := codepoint);
      codepoints[prev] := codepoints[prev].(bytes := [0, 0, 0, 0]);
      var at := NextPosition(codepoints[current].position, codepoint);
      codepoints[prev] := codepoints[prev].(position := at);
    }

    /** A complete character: keep it, clear the other slot and move on. */
    method Finish() returns (cp: Codepoint)
      requires codepoints.Length == 2 && cpIdx >= 1 && state == ACCEPT && position <= |source|
      requires codepoints[cpIdx % 2].position == PositionAfter(values)
      modifies this`cpIdx, this`byteCount, this`values, codepoints
      ensures Valid()
      ensures cp == Codepoint(codepoint, old(codepoints[cpIdx % 2].bytes), PositionAfter(old(values)))
      ensures values == old(values) + [codepoint]
    {
      var current, prev := cpIdx % 2, (cpIdx - 1) % 2;
      OtherSlot(cpIdx);
      TurnSlots(current, prev);
      cp := codepoints[current];
      MoveOn(current, prev);
    }

    /** The other slot is the next one to fill. */
    method MoveOn(ghost current: nat, ghost prev: nat)
      requires codepoints.Length == 2 && cpIdx >= 1 && state == ACCEPT && position <= |source|
      requires current == cpIdx % 2 && prev == (cpIdx + 1) % 2
      requires codepoints[current].position == PositionAfter(values) && codepoints[prev].bytes == Pad([])
      requires codepoints[prev].position == Advance(PositionAfter(values), codepoint)
      modifies this`cpIdx, this`byteCount, this`values
      ensures Valid() && values == old(values) + [codepoint]
    {
      byteCount := 0;
      PositionAfterNext(values, codepoint);
      values := values + [codepoint];
      assert values[..|values| - 1] == old(values);
      cpIdx := cpIdx + 1;
    }

    /** Inside a call: `byteCount` bytes of `rest` are in the current slot. */
    ghost predicate Reading(rest: seq<byte>)
      reads this, codepoints
    {
      && codepoints.Length == 2 && cpIdx >= 1 && position <= |source| && byteCount < 4
      && byteCount <= |rest| && rest[byteCount..] == source[position..]
      && (if byteCount == 0 then state == ACCEPT else MidChar(rest, byteCount, state, codepoint))
      && codepoints[cpIdx % 2].bytes == Pad(rest[..byteCount])
      && codepoints[cpIdx % 2].position == PositionAfter(values)
      && codepoints[(cpIdx - 1) % 2].position == LastPosition()
    }

    method Store(b: byte)
      requires codepoints.Length == 2 && cpIdx >= 1 && byteCount < 4 && |codepoints[cpIdx % 2].bytes| == 4
      modifies this`byteCount, codepoints
      ensures byteCount == old(byteCount) + 1
      ensures codepoints[cpIdx % 2] == old(codepoints[cpIdx % 2]).(bytes := old(codepoints[cpIdx % 2].bytes)[old(byteCount) := b])
      ensures codepoints[(cpIdx - 1) % 2] == old(codepoints[(cpIdx - 1) % 2])
    {
      var current := cpIdx % 2;
      codepoints[current] := codepoints[current].(bytes := codepoints[current].bytes[byteCount := b]);
      byteCount := byteCount + 1;
    }

    /** One turn of the loop, up to the test for a complete character. */
    method TakeByte(ghost rest: seq<byte>)
      requires Reading(rest) && position < |source|
      modifies this`position, this`state, this`codepoint, this`byteCount, codepoints
      ensures Decided(rest, old(byteCount) + 1, state, codepoint) && position == old(position) + 1
      ensures state != REJECT ==> byteCount == old(byteCount) + 1 && codepoints[cpIdx % 2].bytes == Pad(rest[..byteCount])
      ensures codepoints[cpIdx % 2].position == old(codepoints[cpIdx % 2].position)
      ensures codepoints[(cpIdx - 1) % 2].position == old(codepoints[(cpIdx - 1) % 2].position)
    {
      var b := source[position];
      assert rest[byteCount] == rest[byteCount..][0] == b;
      AfterByte(rest, byteCount, state, codepoint);
      PadStep(rest, byteCount);
      position := position + 1;
      Feed(b);
      if state != REJECT {
        Store(b);
      }
    }

    /**
      The next code point with its bytes and position, end of file, or an error
      at the last delivered position exactly when no character starts here.
     */
    method ReadNext() returns (r: ReadResult)
      requires Valid()
      modifies this, codepoints
      ensures var rest := old(source[position..]);
              var n := CharLen(rest);
              if rest == [] then r == EndOfFile && Valid() && position == old(position) && values == old(values)
              else if n == 0 then r == Invalid(old(LastPosition()))
              else
                && r == Item(Codepoint(CharValue(rest), Pad(rest[..n]), PositionAfter(old(values))))
                && Valid() && position == old(position) + n && values == old(values) + [CharValue(rest)]
    {
      if position >= |source| {
        return EndOfFile;
      }
      ghost var rest := source[position..];
      while true
        invariant Reading(rest) && cpIdx == old(cpIdx) && values == old(values) && position == old(position) + byteCount
        decreases |source| - position
      {
        if position >= |source| {
          return Invalid(codepoints[(cpIdx - 1) % 2].position);
        }
        TakeByte(rest);
        if state == REJECT {
          return Invalid(codepoints[(cpIdx - 1) % 2].position);
        }
        if state == ACCEPT {
          var cp := Finish();
          return Item(cp);
        }
      }
    }
  }

  // ---------------------------------------------------------------------------
  // Reading everything

  /** A reader never delivers a surrogate. */
  lemma ItemsAreScalars(s: seq<byte>)
    requires Decode(s).Some?
    ensures forall i :: 0 <= i < |Items(s, [])| ==> IsScalar(Items(s, [])[i].value)
  {
    forall i | 0 <= i < |Items(s, [])| ensures IsScalar(Items(s, [])[i].value) {
      var c: scalar := Decode(s).value[i];
      assert IsScalar(c);
    }
  }

  lemma NextItem(items: seq<Codepoint>, rest: seq<byte>, before: seq<int>, cp: Codepoint)
    requires CharLen(rest) > 0 && cp == Codepoint(CharValue(rest), Pad(rest[..CharLen(rest)]), PositionAfter(before))
    ensures var after := rest[CharLen(rest)..];
      && (Decode(rest).Some? <==> Decode(after).Some?)
      && (Decode(rest).Some? ==>
            items + Items(rest, before) == items + [cp] + Items(after, before + [CharValue(rest)]))
  {
  }

  /**
    Reading a whole byte sequence delivers the scalar values RFC 3629 assigns to
    it, with their bytes and positions, and fails exactly when it is ill-formed
    or truncated.
   */
  method ReadAll(bytes: seq<byte>) returns (r: Option<seq<Codepoint>>)
    ensures r.Some? <==> Decode(Content(bytes)).Some?
    ensures r.Some? ==> r.value == Items(Content(bytes), []) && forall i :: 0 <= i < |r.value| ==> IsScalar(r.value[i].value)
  {
    var reader := new Reader(bytes);
    var items: seq<Codepoint> := [];
    ghost var content := Content(bytes);
    while true
      invariant reader.Valid() && fresh(reader) && fresh(reader.codepoints)
      invariant Decode(content).Some? <==> Decode(reader.source[reader.position..]).Some?
      invariant Decode(content).Some? ==>
                  Items(content, []) == items + Items(reader.source[reader.position..], reader.values)
      decreases |reader.source| - reader.position
    {
      ghost var rest, before := reader.source[reader.position..], reader.values;
      var next := reader.ReadNext();
      match next {
        case EndOfFile =>
          ItemsAreScalars(content);
          return Some(items);
        case Invalid(_) =>
          return None;
        case Item(cp) =>
          assert rest[CharLen(rest)..] == reader.source[reader.position..];
          NextItem(items, rest, before, cp);
          items := items + [cp];
      }
    }
  }

  lemma FirstItem(s: seq<byte>, before: seq<int>)
    requires Decode(s).Some? && Decode(s).value != []
    ensures Items(s, before)[0].position == PositionAfter(before)
  {
  }

  lemma LaterItem(s: seq<byte>, before: seq<int>, i: nat)
    returns (rest: seq<byte>, after: seq<int>, item: Codepoint, earlier: seq<int>)
    requires Decode(s).Some? && 0 < i < |Decode(s).value|
    ensures |rest| < |s| && Decode(rest).Some? && i - 1 < |Decode(rest).value|
    ensures item == Items(s, before)[i] == Items(rest, after)[i - 1]
    ensures earlier == before + Decode(s).value[..i] == after + Decode(rest).value[..i - 1]
  {
    var n := CharLen(s);
    rest, after := s[n..], before + [CharValue(s)];
    item, earlier := Items(s, before)[i], before + Decode(s).value[..i];
    assert earlier == after + Decode(rest).value[..i - 1];
  }

  /** The item stands where the values before it put it. */
  predicate Placed(item: Codepoint, earlier: seq<int>) {
    item.position == PositionAfter(earlier)
  }

  lemma {:induction false} ItemPosition(s: seq<byte>, before: seq<int>, i: nat)
    requires Decode(s).Some? && i < |Decode(s).value|
    ensures Placed(Items(s, before)[i], before + Decode(s).value[..i])
    decreases |s|
  {
    if i == 0 {
      FirstItem(s, before);
      assert before + Decode(s).value[..0] == before;
    } else {
      var rest, after, item, earlier := LaterItem(s, before, i);
      ItemPosition(rest, after, i - 1);
      assert Placed(item, earlier);
    }
  }

  lemma ItemAfter(s: seq<byte>, k: nat, earlier: seq<int>)
    requires Decode(s).Some? && k < |Decode(s).value| && earlier == Decode(s).value[..k]
    ensures Items(s, [])[k].position == PositionAfter(earlier)
  {
    ItemPosition(s, [], k);
    assert [] + earlier == earlier;
  }

  /** The k-th code point stands where the line breaks and code points before it put it. */
  lemma PositionsCount(s: seq<byte>, k: nat, earlier: seq<int>)
    requires Decode(s).Some? && k < |Decode(s).value| && earlier == Decode(s).value[..k]
    ensures Items(s, [])[k].position ==
            Position((1 + LineBreaks(earlier)) % INDEX_RANGE, (1 + SinceBreak(earlier)) % INDEX_RANGE)
  {
    ItemAfter(s, k, earlier);
    PositionCounts(earlier);
  }

  function Views(items: seq<Codepoint>): seq<byte>
    requires forall i :: 0 <= i < |items| ==> |items[i].bytes| == 4
  {
    if items == [] then [] else AsView(items[0].bytes) + Views(items[1..])
  }

  /** What is left of the input when its zero bytes are dropped. */
  function WithoutNul(s: seq<byte>): seq<byte> {
    if s == [] then [] else (if s[0] == 0 then [] else [s[0]]) + WithoutNul(s[1..])
  }

  lemma {:induction false} WithoutNulSplit(a: seq<byte>, b: seq<byte>)
    ensures WithoutNul(a + b) == WithoutNul(a) + WithoutNul(b)
  {
    if a == [] {
      assert a + b == b;
    } else {
      var first: seq<byte> := if a[0] == 0 then [] else [a[0]];
      WithoutNulSplit(a[1..], b);
      assert (a + b)[0] == a[0] && (a + b)[1..] == a[1..] + b;
      Associative(first, WithoutNul(a[1..]), WithoutNul(b));
    }
  }

  lemma {:induction false} WithoutNulId(s: seq<byte>)
    requires 0 !in s
    ensures WithoutNul(s) == s
  {
    if s != [] {
      WithoutNulId(s[1..]);
    }
  }

  lemma CharWithoutNul(s: seq<byte>)
    requires CharLen(s) > 0
    ensures AsView(Pad(s[..CharLen(s)])) == WithoutNul(s[..CharLen(s)])
  {
    ViewOfChar(s);
    var a := s[..CharLen(s)];
    if s[0] != 0 {
      WithoutNulId(a);
    } else {
      assert a == [0 as byte];
    }
  }

  lemma FirstWithoutNul(s: seq<byte>)
    requires CharLen(s) > 0
    ensures var n := CharLen(s); WithoutNul(s) == AsView(Pad(s[..n])) + WithoutNul(s[n..])
  {
    var a, b := s[..CharLen(s)], s[CharLen(s)..];
    CharWithoutNul(s);
    WithoutNulSplit(a, b);
    assert a + b == s;
  }

  lemma FirstView(s: seq<byte>, before: seq<int>) returns (view: seq<byte>, rest: seq<byte>, after: seq<int>)
    requires Decode(s).Some? && s != []
    ensures |rest| < |s| && Decode(rest).Some?
    ensures Views(Items(s, before)) == view + Views(Items(rest, after)) && WithoutNul(s) == view + WithoutNul(rest)
  {
    var n := CharLen(s);
    rest, after := s[n..], before + [CharValue(s)];
    assert Items(s, before)[1..] == Items(rest, after);
    view := AsView(Pad(s[..n]));
    FirstWithoutNul(s);
  }

  /** Putting the views together gives back the input, except for its zero bytes. */
  lemma {:induction false} ViewsGiveBackTheInput(s: seq<byte>, before: seq<int>)
    requires Decode(s).Some?
    ensures Views(Items(s, before)) == WithoutNul(s)
    decreases |s|
  {
    if s != [] {
      var view, rest, after := FirstView(s, before);
      ViewsGiveBackTheInput(rest, after);
    }
  }

  lemma NulFreeInputComesBack(s: seq<byte>)
    requires Decode(s).Some? && 0 !in s
    ensures Views(Items(s, [])) == s
  {
    ViewsGiveBackTheInput(s, []);
    WithoutNulId(s);
  }
}
