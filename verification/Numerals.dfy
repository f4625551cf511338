/**
  Numbers as written: the digits by the characters that stand for them, and what a row of
  digits is worth.
 */
module Numerals {
  const SMALL: string := "0123456789abcdef"
  const CAPITAL: string := "0123456789ABCDEF"

  /** The character is a way to write the digit. */
  predicate Writes(c: int, d: nat) {
    if d < 10 then c == '0' as int + d else d < 16 && (c == 'a' as int + d - 10 || c == 'A' as int + d - 10)
  }

  /** The characters that write digits are those of the two rows, each at its own place. */
  lemma WritesIffInRow(c: int, d: nat)
    ensures Writes(c, d) <==> d < 16 && (c == SMALL[d] as int || c == CAPITAL[d] as int)
  {
    if d < 16 {
      assert SMALL[d] as int == if d < 10 then '0' as int + d else 'a' as int + d - 10;
      assert CAPITAL[d] as int == if d < 10 then '0' as int + d else 'A' as int + d - 10;
    }
  }

  predicate WritesAll(base: nat, text: seq<int>, ds: seq<nat>) {
    |text| == |ds| && forall i :: 0 <= i < |ds| ==> ds[i] < base && Writes(text[i], ds[i])
  }

  /** The number with these digits, most significant first. */
  function Positional(base: nat, ds: seq<nat>): nat {
    if ds == [] then 0 else Positional(base, ds[..|ds| - 1]) * base + ds[|ds| - 1]
  }
}
