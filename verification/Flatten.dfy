/**
  Flattening a nested array in place.  Elements are owned through slots that a
  move leaves empty.
 */
module Flatten {

  datatype Node = Leaf(value: int) | Arr(elements: seq<Node>)

  datatype Slot = Empty | Full(node: Node)

  // ---------------------------------------------------------------------------
  // What flattening means

  /** The leaves under a node, in order. */
  function Leaves(n: Node): seq<Node>
    decreases n, 1
  {
    match n
    case Leaf(_) => [n]
    case Arr(es) => LeavesOf(es)
  }

  function LeavesOf(es: seq<Node>): seq<Node>
    decreases es, 0
  {
    if es == [] then [] else Leaves(es[0]) + LeavesOf(es[1..])
  }

  function Fulls(ns: seq<Node>): (r: seq<Slot>)
    ensures |r| == |ns| && forall i :: 0 <= i < |ns| ==> r[i] == Full(ns[i])
  {
    seq(|ns|, i requires 0 <= i < |ns| => Full(ns[i]))
  }

  function Empties(n: nat): (r: seq<Slot>)
    ensures |r| == n && forall i :: 0 <= i < n ==> r[i] == Empty
  {
    seq(n, _ => Empty)
  }

  lemma {:induction false} LeavesOfConcat(a: seq<Node>, b: seq<Node>)
    ensures LeavesOf(a + b) == LeavesOf(a) + LeavesOf(b)
  {
    if a == [] {
      assert a + b == b;
    } else {
      LeavesOfConcat(a[1..], b);
      assert (a + b)[1..] == a[1..] + b;
    }
  }

  lemma LeavesOfNext(es: seq<Node>, i: nat)
    requires i < |es|
    ensures LeavesOf(es[..i + 1]) == LeavesOf(es[..i]) + Leaves(es[i])
    ensures LeavesOf(es[i..]) == Leaves(es[i]) + LeavesOf(es[i + 1..])
  {
    assert es[..i + 1] == es[..i] + [es[i]];
    LeavesOfConcat(es[..i], [es[i]]);
    LeavesOfOne(es[i]);
    assert es[i..] == [es[i]] + es[i + 1..];
    LeavesOfConcat([es[i]], es[i + 1..]);
  }

  lemma LeavesOfOne(n: Node)
    ensures LeavesOf([n]) == Leaves(n)
  {
    assert LeavesOf([n]) == Leaves(n) + LeavesOf([]);
  }

  /** Nothing under an array is an array any more. */
  lemma {:induction false} LeavesAreLeaves(n: Node)
    ensures forall x :: x in Leaves(n) ==> x.Leaf?
    decreases n, 1
  {
    if n.Arr? {
      LeavesOfAreLeaves(n.elements);
    }
  }

  lemma {:induction false} LeavesOfAreLeaves(es: seq<Node>)
    ensures forall x :: x in LeavesOf(es) ==> x.Leaf?
    decreases es, 0
  {
    if es != [] {
      LeavesAreLeaves(es[0]);
      LeavesOfAreLeaves(es[1..]);
    }
  }

  /** `total_leaf_count`. */
  method TotalLeafCount(es: seq<Node>) returns (leaves: nat)
    ensures leaves == |LeavesOf(es)|
    decreases es
  {
    leaves := 0;
    for i := 0 to |es|
      invariant leaves == |LeavesOf(es[..i])|
    {
      LeavesOfNext(es, i);
      match es[i] {
        case Arr(inner) =>
          var n := TotalLeafCount(inner);
          leaves := leaves + n;
        case Leaf(_) =>
          leaves := leaves + 1;
      }
    }
    assert es[..|es|] == es;
  }

  /** The elements without the arrays that hold no leaf. */
  function Kept(es: seq<Node>): (r: seq<Node>)
    ensures forall x :: x in r ==> Leaves(x) != []
  {
    if es == [] then [] else (if Leaves(es[0]) == [] then [] else [es[0]]) + Kept(es[1..])
  }

  lemma {:induction false} KeptKeepsLeaves(es: seq<Node>)
    ensures LeavesOf(Kept(es)) == LeavesOf(es)
  {
    if es != [] {
      KeptKeepsLeaves(es[1..]);
      if Leaves(es[0]) == [] {
        assert Kept(es) == Kept(es[1..]);
      } else {
        assert Kept(es) == [es[0]] + Kept(es[1..]);
        LeavesOfConcat([es[0]], Kept(es[1..]));
        LeavesOfOne(es[0]);
      }
    }
  }

  lemma {:induction false} LeavesOfFlat(es: seq<Node>)
    requires forall x :: x in es ==> x.Leaf?
    ensures LeavesOf(es) == es
  {
    if es != [] {
      LeavesOfFlat(es[1..]);
      assert es[0] in es;
    }
  }

  /** Flattening leaves leaves only, and flattening again changes nothing. */
  lemma FlatStaysFlat(es: seq<Node>)
    ensures (forall x :: x in LeavesOf(es) ==> x.Leaf?) && LeavesOf(LeavesOf(es)) == LeavesOf(es)
  {
    LeavesOfAreLeaves(es);
    LeavesOfFlat(LeavesOf(es));
  }

  predicate HasArray(es: seq<Node>) {
    exists x :: x in es && x.Arr?
  }

  // ---------------------------------------------------------------------------
  // The array

  class Array {
    var elements: seq<Slot>

    constructor (nodes: seq<Node>)
      ensures elements == Fulls(nodes)
    {
      elements := Fulls(nodes);
    }

    /** Open a gap of `count` empty slots at `idx`. */
    method PreinsertionResize(idx: nat, count: nat)
      requires idx <= |elements| && count >= 1
      modifies this
      ensures elements == old(elements)[..idx] + Empties(count) + old(elements)[idx..]
    {
      ghost var before := elements;
      var oldSize := |elements|;
      var insertingAtEnd := idx == oldSize;
      elements := elements + Empties(count);
      if !insertingAtEnd {
        var left := oldSize;
        while left > idx
          invariant idx <= left <= oldSize && |elements| == oldSize + count
          invariant forall k :: 0 <= k < left ==> elements[k] == before[k]
          invariant forall k :: left <= k < left + count ==> elements[k] == Empty
          invariant forall k :: left <= k < oldSize ==> elements[k + count] == before[k]
        {
          left := left - 1;
          var right := left + count;
          elements := elements[right := elements[left]][left := Empty];
        }
      }
      assert forall k :: idx + count <= k < oldSize + count ==> elements[k] == before[k - count];
    }

    /** Move the leaves of `child` into the slots from `dest` on. */
    method FlattenChild(child: seq<Node>, dest: nat) returns (next: nat)
      requires dest + |LeavesOf(child)| <= |elements|
      modifies this
      ensures next == dest + |LeavesOf(child)| && elements == Filled(old(elements), dest, LeavesOf(child))
      decreases child, 0
    {
      next := dest;
      ghost var before := elements;
      FilledNothing(before, dest);
      for i := 0 to |child|
        invariant next == dest + |LeavesOf(child[..i])| && next + |LeavesOf(child[i..])| == dest + |LeavesOf(child)|
        invariant elements == Filled(before, dest, LeavesOf(child[..i]))
      {
        LeavesOfNext(child, i);
        next := FlattenOne(child[i], next);
        FilledTwice(before, dest, LeavesOf(child[..i]), Leaves(child[i]));
      }
      assert child[..|child|] == child;
    }

    /** The body of the loop, for one element of the child. */
    method FlattenOne(node: Node, dest: nat) returns (next: nat)
      requires dest + |Leaves(node)| <= |elements|
      modifies this
      ensures next == dest + |Leaves(node)| && elements == Filled(old(elements), dest, Leaves(node))
      decreases node, 1
    {
      next := dest;
      match node {
        case Arr(inner) =>
          if inner != [] {
            next := FlattenChild(inner, next);
          } else {
            FilledNothing(elements, dest);
          }
        case Leaf(_) =>
          elements := elements[next := Full(node)];
          next := next + 1;
      }
    }

    /** One turn of the first loop, at the node `n` between `a` and `b`. */
    method PruneOne(i: nat, flag: bool, size: nat, ghost a: seq<Node>, ghost n: Node, ghost b: seq<Node>)
      returns (flag': bool, size': nat)
      requires elements == Fulls(a + [n] + b) && i == |a| && size >= 1
      modifies this
      ensures elements == Fulls(a + Kept([n]) + b) && size' == size - 1 + |Leaves(n)|
      ensures flag' <==> flag || (n.Arr? && Leaves(n) != [])
    {
      assert elements[i] == Full(n);
      flag', size' := flag, size;
      KeptOne(n);
      if elements[i].node.Arr? {
        var leafCount := TotalLeafCount(elements[i].node.elements);
        size' := size' - 1;
        if leafCount > 0 {
          flag' := true;
          size' := size' + leafCount;
        } else {
          elements := elements[..i] + elements[i + 1..];
          assert a + [] + b == a + b;
        }
      }
    }

    /**
      The first loop, from the last element to the first: arrays without leaves
      are erased, and the size after flattening is added up.
     */
    method Prune(ghost nodes: seq<Node>) returns (requiresFlattening: bool, size: nat)
      requires elements == Fulls(nodes)
      modifies this
      ensures elements == Fulls(Kept(nodes)) && size == |LeavesOf(nodes)|
      ensures requiresFlattening <==> HasArray(Kept(nodes))
    {
      requiresFlattening, size := false, |elements|;
      var i := |elements|;
      ghost var rest: seq<Node> := [];
      assert nodes == nodes[..i] + rest && nodes[i..] == [];
      while i > 0
        invariant 0 <= i <= |nodes| && rest == Kept(nodes[i..]) && elements == Fulls(nodes[..i] + rest)
        invariant size == i + |LeavesOf(nodes[i..])|
        invariant requiresFlattening <==> HasArray(rest)
      {
        i := i - 1;
        LeavesOfNext(nodes, i);
        KeptNext(nodes, i);
        Peel(nodes, i, rest);
        HasArrayNext(nodes[i], rest);
        requiresFlattening, size := PruneOne(i, requiresFlattening, size, nodes[..i], nodes[i], rest);
        Regroup(nodes[..i], Kept([nodes[i]]), rest);
        rest := Kept([nodes[i]]) + rest;
      }
      assert nodes[0..] == nodes && nodes[..0] + rest == rest;
    }

    /** One array of the second loop: its leaves take the place of the array. */
    method Expand(i: nat, ghost a: seq<Node>, ghost n: Node, ghost b: seq<Node>) returns (next: nat)
      requires elements == Fulls(a + [n] + b) && i == |a| && n.Arr? && Leaves(n) != []
      modifies this
      ensures elements == Fulls(a + Leaves(n) + b) && next == |a| + |Leaves(n)|
    {
      assert elements[i] == Full(n);
      var arr := elements[i].node.elements;
      elements := elements[i := Empty];
      var leafCount := TotalLeafCount(arr);
      assert elements == Fulls(a) + Empties(1) + Fulls(b);
      if leafCount > 1 {
        PreinsertionResize(i + 1, leafCount - 1);
      }
      GapOpened(a, b, leafCount);
      next := FlattenChild(arr, i);
      GapFilled(a, Leaves(n), b);
    }

    /** One turn of the second loop. */
    method SpreadOne(i: nat, ghost a: seq<Node>, ghost n: Node, ghost b: seq<Node>) returns (next: nat)
      requires elements == Fulls(a + [n] + b) && i == |a| && Leaves(n) != []
      modifies this
      ensures elements == Fulls(a + Leaves(n) + b) && next == |a| + |Leaves(n)|
    {
      assert elements[i] == Full(n);
      if !elements[i].node.Arr? {
        return i + 1;
      }
      next := Expand(i, a, n, b);
    }

    /** The second loop. */
    method Spread(ghost ks: seq<Node>)
      requires elements == Fulls(ks) && forall x :: x in ks ==> Leaves(x) != []
      modifies this
      ensures elements == Fulls(LeavesOf(ks))
    {
      var i := 0;
      ghost var done, rest: seq<Node> := [], ks;
      assert done + rest == ks;
      while i < |elements|
        invariant i == |done| && done + LeavesOf(rest) == LeavesOf(ks) && elements == Fulls(done + rest)
        invariant forall x :: x in rest ==> Leaves(x) != []
        decreases |rest|
      {
        assert rest == [rest[0]] + rest[1..];
        Regroup(done, [rest[0]], rest[1..]);
        Regroup(done, Leaves(rest[0]), LeavesOf(rest[1..]));
        i := SpreadOne(i, done, rest[0], rest[1..]);
        done, rest := done + Leaves(rest[0]), rest[1..];
      }
      assert rest == [] && done + [] == done;
    }

    /**
      Flatten in place: what remains are exactly the leaves, in order, and as
      many of them as room was reserved for.
     */
    method FlattenInPlace(ghost nodes: seq<Node>) returns (reserved: nat)
      requires elements == Fulls(nodes)
      modifies this
      ensures elements == Fulls(LeavesOf(nodes)) && reserved == |elements|
    {
      if |elements| == 0 {
        assert nodes == [];
        return 0;
      }
      var requiresFlattening, size := Prune(nodes);
      KeptKeepsLeaves(nodes);
      reserved := size;
      if !requiresFlattening {
        LeavesOfFlat(Kept(nodes));
        return;
      }
      Spread(Kept(nodes));
    }
  }

  lemma KeptOne(n: Node)
    ensures Kept([n]) == if Leaves(n) == [] then [] else [n]
  {
    assert [n][1..] == [];
  }

  lemma KeptNext(nodes: seq<Node>, i: nat)
    requires i < |nodes|
    ensures Kept(nodes[i..]) == Kept([nodes[i]]) + Kept(nodes[i + 1..])
  {
    KeptOne(nodes[i]);
    assert nodes[i..][0] == nodes[i] && nodes[i..][1..] == nodes[i + 1..];
  }

  lemma Peel(nodes: seq<Node>, i: nat, rest: seq<Node>)
    requires i < |nodes|
    ensures nodes[..i + 1] + rest == nodes[..i] + [nodes[i]] + rest
  {
  }

  lemma Regroup(a: seq<Node>, b: seq<Node>, c: seq<Node>)
    ensures a + b + c == a + (b + c)
  {
  }

  lemma HasArrayNext(n: Node, rest: seq<Node>)
    ensures HasArray(Kept([n]) + rest) <==> HasArray(rest) || (n.Arr? && Leaves(n) != [])
  {
    KeptOne(n);
    var all := Kept([n]) + rest;
    assert forall x :: x in rest ==> x in all;
    if n.Arr? && Leaves(n) != [] {
      assert n in all;
    }
  }

  lemma GapOpened(a: seq<Node>, b: seq<Node>, n: nat)
    requires n >= 1
    ensures var s := Fulls(a) + Empties(1) + Fulls(b);
            && Fulls(a) + Empties(n) + Fulls(b) == s[..|a| + 1] + Empties(n - 1) + s[|a| + 1..]
            && (n == 1 ==> s == Fulls(a) + Empties(n) + Fulls(b))
  {
  }

  lemma GapFilled(a: seq<Node>, ls: seq<Node>, b: seq<Node>)
    ensures Filled(Fulls(a) + Empties(|ls|) + Fulls(b), |a|, ls) == Fulls(a + ls + b)
  {
  }

  /** The slots with those from `dest` on replaced by the given nodes. */
  function Filled(s: seq<Slot>, dest: nat, ns: seq<Node>): (r: seq<Slot>)
    requires dest + |ns| <= |s|
    ensures |r| == |s|
  {
    s[..dest] + Fulls(ns) + s[dest + |ns|..]
  }

  lemma FilledNothing(s: seq<Slot>, dest: nat)
    requires dest <= |s|
    ensures Filled(s, dest, []) == s
  {
  }

  lemma FilledTwice(s: seq<Slot>, dest: nat, a: seq<Node>, b: seq<Node>)
    requires dest + |a| + |b| <= |s|
    ensures Filled(Filled(s, dest, a), dest + |a|, b) == Filled(s, dest, a + b)
  {
  }
}
