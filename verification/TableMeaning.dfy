/**
  What a value says, read off the way it is written: which paths below it lead to a table, an
  array or a scalar.  The nodes that the parser makes for it hold exactly that.
 */
module TableMeaning {
  import opened Basics
  import opened TableDefinition
  import opened TableLaws
  import opened TableTree
  import opened TableCells

  // ---------------------------------------------------------------------------
  // Values as written

  function Names(path: seq<string>): seq<Slot> {
    seq(|path|, i requires 0 <= i < |path| => Name(path[i]))
  }

  function KeyPath(key: Key): seq<Slot> {
    Names(key.parents) + [Name(key.last)]
  }

  /** One of the two keys goes through the other. */
  predicate Clash(a: Key, b: Key) {
    KeyPath(a) <= KeyPath(b) || KeyPath(b) <= KeyPath(a)
  }

  /** No inline table has two keys of which one goes through the other. */
  predicate Sound(x: Expr) {
    match x
    case Scalar(_) => true
    case Items(xs) => forall i :: 0 <= i < |xs| ==> Sound(xs[i])
    case Inline(ps) => SoundPairs(ps)
  }

  predicate SoundPair(p: Pair) {
    Sound(p.value)
  }

  predicate SoundPairs(ps: seq<Pair>) {
    && (forall i :: 0 <= i < |ps| ==> SoundPair(ps[i]))
    && (forall i, j :: 0 <= i < j < |ps| ==> !Clash(ps[i].key, ps[j].key))
  }

  /**
    What is at a path below a value: its elements by their position, its values by their keys,
    and a table at every part of a dotted key.
   */
  function CellOf(x: Expr, q: seq<Slot>): Option<Cell> {
    match x
    case Scalar(k) => if q == [] then Some(ValueCell(k)) else None
    case Items(xs) =>
      if q == [] then Some(ArrayCell(|xs|, false))
      else if q[0].Index? && q[0].i < |xs| then CellOf(xs[q[0].i], q[1..]) else None
    case Inline(ps) => if q == [] then Some(TableCell(Plain)) else CellOfPairs(ps, q)
  }

  function CellOfPairs(ps: seq<Pair>, q: seq<Slot>): Option<Cell> {
    if ps == [] then None else
    var k := KeyPath(ps[|ps| - 1].key);
    if k <= q then CellOfPair(ps[|ps| - 1], q[|k|..])
    else if q <= k then Some(TableCell(Dotted))
    else CellOfPairs(ps[..|ps| - 1], q)
  }

  function CellOfPair(p: Pair, q: seq<Slot>): Option<Cell> {
    CellOf(p.value, q)
  }

  function Says(x: Expr): Content {
    q => CellOf(x, q)
  }

  /** The node `id` of `d` is what `x` says. */
  ghost predicate Denotes(d: Doc, id: nat, x: Expr) {
    forall q :: CellAt(d, id, q) == CellOf(x, q)
  }

  // ---------------------------------------------------------------------------
  // Keys that fit

  /** The key can be given a value below `r`: nothing is there, and only dotted-key tables on the way. */
  predicate Fits(c: Content, r: seq<Slot>, key: Key) {
    var w := Way(c, r, key.parents, true);
    w.Some? && c(w.value + [Name(key.last)]) == None
  }

  predicate Passable(cell: Option<Cell>) {
    cell == None || cell == Some(TableCell(Dotted))
  }

  /** A dotted key goes through tables only, so its way is its names. */
  lemma {:induction false} DottedWay(c: Content, r: seq<Slot>, path: seq<string>)
    ensures Way(c, r, path, true).Some? ==> Way(c, r, path, true).value == r + Names(path)
    ensures Way(c, r, path, true).Some? <==> forall n :: 0 < n <= |path| ==> Passable(c(r + Names(path)[..n]))
    decreases path
  {
    if path == [] {
      assert r + Names(path) == r;
    } else {
      var x := r + [Name(path[0])];
      assert Names(path) == [Name(path[0])] + Names(path[1..]);
      assert r + Names(path)[..1] == x;
      DottedWay(c, x, path[1..]);
      assert x + Names(path[1..]) == r + Names(path);
      forall n | 0 < n < |path| ensures x + Names(path[1..])[..n] == r + Names(path)[..n + 1] {
      }
      if Passable(c(x)) {
        if forall n :: 0 < n <= |path[1..]| ==> Passable(c(x + Names(path[1..])[..n])) {
          forall n | 0 < n <= |path| ensures Passable(c(r + Names(path)[..n])) {
            if n > 1 { assert x + Names(path[1..])[..n - 1] == r + Names(path)[..n]; }
          }
        }
      }
    }
  }

  /** What the pairs say at the path of the key of one of them, or on the way there. */
  lemma {:induction false} CellOfOne(ps: seq<Pair>, i: nat, q: seq<Slot>)
    requires SoundPairs(ps) && i < |ps| && q != []
    ensures KeyPath(ps[i].key) <= q ==> CellOfPairs(ps, q) == CellOf(ps[i].value, q[|KeyPath(ps[i].key)|..])
    ensures q <= KeyPath(ps[i].key) && q != KeyPath(ps[i].key) ==> CellOfPairs(ps, q) == Some(TableCell(Dotted))
    decreases ps
  {
    var m := |ps| - 1;
    var k := KeyPath(ps[m].key);
    if i < m {
      assert !Clash(ps[i].key, ps[m].key);
      Comparable(KeyPath(ps[i].key), k, q);
      if !(q <= k) {
        CellOfOne(ps[..m], i, q);
      }
    }
  }

  lemma PrefixesCompare(a: seq<Slot>, b: seq<Slot>, q: seq<Slot>)
    requires a <= q && b <= q
    ensures a <= b || b <= a
  {
    if |a| <= |b| {
      assert a == q[..|b|][..|a|];
    } else {
      assert b == q[..|a|][..|b|];
    }
  }

  lemma Comparable(a: seq<Slot>, b: seq<Slot>, q: seq<Slot>)
    requires !(a <= b) && !(b <= a)
    ensures !(a <= q && b <= q) && !(a <= q <= b) && !(b <= q <= a)
  {
    if a <= q && b <= q { PrefixesCompare(a, b, q); }
  }

  /** Where no key of the pairs goes through the path, they say nothing there or that it is on a way. */
  lemma {:induction false} CellOfNone(ps: seq<Pair>, q: seq<Slot>)
    requires q != [] && forall i :: 0 <= i < |ps| ==> !(KeyPath(ps[i].key) <= q)
    ensures Passable(CellOfPairs(ps, q))
    ensures (forall i :: 0 <= i < |ps| ==> !(q <= KeyPath(ps[i].key))) ==> CellOfPairs(ps, q) == None
    decreases ps
  {
    if ps != [] { CellOfNone(ps[..|ps| - 1], q); }
  }

  lemma {:induction false} ValueIsThere(x: Expr)
    ensures CellOf(x, []).Some? && !Passable(CellOf(x, []))
  {
  }

  predicate ClashesWithNone(ps: seq<Pair>, key: Key) {
    forall i :: 0 <= i < |ps| ==> !Clash(ps[i].key, key)
  }

  lemma {:induction false} PrefixOfWay(key: Key, n: nat)
    requires 0 < n <= |key.parents|
    ensures [] + Names(key.parents)[..n] == KeyPath(key)[..n] && KeyPath(key)[..n] <= KeyPath(key)
  {
  }

  lemma ApartFits(ps: seq<Pair>, key: Key)
    requires ClashesWithNone(ps, key)
    ensures Fits(Says(Inline(ps)), [], key)
  {
    var c, k := Says(Inline(ps)), KeyPath(key);
    forall n | 0 < n <= |key.parents| ensures Passable(c([] + Names(key.parents)[..n])) {
      PrefixOfWay(key, n);
      forall i | 0 <= i < |ps| ensures !(KeyPath(ps[i].key) <= k[..n]) {
        assert !Clash(ps[i].key, key);
        Comparable(KeyPath(ps[i].key), k, k[..n]);
      }
      CellOfNone(ps, k[..n]);
    }
    DottedWay(c, [], key.parents);
    assert [] + Names(key.parents) + [Name(key.last)] == k;
    forall i | 0 <= i < |ps| ensures !(KeyPath(ps[i].key) <= k) && !(k <= KeyPath(ps[i].key)) {
      assert !Clash(ps[i].key, key);
    }
    CellOfNone(ps, k);
  }

  lemma {:induction false} ClashingDoesNotFit(ps: seq<Pair>, key: Key, i: nat)
    requires SoundPairs(ps) && i < |ps| && Clash(ps[i].key, key)
    ensures !Fits(Says(Inline(ps)), [], key)
  {
    var c, k, other := Says(Inline(ps)), KeyPath(key), KeyPath(ps[i].key);
    DottedWay(c, [], key.parents);
    assert [] + Names(key.parents) + [Name(key.last)] == k;
    if other <= k {
      var n := |other|;
      CellOfOne(ps, i, other);
      assert other[n..] == [];
      ValueIsThere(ps[i].value);
      if n <= |key.parents| {
        PrefixOfWay(key, n);
        assert k[..n] == other;
        assert !Passable(c([] + Names(key.parents)[..n]));
      } else {
        assert other == k;
      }
    } else {
      CellOfOne(ps, i, k);
    }
  }

  /** A key fits into an inline table exactly when it clashes with no earlier one. */
  lemma KeyFitsIff(ps: seq<Pair>, key: Key)
    requires SoundPairs(ps)
    ensures Fits(Says(Inline(ps)), [], key) <==> ClashesWithNone(ps, key)
  {
    if ClashesWithNone(ps, key) {
      ApartFits(ps, key);
    } else {
      var i :| 0 <= i < |ps| && Clash(ps[i].key, key);
      ClashingDoesNotFit(ps, key, i);
    }
  }

  // ---------------------------------------------------------------------------
  // Key/value pairs

  lemma BuildKeeps(d: Doc, x: Expr)
    requires Valid(d) && Build(d, x).Some?
    ensures Keeps(d, Build(d, x).value.doc)
  {
    BuildTouchesNothing(d, x);
    var e := Build(d, x).value.doc;
    forall id | id in d.dotted ensures id in e.dotted { InLongerList(d.dotted, e.dotted, id); }
  }

  /** The state of an insertion after its value is built. */
  lemma {:induction false} Built(d: Doc, o: nat, r: seq<Slot>, t: nat, x: Expr)
    requires Leads(d, o, r, t) && IsTable(d, t) && Build(d, x).Some?
    ensures var v := Build(d, x).value;
      Leads(v.doc, o, r, t) && IsTable(v.doc, t) && Orphan(v.doc, v.at) && v.at != o && v.at in v.doc.nodes
  {
    BuildKeeps(d, x);
    BuildTree(d, x);
    AddedCells(d, Build(d, x).value.doc, o, r);
  }

  lemma {:induction false} BuiltContent(d: Doc, o: nat, x: Expr, r: seq<Slot>, path: seq<string>)
    requires Valid(d) && o in d.nodes && Build(d, x).Some?
    ensures forall q :: CellAt(Build(d, x).value.doc, o, q) == CellAt(d, o, q)
    ensures Way(ContentOf(Build(d, x).value.doc, o), r, path, true) == Way(ContentOf(d, o), r, path, true)
  {
    var e := Build(d, x).value.doc;
    BuildKeeps(d, x);
    forall q ensures CellAt(e, o, q) == CellAt(d, o, q) { AddedCells(d, e, o, q); }
    WaySame(ContentOf(e, o), ContentOf(d, o), r, path, true);
  }

  /** A pair is accepted exactly when its value is and its key fits. */
  lemma {:induction false} InsertMeans(d: Doc, o: nat, r: seq<Slot>, t: nat, pair: Pair)
    requires Leads(d, o, r, t) && IsTable(d, t)
    ensures Insert(d, t, pair).Some? <==> Build(d, pair.value).Some? && Fits(ContentOf(d, o), r, pair.key)
  {
    if Build(d, pair.value).Some? {
      var v := Build(d, pair.value).value;
      Built(d, o, r, t, pair.value);
      BuiltContent(d, o, pair.value, r, pair.key.parents);
      WalkMeans(v.doc, o, r, t, pair.key.parents, true);
      if Walk(v.doc, t, pair.key.parents, true).Some? {
        WalkSpot(v.doc, o, r, t, pair.key.parents, true, pair.key.last);
      }
    }
  }

  /** Just before the value of an accepted pair is linked. */
  lemma {:induction false} BeforeValue(d: Doc, o: nat, r: seq<Slot>, t: nat, pair: Pair) returns (v: Place, p: Place, w: seq<Slot>)
    requires Leads(d, o, r, t) && IsTable(d, t) && Insert(d, t, pair).Some?
    ensures Build(d, pair.value) == Some(v) && v.at in p.doc.nodes && Orphan(p.doc, v.at) && v.at != o
    ensures w == r + Names(pair.key.parents) && Leads(p.doc, o, w, p.at) && IsTable(p.doc, p.at)
    ensures pair.key.last !in p.doc.nodes[p.at].entries
    ensures Insert(d, t, pair).value == Link(p.doc, p.at, pair.key.last, v.at)
    ensures forall q :: Descends(d, p.doc, o, r, w, true, q)
    ensures forall q :: CellAt(p.doc, v.at, q) == CellAt(v.doc, v.at, q)
  {
    v := Build(d, pair.value).value;
    Built(d, o, r, t, pair.value);
    BuiltContent(d, o, pair.value, r, pair.key.parents);
    WalkMeans(v.doc, o, r, t, pair.key.parents, true);
    WalkTree(v.doc, t, pair.key.parents, true);
    p := Walk(v.doc, t, pair.key.parents, true).value;
    w := Way(ContentOf(d, o), r, pair.key.parents, true).value;
    DottedWay(ContentOf(d, o), r, pair.key.parents);
    forall q ensures Descends(d, p.doc, o, r, w, true, q) {
      WalkCells(v.doc, o, r, t, pair.key.parents, true, w, q);
    }
    forall q ensures CellAt(p.doc, v.at, q) == CellAt(v.doc, v.at, q) {
      WalkOthers(v.doc, o, r, t, pair.key.parents, true, v.at, q);
    }
  }

  lemma LinkedCells(d: Doc, t: nat, key: string, id: nat)
    requires IsTable(d, t) && key !in d.nodes[t].entries
    ensures var e := Link(d, t, key, id);
      Attaches(d, e, t, Name(key), id) && SameCells(d, e, t) && t in e.nodes && CellOfNode(e, t) == CellOfNode(d, t)
  {
  }

  lemma {:induction false} LinkedBelow(d: Doc, o: nat, w: seq<Slot>, t: nat, key: string, id: nat, q: seq<Slot>)
    requires Leads(d, o, w, t) && IsTable(d, t) && key !in d.nodes[t].entries && id in d.nodes && Orphan(d, id) && id != o
    ensures CellAt(Link(d, t, key, id), o, w + [Name(key)] + q) == CellAt(d, id, q)
  {
    LinkedCells(d, t, key, id);
    AttachedCells(d, Link(d, t, key, id), o, w, t, Name(key), id, q);
  }

  lemma {:induction false} LinkedElsewhere(d: Doc, o: nat, w: seq<Slot>, t: nat, key: string, id: nat, q: seq<Slot>)
    requires Leads(d, o, w, t) && IsTable(d, t) && key !in d.nodes[t].entries && !(w + [Name(key)] <= q)
    ensures CellAt(Link(d, t, key, id), o, q) == CellAt(d, o, q)
  {
    LinkedCells(d, t, key, id);
    if q == w {
      AttachKeepsPaths(d, Link(d, t, key, id), o, w, t, Name(key), id, q);
    } else {
      OtherCells(d, Link(d, t, key, id), o, w, t, Name(key), id, q);
    }
  }

  lemma WayThenLast(r: seq<Slot>, key: Key)
    ensures r + Names(key.parents) + [Name(key.last)] == r + KeyPath(key)
  {
  }

  /** The value is at the key of the pair, with everything in it. */
  lemma {:induction false} InsertedBelow(d: Doc, o: nat, r: seq<Slot>, t: nat, pair: Pair, q: seq<Slot>)
    requires Leads(d, o, r, t) && IsTable(d, t) && Insert(d, t, pair).Some? && Build(d, pair.value).Some?
    ensures var v := Build(d, pair.value).value;
      CellAt(Insert(d, t, pair).value, o, r + KeyPath(pair.key) + q) == CellAt(v.doc, v.at, q)
  {
    var v, p, w := BeforeValue(d, o, r, t, pair);
    WayThenLast(r, pair.key);
    LinkedBelow(p.doc, o, w, p.at, pair.key.last, v.at, q);
  }

  /** Elsewhere only the missing tables on the way are new. */
  lemma {:induction false} InsertedElsewhere(d: Doc, o: nat, r: seq<Slot>, t: nat, pair: Pair, q: seq<Slot>)
    requires Leads(d, o, r, t) && IsTable(d, t) && Insert(d, t, pair).Some? && !(r + KeyPath(pair.key) <= q)
    ensures Descends(d, Insert(d, t, pair).value, o, r, r + Names(pair.key.parents), true, q)
  {
    var v, p, w := BeforeValue(d, o, r, t, pair);
    WayThenLast(r, pair.key);
    assert Descends(d, p.doc, o, r, w, true, q);
    LinkedElsewhere(p.doc, o, w, p.at, pair.key.last, v.at, q);
  }

  // ---------------------------------------------------------------------------
  // Values

  /** Built values keep saying what they say. */
  lemma {:induction false} DenotesStill(d: Doc, e: Doc, id: nat, x: Expr)
    requires WellFormed(d) && id in d.nodes && Keeps(d, e) && Denotes(d, id, x)
    ensures Denotes(e, id, x)
  {
    forall q ensures CellAt(e, id, q) == CellOf(x, q) {
      AddedCells(d, e, id, q);
    }
  }

  lemma {:induction false} ScalarDenotes(d: Doc, k: Kind)
    requires Valid(d)
    ensures Denotes(Alloc(d, Value(k)), d.next, Scalar(k))
  {
    forall q ensures CellAt(Alloc(d, Value(k)), d.next, q) == CellOf(Scalar(k), q) {
      LeafCell(Alloc(d, Value(k)), d.next, q);
    }
  }

  lemma {:induction false} EmptyDenotes(d: Doc)
    requires Valid(d)
    ensures Denotes(Alloc(d, Table(map[])), d.next, Inline([]))
  {
    forall q ensures CellAt(Alloc(d, Table(map[])), d.next, q) == CellOf(Inline([]), q) {
      LeafCell(Alloc(d, Table(map[])), d.next, q);
    }
  }

  ghost predicate DenoteAll(d: Doc, ids: seq<nat>, xs: seq<Expr>) {
    |ids| == |xs| && forall i :: 0 <= i < |ids| ==> ids[i] in d.nodes && Denotes(d, ids[i], xs[i])
  }

  lemma AllocKeeps(d: Doc, node: Node)
    requires Valid(d)
    ensures Keeps(d, Alloc(d, node))
  {
  }

  lemma {:induction false} ArrayDenotes(d: Doc, ids: seq<nat>, xs: seq<Expr>)
    requires Valid(d) && DenoteAll(d, ids, xs)
    ensures Denotes(Alloc(d, Array(ids)), d.next, Items(xs))
  {
    var e := Alloc(d, Array(ids));
    AllocKeeps(d, Array(ids));
    forall q ensures CellAt(e, d.next, q) == CellOf(Items(xs), q) {
      if q != [] {
        var s := q[0];
        assert q == [s] + q[1..];
        PathConcat(e, d.next, [s], q[1..]);
        PathSnoc(e, d.next, [], s);
        assert [] + [s] == [s];
        if s.Index? && s.i < |ids| {
          DenotesStill(d, e, ids[s.i], xs[s.i]);
        }
      }
    }
  }

  /** What the pairs say with one more among them. */
  lemma {:induction false} OnePairMore(ps: seq<Pair>, p: Pair, q: seq<Slot>)
    ensures CellOf(Inline(ps + [p]), q) ==
      if KeyPath(p.key) <= q then CellOf(p.value, q[|KeyPath(p.key)|..])
      else if q != [] && q <= KeyPath(p.key) then Some(TableCell(Dotted))
      else CellOf(Inline(ps), q)
  {
    assert (ps + [p])[..|ps|] == ps && (ps + [p])[|ps|] == p;
    assert |KeyPath(p.key)| > 0;
    if q != [] {
      var k := KeyPath(p.key);
      assert CellOfPairs(ps + [p], q) ==
        if k <= q then CellOfPair(p, q[|k|..]) else if q <= k then Some(TableCell(Dotted)) else CellOfPairs(ps, q);
    }
  }

  lemma SoundWithOneMore(ps: seq<Pair>, p: Pair)
    requires SoundPairs(ps)
    ensures SoundPairs(ps + [p]) <==> Sound(p.value) && ClashesWithNone(ps, p.key)
  {
    var all := ps + [p];
    if SoundPairs(all) {
      assert SoundPair(all[|ps|]);
      forall i | 0 <= i < |ps| ensures !Clash(ps[i].key, p.key) {
        assert !Clash(all[i].key, all[|ps|].key);
      }
    }
  }

  lemma {:induction false} PairAddedIff(d: Doc, t: nat, done: seq<Pair>, p: Pair)
    requires Leads(d, t, [], t) && IsTable(d, t) && Denotes(d, t, Inline(done)) && SoundPairs(done)
    requires Build(d, p.value).Some? <==> Sound(p.value)
    ensures Insert(d, t, p).Some? <==> SoundPairs(done + [p])
  {
    InsertMeans(d, t, [], t, p);
    KeyFitsIff(done, p.key);
    FitsSame(ContentOf(d, t), Says(Inline(done)), [], p.key);
    SoundWithOneMore(done, p);
  }

  lemma {:induction false} FitsSame(b: Content, c: Content, r: seq<Slot>, key: Key)
    requires forall q :: b(q) == c(q)
    ensures Fits(b, r, key) == Fits(c, r, key)
  {
    WaySame(b, c, r, key.parents, true);
  }

  /** On the way of a key that fits there are only dotted-key tables. */
  lemma {:induction false} FittingWay(c: Content, key: Key, q: seq<Slot>)
    requires Fits(c, [], key) && q != [] && q <= KeyPath(key) && q != KeyPath(key)
    ensures Passable(c(q)) && [] <= q <= [] + Names(key.parents)
  {
    DottedWay(c, [], key.parents);
    PrefixOfWay(key, |q|);
    assert q == [] + Names(key.parents)[..|q|];
  }

  lemma {:induction false} PairAddedCell(d: Doc, t: nat, done: seq<Pair>, p: Pair, q: seq<Slot>)
    requires Leads(d, t, [], t) && IsTable(d, t) && Denotes(d, t, Inline(done)) && Insert(d, t, p).Some?
    requires Build(d, p.value).Some? && Denotes(Build(d, p.value).value.doc, Build(d, p.value).value.at, p.value)
    ensures CellAt(Insert(d, t, p).value, t, q) == CellOf(Inline(done + [p]), q)
  {
    OnePairMore(done, p, q);
    if KeyPath(p.key) <= q {
      PrefixAndRest(KeyPath(p.key), q);
      PairAddedBelow(d, t, p, q, q[|KeyPath(p.key)|..]);
    } else {
      FromNowhere(KeyPath(p.key));
      InsertedElsewhere(d, t, [], t, p, q);
      PairAddedElsewhere(d, t, done, p, q);
    }
  }

  lemma PrefixAndRest(x: seq<Slot>, q: seq<Slot>)
    requires x <= q
    ensures q == x + q[|x|..]
  {
  }

  lemma FromNowhere(k: seq<Slot>)
    ensures [] + k == k
  {
  }

  lemma {:induction false} PairAddedBelow(d: Doc, t: nat, p: Pair, q: seq<Slot>, rest: seq<Slot>)
    requires Leads(d, t, [], t) && IsTable(d, t) && Insert(d, t, p).Some? && q == KeyPath(p.key) + rest
    requires Build(d, p.value).Some? && Denotes(Build(d, p.value).value.doc, Build(d, p.value).value.at, p.value)
    ensures CellAt(Insert(d, t, p).value, t, q) == CellOf(p.value, rest)
  {
    FromNowhere(KeyPath(p.key));
    InsertedBelow(d, t, [], t, p, rest);
  }

  lemma {:induction false} PairAddedElsewhere(d: Doc, t: nat, done: seq<Pair>, p: Pair, q: seq<Slot>)
    requires Leads(d, t, [], t) && IsTable(d, t) && Denotes(d, t, Inline(done)) && Insert(d, t, p).Some?
    requires !(KeyPath(p.key) <= q)
    ensures var was := CellAt(d, t, q);
      (if [] <= q <= [] + Names(p.key.parents) && was == None then Some(TableCell(Dotted)) else was) ==
      if q != [] && q <= KeyPath(p.key) then Some(TableCell(Dotted)) else CellOf(Inline(done), q)
  {
    assert CellAt(d, t, q) == CellOf(Inline(done), q);
    if q != [] {
      if q <= KeyPath(p.key) {
        InsertMeans(d, t, [], t, p);
        FittingWay(ContentOf(d, t), p.key, q);
      } else {
        NotOnTheWay(p.key, q);
      }
    }
  }

  lemma NotOnTheWay(key: Key, q: seq<Slot>)
    requires !(q <= KeyPath(key))
    ensures !(q <= [] + Names(key.parents))
  {
    assert [] + Names(key.parents) == KeyPath(key)[..|key.parents|];
  }

  /**
    A value is accepted exactly when no inline table in it has clashing keys, and the nodes
    made for it are what it says: every element at its position, every value at its key, and
    nothing else.
   */
  lemma {:induction false} BuildMeans(d: Doc, x: Expr)
    requires Valid(d) && Forest(d)
    ensures Build(d, x).Some? <==> Sound(x)
    ensures Build(d, x).Some? ==> Denotes(Build(d, x).value.doc, Build(d, x).value.at, x)
    decreases x, 0
  {
    match x
    case Scalar(k) =>
      ScalarDenotes(d, k);
    case Items(xs) =>
      BuildArrayMeans(d, xs);
    case Inline(ps) =>
      BuildInlineMeans(d, ps);
  }

  lemma {:induction false} BuildArrayMeans(d: Doc, xs: seq<Expr>)
    requires Valid(d) && Forest(d)
    ensures BuildArray(d, xs).Some? <==> AllSound(xs)
    ensures BuildArray(d, xs).Some? ==> Denotes(BuildArray(d, xs).value.doc, BuildArray(d, xs).value.at, Items(xs))
    decreases xs, 1
  {
    BuildAllMeans(d, xs, [], []);
    assert [] + xs == xs;
    if BuildAll(d, xs, []).Some? {
      var (e, ids) := BuildAll(d, xs, []).value;
      ArrayDenotes(e, ids, xs);
    }
  }

  lemma {:induction false} EmptyTable(d: Doc)
    requires Valid(d) && Forest(d)
    ensures var c := Alloc(d, Table(map[])); Leads(c, d.next, [], d.next) && IsTable(c, d.next) && Denotes(c, d.next, Inline([]))
  {
    AllocAdvances(d, Table(map[]));
    AllocTree(d, Table(map[]));
    EmptyDenotes(d);
  }

  lemma {:induction false} BuildInlineMeans(d: Doc, ps: seq<Pair>)
    requires Valid(d) && Forest(d)
    ensures Build(d, Inline(ps)).Some? <==> SoundPairs(ps)
    ensures Build(d, Inline(ps)).Some? ==> Denotes(Build(d, Inline(ps)).value.doc, Build(d, Inline(ps)).value.at, Inline(ps))
    decreases ps, 1
  {
    EmptyTable(d);
    assert [] + ps == ps;
    InsertAllMeans(Alloc(d, Table(map[])), d.next, [], ps);
  }

  lemma OneByOne<T>(done: seq<T>, xs: seq<T>)
    requires xs != []
    ensures done + [xs[0]] + xs[1..] == done + xs
  {
  }

  predicate AllSound(xs: seq<Expr>) {
    forall i :: 0 <= i < |xs| ==> Sound(xs[i])
  }

  lemma AllSoundOnce(xs: seq<Expr>)
    requires xs != []
    ensures AllSound(xs) <==> Sound(xs[0]) && AllSound(xs[1..])
  {
    assert xs == [xs[0]] + xs[1..];
    if AllSound(xs) {
      forall i | 0 <= i < |xs| - 1 ensures Sound(xs[1..][i]) { assert Sound(xs[i + 1]); }
    }
  }

  lemma {:induction false} BuildAllMeans(d: Doc, xs: seq<Expr>, ids: seq<nat>, done: seq<Expr>)
    requires Valid(d) && Forest(d) && Closed(d, Array(ids)) && DenoteAll(d, ids, done)
    ensures BuildAll(d, xs, ids).Some? <==> AllSound(xs)
    ensures BuildAll(d, xs, ids).Some? ==> DenoteAll(BuildAll(d, xs, ids).value.0, BuildAll(d, xs, ids).value.1, done + xs)
    decreases xs, 0
  {
    if xs == [] {
      assert done + xs == done;
    } else {
      BuildMeans(d, xs[0]);
      AllSoundOnce(xs);
      if Build(d, xs[0]).Some? {
        var v := Build(d, xs[0]).value;
        BuildTree(d, xs[0]);
        OneMoreDenotes(d, xs[0], ids, done);
        assert BuildAll(d, xs, ids) == BuildAll(v.doc, xs[1..], ids + [v.at]);
        BuildAllMeans(v.doc, xs[1..], ids + [v.at], done + [xs[0]]);
        OneByOne(done, xs);
      }
    }
  }

  lemma OneMoreDenotes(d: Doc, x: Expr, ids: seq<nat>, done: seq<Expr>)
    requires Valid(d) && Build(d, x).Some? && DenoteAll(d, ids, done)
    requires Denotes(Build(d, x).value.doc, Build(d, x).value.at, x)
    ensures DenoteAll(Build(d, x).value.doc, ids + [Build(d, x).value.at], done + [x])
  {
    var v := Build(d, x).value;
    BuildKeeps(d, x);
    forall i | 0 <= i < |ids| ensures ids[i] in v.doc.nodes && Denotes(v.doc, ids[i], done[i]) {
      DenotesStill(d, v.doc, ids[i], done[i]);
    }
  }

  lemma {:induction false} InsertAllMeans(d: Doc, t: nat, done: seq<Pair>, ps: seq<Pair>)
    requires Leads(d, t, [], t) && IsTable(d, t) && Denotes(d, t, Inline(done)) && SoundPairs(done)
    ensures InsertAll(d, t, ps).Some? <==> SoundPairs(done + ps)
    ensures InsertAll(d, t, ps).Some? ==> Denotes(InsertAll(d, t, ps).value, t, Inline(done + ps))
    decreases ps, 0
  {
    if ps == [] {
      assert done + ps == done;
    } else {
      InsertOneMeans(d, t, done, ps[0]);
      OneByOne(done, ps);
      if Insert(d, t, ps[0]).Some? {
        var e := Insert(d, t, ps[0]).value;
        InsertAllMeans(e, t, done + [ps[0]], ps[1..]);
      } else {
        SoundSoFar(done + [ps[0]], ps[1..]);
      }
    }
  }

  lemma SoundSoFar(ps: seq<Pair>, more: seq<Pair>)
    requires !SoundPairs(ps)
    ensures !SoundPairs(ps + more)
  {
    var all := ps + more;
    if SoundPairs(all) {
      forall i | 0 <= i < |ps| ensures SoundPair(ps[i]) { assert SoundPair(all[i]); }
      forall i, j | 0 <= i < j < |ps| ensures !Clash(ps[i].key, ps[j].key) { assert !Clash(all[i].key, all[j].key); }
    }
  }

  lemma {:induction false} InsertOneMeans(d: Doc, t: nat, done: seq<Pair>, p: Pair)
    requires Leads(d, t, [], t) && IsTable(d, t) && Denotes(d, t, Inline(done)) && SoundPairs(done)
    ensures Insert(d, t, p).Some? <==> SoundPairs(done + [p])
    ensures Insert(d, t, p).Some? ==>
      var e := Insert(d, t, p).value; Leads(e, t, [], t) && IsTable(e, t) && Denotes(e, t, Inline(done + [p]))
    decreases p, 1
  {
    BuildMeans(d, p.value);
    PairAddedIff(d, t, done, p);
    if Insert(d, t, p).Some? {
      var e := Insert(d, t, p).value;
      InsertTree(d, t, p);
      TableStays(d, e, t);
      forall q ensures CellAt(e, t, q) == CellOf(Inline(done + [p]), q) {
        PairAddedCell(d, t, done, p, q);
      }
    }
  }
}
