/**
  How headers and key/value pairs define the tables of a document.

  Nodes are numbered by their address; the document is a map from addresses to
  nodes.  The three lists are those the parser keeps beside the tree.
 */
module TableDefinition {
  import opened Basics

  datatype Kind = Text | Number | Flag | Moment

  datatype Node =
    | Table(entries: map<string, nat>)
    | Array(elements: seq<nat>)
    | Value(kind: Kind)

  /** A value as written: a scalar, an array, or an inline table of key/value pairs. */
  datatype Expr = Scalar(kind: Kind) | Items(items: seq<Expr>) | Inline(pairs: seq<Pair>)

  datatype Pair = Pair(key: Key, value: Expr)

  /** A dotted key has at least one segment. */
  datatype Key = Key(parents: seq<string>, last: string)

  /** A document, and a node of it. */
  datatype Place = Place(doc: Doc, at: nat)

  datatype Doc = Doc(nodes: map<nat, Node>, next: nat, implicit: seq<nat>, dotted: seq<nat>, arrays: seq<nat>)

  const ROOT: nat := 0

  // ---------------------------------------------------------------------------
  // Well-formed documents

  predicate Points(nodes: map<nat, Node>, id: nat)
    requires id in nodes
  {
    match nodes[id]
    case Table(es) => forall k :: k in es ==> es[k] in nodes
    case Array(es) => forall i :: 0 <= i < |es| ==> es[i] in nodes
    case Value(_) => true
  }

  predicate IsTable(d: Doc, id: nat) {
    id in d.nodes && d.nodes[id].Table?
  }

  /** A tracked table array is not empty and its last element is a table. */
  predicate IsTableArray(d: Doc, id: nat) {
    && id in d.nodes && d.nodes[id].Array? && d.nodes[id].elements != []
    && IsTable(d, d.nodes[id].elements[|d.nodes[id].elements| - 1])
  }

  predicate WellFormed(d: Doc) {
    && IsTable(d, ROOT)
    && (forall id :: id in d.nodes ==> id < d.next)
    && (forall id :: id in d.nodes ==> Points(d.nodes, id))
    && (forall i :: 0 <= i < |d.arrays| ==> IsTableArray(d, d.arrays[i]))
  }

  predicate Distinct(s: seq<nat>) {
    forall i, j :: 0 <= i < j < |s| ==> s[i] != s[j]
  }

  /** Implicit tables and tables made by dotted keys are different tables, and never the root. */
  predicate Tracked(d: Doc) {
    && Distinct(d.implicit)
    && (forall id :: id in d.implicit ==> IsTable(d, id) && id !in d.dotted && id != ROOT)
    && (forall id :: id in d.dotted ==> IsTable(d, id) && id != ROOT)
  }

  predicate Valid(d: Doc) {
    WellFormed(d) && Tracked(d)
  }

  // ---------------------------------------------------------------------------
  // Nothing is removed or overwritten

  predicate Extends(a: Node, b: Node) {
    match a
    case Table(es) => b.Table? && forall k :: k in es ==> k in b.entries && b.entries[k] == es[k]
    case Array(es) => b.Array? && es <= b.elements
    case Value(_) => a == b
  }

  /** Every node of `d` is still there in `e`, with everything that was in it. */
  predicate Grows(d: Doc, e: Doc) {
    && d.next <= e.next
    && (forall id :: id in d.nodes ==> id in e.nodes && Extends(d.nodes[id], e.nodes[id]))
  }

  /** `now` holds nothing but members of `was` and nodes numbered `next` or later. */
  predicate OnlyNew(was: seq<nat>, now: seq<nat>, next: nat) {
    forall id :: id in now ==> id in was || next <= id
  }

  /**
    What every step does to a document: it grows; a table becomes implicit or dotted only
    when it is created; a dotted table or a table array is remembered for good.
   */
  predicate Advance(d: Doc, e: Doc) {
    && Valid(e) && Grows(d, e)
    && OnlyNew(d.implicit, e.implicit, d.next)
    && OnlyNew(d.dotted, e.dotted, d.next)
    && d.dotted <= e.dotted && d.arrays <= e.arrays
  }

  lemma AdvanceReflexive(d: Doc)
    requires Valid(d)
    ensures Advance(d, d)
  {
  }

  lemma GrowsTransitive(a: Doc, b: Doc, c: Doc)
    requires Grows(a, b) && Grows(b, c)
    ensures Grows(a, c)
  {
    forall id | id in a.nodes ensures id in c.nodes && Extends(a.nodes[id], c.nodes[id]) {
      assert Extends(a.nodes[id], b.nodes[id]) && Extends(b.nodes[id], c.nodes[id]);
    }
  }

  lemma AdvanceTransitive(a: Doc, b: Doc, c: Doc)
    requires Advance(a, b) && Advance(b, c)
    ensures Advance(a, c)
  {
    GrowsTransitive(a, b, c);
  }

  lemma TableStays(d: Doc, e: Doc, t: nat)
    requires Grows(d, e) && IsTable(d, t)
    ensures IsTable(e, t)
  {
    assert Extends(d.nodes[t], e.nodes[t]);
  }

  // ---------------------------------------------------------------------------
  // Adding nodes

  /** `new`: a node that nothing points to yet. */
  function Alloc(d: Doc, node: Node): Doc {
    d.(nodes := d.nodes[d.next := node], next := d.next + 1)
  }

  /** `map.emplace` of an existing node under a key. */
  function Link(d: Doc, t: nat, key: string, id: nat): Doc
    requires IsTable(d, t)
  {
    d.(nodes := d.nodes[t := Table(d.nodes[t].entries[key := id])])
  }

  /** `elements.emplace_back` of a new table. */
  function Append(d: Doc, a: nat): Doc
    requires a in d.nodes && d.nodes[a].Array?
  {
    Alloc(d, Table(map[])).(nodes := d.nodes[d.next := Table(map[])][a := Array(d.nodes[a].elements + [d.next])])
  }

  predicate Closed(d: Doc, node: Node) {
    match node
    case Table(es) => forall k :: k in es ==> es[k] in d.nodes
    case Array(es) => forall i :: 0 <= i < |es| ==> es[i] in d.nodes
    case Value(_) => true
  }

  /** Table arrays stay table arrays when no array changes. */
  lemma ArraysStay(d: Doc, e: Doc)
    requires WellFormed(d) && Grows(d, e)
    requires forall id :: id in d.nodes && d.nodes[id].Array? ==> e.nodes[id] == d.nodes[id]
    ensures forall i :: 0 <= i < |d.arrays| ==> IsTableArray(e, d.arrays[i])
  {
    forall i | 0 <= i < |d.arrays| ensures IsTableArray(e, d.arrays[i]) {
      assert IsTableArray(d, d.arrays[i]);
      TableStays(d, e, d.nodes[d.arrays[i]].elements[|d.nodes[d.arrays[i]].elements| - 1]);
    }
  }

  lemma AllocAdvances(d: Doc, node: Node)
    requires Valid(d) && Closed(d, node)
    ensures Advance(d, Alloc(d, node))
  {
    var e := Alloc(d, node);
    forall id | id in e.nodes ensures Points(e.nodes, id) {
      if id in d.nodes { assert Points(d.nodes, id); }
    }
    ArraysStay(d, e);
  }

  lemma LinkAdvances(d: Doc, t: nat, key: string, id: nat)
    requires Valid(d) && IsTable(d, t) && key !in d.nodes[t].entries && id in d.nodes
    ensures Advance(d, Link(d, t, key, id))
  {
    var e := Link(d, t, key, id);
    forall i | i in e.nodes ensures Points(e.nodes, i) {
      assert Points(d.nodes, i);
    }
    ArraysStay(d, e);
  }

  lemma AppendAdvances(d: Doc, a: nat)
    requires Valid(d) && a in d.nodes && d.nodes[a].Array?
    ensures Advance(d, Append(d, a)) && IsTableArray(Append(d, a), a) && IsTable(Append(d, a), d.next)
  {
    var e := Append(d, a);
    forall id | id in e.nodes ensures Points(e.nodes, id) {
      if id in d.nodes { assert Points(d.nodes, id); }
    }
    forall i | 0 <= i < |d.arrays| ensures IsTableArray(e, d.arrays[i]) {
      assert IsTableArray(d, d.arrays[i]);
    }
  }

  // ---------------------------------------------------------------------------
  // The descent through the parents of a header or of a dotted key

  function Get(d: Doc, t: nat, key: string): Option<nat>
    requires IsTable(d, t)
  {
    if key in d.nodes[t].entries then Some(d.nodes[t].entries[key]) else None
  }

  /** The most recently declared element of a table array. */
  function Last(d: Doc, a: nat): nat
    requires IsTableArray(d, a)
  {
    d.nodes[a].elements[|d.nodes[a].elements| - 1]
  }

  /** A new empty container under a key. */
  function NewChild(d: Doc, t: nat, key: string, node: Node): Doc
    requires Valid(d) && IsTable(d, t)
  {
    Link(Alloc(d, node), t, key, d.next)
  }

  lemma NewChildAdvances(d: Doc, t: nat, key: string, node: Node)
    requires Valid(d) && IsTable(d, t) && key !in d.nodes[t].entries && Closed(d, node)
    ensures Advance(d, NewChild(d, t, key, node))
    ensures var e := NewChild(d, t, key, node);
      d.next in e.nodes && e.nodes[d.next] == node && e.next == d.next + 1 && Get(e, t, key) == Some(d.next)
  {
    AllocAdvances(d, node);
    LinkAdvances(Alloc(d, node), t, key, d.next);
    AdvanceTransitive(d, Alloc(d, node), NewChild(d, t, key, node));
  }

  /** A parent that is missing: a dotted-key table or an implicit table. */
  function NewParent(d: Doc, t: nat, key: string, dotted: bool): Doc
    requires Valid(d) && IsTable(d, t)
  {
    var e := NewChild(d, t, key, Table(map[]));
    if dotted then e.(dotted := e.dotted + [d.next]) else e.(implicit := e.implicit + [d.next])
  }

  /** Recording a table created since `d` as made by a dotted key. */
  lemma MarkDottedAdvances(d: Doc, e: Doc, id: nat)
    requires Advance(d, e) && IsTable(e, id) && d.next <= id && id != ROOT && id !in e.implicit
    ensures Advance(d, e.(dotted := e.dotted + [id]))
  {
    var f := e.(dotted := e.dotted + [id]);
    assert WellFormed(f);
    assert Tracked(f);
  }

  /** Recording a table created since `d` as implicit. */
  lemma MarkImplicitAdvances(d: Doc, e: Doc, id: nat)
    requires Advance(d, e) && IsTable(e, id) && d.next <= id && id != ROOT && id !in e.implicit && id !in e.dotted
    ensures Advance(d, e.(implicit := e.implicit + [id]))
  {
    var f := e.(implicit := e.implicit + [id]);
    assert WellFormed(f);
    assert Distinct(f.implicit);
    assert Tracked(f);
  }

  lemma NewParentAdvances(d: Doc, t: nat, key: string, dotted: bool)
    requires Valid(d) && IsTable(d, t) && key !in d.nodes[t].entries
    ensures Advance(d, NewParent(d, t, key, dotted)) && IsTable(NewParent(d, t, key, dotted), d.next)
    ensures NewParent(d, t, key, dotted).next == d.next + 1
  {
    NewChildAdvances(d, t, key, Table(map[]));
    var e := NewChild(d, t, key, Table(map[]));
    if dotted {
      MarkDottedAdvances(d, e, d.next);
    } else {
      MarkImplicitAdvances(d, e, d.next);
    }
  }

  /** Dotted keys enter only tables made by dotted keys; headers enter any table and any table array. */
  predicate Enterable(d: Doc, c: nat, dotted: bool) {
    if dotted then IsTable(d, c) && c in d.dotted else IsTable(d, c) || c in d.arrays
  }

  function Inside(d: Doc, c: nat): nat
    requires WellFormed(d) && (IsTable(d, c) || c in d.arrays)
  {
    if IsTable(d, c) then c else Last(d, c)
  }

  function Enter(d: Doc, t: nat, key: string, dotted: bool): (r: Option<Place>)
    requires Valid(d) && IsTable(d, t)
    ensures r.Some? ==> Advance(d, r.value.doc) && IsTable(r.value.doc, r.value.at) && r.value.doc.arrays == d.arrays
    ensures r.Some? && dotted ==> r.value.doc.implicit == d.implicit
  {
    match Get(d, t, key)
    case None => NewParentAdvances(d, t, key, dotted); Some(Place(NewParent(d, t, key, dotted), d.next))
    case Some(c) =>
      AdvanceReflexive(d);
      if Enterable(d, c, dotted) then Some(Place(d, Inside(d, c))) else None
  }

  function Walk(d: Doc, t: nat, path: seq<string>, dotted: bool): (r: Option<Place>)
    requires Valid(d) && IsTable(d, t)
    ensures r.Some? ==> Advance(d, r.value.doc) && IsTable(r.value.doc, r.value.at) && r.value.doc.arrays == d.arrays
    ensures r.Some? && dotted ==> r.value.doc.implicit == d.implicit
    decreases path
  {
    if path == [] then AdvanceReflexive(d); Some(Place(d, t)) else
    match Enter(d, t, path[0], dotted)
    case None => None
    case Some(p) =>
      var r := Walk(p.doc, p.at, path[1..], dotted);
      if r.None? then None else AdvanceTransitive(d, p.doc, r.value.doc); r
  }

  // ---------------------------------------------------------------------------
  // Headers

  function RemoveFirst(s: seq<nat>, x: nat): seq<nat> {
    if s == [] then [] else if s[0] == x then s[1..] else [s[0]] + RemoveFirst(s[1..], x)
  }

  lemma {:induction false} RemovedOnce(s: seq<nat>, x: nat)
    requires Distinct(s)
    ensures Distinct(RemoveFirst(s, x))
    ensures forall y :: y in RemoveFirst(s, x) <==> y in s && y != x
  {
    if s != [] {
      var r := RemoveFirst(s[1..], x);
      assert s == [s[0]] + s[1..];
      if s[0] != x {
        RemovedOnce(s[1..], x);
        forall j | 0 <= j < |r| ensures r[j] != s[0] { assert r[j] in r; }
      }
    }
  }

  /** A new table array holding one new table. */
  function NewTableArray(d: Doc, t: nat, key: string): Doc
    requires Valid(d) && IsTable(d, t) && key !in d.nodes[t].entries
  {
    NewChildAdvances(d, t, key, Array([]));
    var e := Append(NewChild(d, t, key, Array([])), d.next);
    e.(arrays := e.arrays + [d.next])
  }

  lemma TrackArrayAdvances(d: Doc, e: Doc, a: nat)
    requires Advance(d, e) && IsTableArray(e, a)
    ensures Advance(d, e.(arrays := e.arrays + [a]))
  {
  }

  lemma NewTableArrayAdvances(d: Doc, t: nat, key: string)
    requires Valid(d) && IsTable(d, t) && key !in d.nodes[t].entries
    ensures Advance(d, NewTableArray(d, t, key)) && IsTable(NewTableArray(d, t, key), d.next + 1)
  {
    NewChildAdvances(d, t, key, Array([]));
    var c := NewChild(d, t, key, Array([]));
    AppendAdvances(c, d.next);
    AdvanceTransitive(d, c, Append(c, d.next));
    TrackArrayAdvances(d, Append(c, d.next), d.next);
  }

  lemma PromoteAdvances(d: Doc, c: nat)
    requires Valid(d)
    ensures Advance(d, d.(implicit := RemoveFirst(d.implicit, c))) && c !in RemoveFirst(d.implicit, c)
  {
    RemovedOnce(d.implicit, c);
    AdvanceReflexive(d);
  }

  /** The table `at` of `e` may be headed: new or implicit before, neither implicit nor dotted now. */
  predicate Headable(d: Doc, e: Doc, at: nat) {
    IsTable(e, at) && (d.next <= at || at in d.implicit) && at !in e.implicit && at !in e.dotted
  }

  /** A header whose last key is taken: one more table of an array, or an implicit table made explicit. */
  function Redefine(d: Doc, c: nat, isArr: bool): (r: Option<Place>)
    requires Valid(d)
    ensures r.Some? ==> Advance(d, r.value.doc) && Headable(d, r.value.doc, r.value.at)
  {
    if isArr && c in d.arrays then
      AppendAdvances(d, c);
      Some(Place(Append(d, c), d.next))
    else if !isArr && c in d.implicit then
      PromoteAdvances(d, c);
      Some(Place(d.(implicit := RemoveFirst(d.implicit, c)), c))
    else None
  }

  /** The last segment of a header. */
  function Define(d: Doc, t: nat, key: string, isArr: bool): (r: Option<Place>)
    requires Valid(d) && IsTable(d, t)
    ensures r.Some? ==> Advance(d, r.value.doc) && Headable(d, r.value.doc, r.value.at)
  {
    match Get(d, t, key)
    case Some(c) => Redefine(d, c, isArr)
    case None =>
      if isArr then
        NewTableArrayAdvances(d, t, key);
        Some(Place(NewTableArray(d, t, key), d.next + 1))
      else
        NewChildAdvances(d, t, key, Table(map[]));
        Some(Place(NewChild(d, t, key, Table(map[])), d.next))
  }

  function Header(d: Doc, key: Key, isArr: bool): (r: Option<Place>)
    requires Valid(d)
    ensures r.Some? ==> Advance(d, r.value.doc) && Headable(d, r.value.doc, r.value.at)
  {
    match Walk(d, ROOT, key.parents, false)
    case None => None
    case Some(p) =>
      var r := Define(p.doc, p.at, key.last, isArr);
      if r.None? then None else AdvanceTransitive(d, p.doc, r.value.doc); r
  }

  // ---------------------------------------------------------------------------
  // Values and key/value pairs

  function Build(d: Doc, x: Expr): (r: Option<Place>)
    requires Valid(d)
    ensures r.Some? ==> Advance(d, r.value.doc) && r.value.at in r.value.doc.nodes && d.next <= r.value.at
    ensures r.Some? ==> r.value.doc.implicit == d.implicit && r.value.doc.arrays == d.arrays && r.value.at !in r.value.doc.dotted
    decreases x, 0
  {
    match x
    case Scalar(k) => AllocAdvances(d, Value(k)); Some(Place(Alloc(d, Value(k)), d.next))
    case Items(xs) => BuildArray(d, xs)
    case Inline(ps) =>
      AllocAdvances(d, Table(map[]));
      var e := InsertAll(Alloc(d, Table(map[])), d.next, ps);
      if e.None? then None else
      AdvanceTransitive(d, Alloc(d, Table(map[])), e.value);
      TableStays(Alloc(d, Table(map[])), e.value, d.next);
      Some(Place(e.value, d.next))
  }

  function BuildArray(d: Doc, xs: seq<Expr>): (r: Option<Place>)
    requires Valid(d)
    ensures r.Some? ==> Advance(d, r.value.doc) && r.value.at in r.value.doc.nodes && d.next <= r.value.at
    ensures r.Some? ==> r.value.doc.implicit == d.implicit && r.value.doc.arrays == d.arrays && r.value.at !in r.value.doc.dotted
    decreases xs, 1
  {
    var r := BuildAll(d, xs, []);
    if r.None? then None else
    var (e, ids) := r.value;
    AllocAdvances(e, Array(ids));
    AdvanceTransitive(d, e, Alloc(e, Array(ids)));
    Some(Place(Alloc(e, Array(ids)), e.next))
  }

  function BuildAll(d: Doc, xs: seq<Expr>, ids: seq<nat>): (r: Option<(Doc, seq<nat>)>)
    requires Valid(d) && Closed(d, Array(ids))
    ensures r.Some? ==> Advance(d, r.value.0) && Closed(r.value.0, Array(r.value.1))
    ensures r.Some? ==> r.value.0.implicit == d.implicit && r.value.0.arrays == d.arrays
    decreases xs, 0
  {
    if xs == [] then AdvanceReflexive(d); Some((d, ids)) else
    var v := Build(d, xs[0]);
    if v.None? then None else
    var r := BuildAll(v.value.doc, xs[1..], ids + [v.value.at]);
    if r.None? then None else AdvanceTransitive(d, v.value.doc, r.value.0); r
  }

  function InsertAll(d: Doc, t: nat, ps: seq<Pair>): (r: Option<Doc>)
    requires Valid(d) && IsTable(d, t)
    ensures r.Some? ==> Advance(d, r.value) && r.value.implicit == d.implicit && r.value.arrays == d.arrays
    decreases ps, 0
  {
    if ps == [] then AdvanceReflexive(d); Some(d) else
    var e := Insert(d, t, ps[0]);
    if e.None? then None else
    TableStays(d, e.value, t);
    var r := InsertAll(e.value, t, ps[1..]);
    if r.None? then None else AdvanceTransitive(d, e.value, r.value); r
  }

  /** One key/value pair: the value is parsed first, then the key is walked. */
  function Insert(d: Doc, t: nat, pair: Pair): (r: Option<Doc>)
    requires Valid(d) && IsTable(d, t)
    ensures r.Some? ==> Advance(d, r.value) && r.value.implicit == d.implicit && r.value.arrays == d.arrays
    decreases pair, 1
  {
    var v := Build(d, pair.value);
    if v.None? then None else
    TableStays(d, v.value.doc, t);
    var p := Walk(v.value.doc, t, pair.key.parents, true);
    if p.None? then None else
    AdvanceTransitive(d, v.value.doc, p.value.doc);
    if pair.key.last in p.value.doc.nodes[p.value.at].entries then None else
    LinkAdvances(p.value.doc, p.value.at, pair.key.last, v.value.at);
    AdvanceTransitive(d, p.value.doc, Link(p.value.doc, p.value.at, pair.key.last, v.value.at));
    Some(Link(p.value.doc, p.value.at, pair.key.last, v.value.at))
  }
}
