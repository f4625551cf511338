/**
  Documents are trees: every node but the root hangs in exactly one place.  What a line does
  to a document is then what it does to the paths from the root.
 */
module TableTree {
  import opened Basics
  import opened TableDefinition

  // ---------------------------------------------------------------------------
  // Paths

  /** A place in a table or in an array. */
  datatype Slot = Name(key: string) | Index(i: nat)

  function Down(d: Doc, t: nat, s: Slot): Option<nat> {
    if t !in d.nodes then None
    else if s.Name? then
      if d.nodes[t].Table? && s.key in d.nodes[t].entries then Some(d.nodes[t].entries[s.key]) else None
    else
      if d.nodes[t].Array? && s.i < |d.nodes[t].elements| then Some(d.nodes[t].elements[s.i]) else None
  }

  /** The node at the end of a path, if there is one. */
  function Path(d: Doc, t: nat, p: seq<Slot>): Option<nat> {
    if p == [] then Some(t)
    else
      var u := Path(d, t, p[..|p| - 1]);
      if u.None? then None else Down(d, u.value, p[|p| - 1])
  }

  lemma PathSnoc(d: Doc, t: nat, p: seq<Slot>, s: Slot)
    ensures Path(d, t, p + [s]) == if Path(d, t, p).None? then None else Down(d, Path(d, t, p).value, s)
  {
    assert (p + [s])[..|p|] == p;
  }

  lemma {:induction false} PathConcat(d: Doc, t: nat, p: seq<Slot>, q: seq<Slot>)
    ensures Path(d, t, p + q) == if Path(d, t, p).None? then None else Path(d, Path(d, t, p).value, q)
    decreases q
  {
    if q == [] {
      assert p + q == p;
    } else {
      PathConcat(d, t, p, q[..|q| - 1]);
      assert (p + q)[..|p + q| - 1] == p + q[..|q| - 1];
    }
  }

  lemma DownStays(d: Doc, t: nat, s: Slot)
    requires WellFormed(d) && Down(d, t, s).Some?
    ensures Down(d, t, s).value in d.nodes
  {
    assert Points(d.nodes, t);
  }

  lemma {:induction false} PathStays(d: Doc, t: nat, p: seq<Slot>)
    requires WellFormed(d) && t in d.nodes && Path(d, t, p).Some?
    ensures Path(d, t, p).value in d.nodes
  {
    if p != [] {
      DownStays(d, Path(d, t, p[..|p| - 1]).value, p[|p| - 1]);
    }
  }

  // ---------------------------------------------------------------------------
  // Trees

  /** Nothing points to the node. */
  ghost predicate Orphan(d: Doc, id: nat) {
    forall t, s :: Down(d, t, s) != Some(id)
  }

  /** No node hangs in two places. */
  ghost predicate Forest(d: Doc) {
    forall t, a, u, b :: Down(d, t, a).Some? && Down(d, t, a) == Down(d, u, b) ==> t == u && a == b
  }

  /** The document is one tree and trees that are not yet attached. */
  ghost predicate Tree(d: Doc) {
    Forest(d) && Orphan(d, ROOT)
  }

  /** A node is reached from one unattached node by one path only. */
  lemma {:induction false} PathsAreUnique(d: Doc, o: nat, p: seq<Slot>, n: nat, q: seq<Slot>)
    requires Forest(d) && Orphan(d, o) && Orphan(d, n)
    requires Path(d, o, p).Some? && Path(d, o, p) == Path(d, n, q)
    ensures o == n && p == q
    decreases p
  {
    if p != [] && q != [] {
      var u, v := Path(d, o, p[..|p| - 1]).value, Path(d, n, q[..|q| - 1]).value;
      assert Down(d, u, p[|p| - 1]) == Down(d, v, q[|q| - 1]);
      PathsAreUnique(d, o, p[..|p| - 1], n, q[..|q| - 1]);
      assert p == p[..|p| - 1] + [p[|p| - 1]] && q == q[..|q| - 1] + [q[|q| - 1]];
    }
  }

  // ---------------------------------------------------------------------------
  // Attaching one tree to another

  /** `e` has one link more than `d`, from an empty place of `t` to `n`. */
  ghost predicate Attaches(d: Doc, e: Doc, t: nat, slot: Slot, n: nat) {
    && Down(d, t, slot) == None
    && forall u, s :: Down(e, u, s) == if u == t && s == slot then Some(n) else Down(d, u, s)
  }

  lemma AttachKeepsForest(d: Doc, e: Doc, t: nat, slot: Slot, n: nat)
    requires Forest(d) && Orphan(d, n) && Attaches(d, e, t, slot, n)
    ensures Forest(e) && forall m :: m != n && Orphan(d, m) ==> Orphan(e, m)
  {
  }

  lemma {:induction false} AttachLeavesOthers(d: Doc, e: Doc, o: nat, r: seq<Slot>, t: nat, slot: Slot, n: nat, m: nat, q: seq<Slot>)
    requires Forest(d) && Orphan(d, o) && Orphan(d, m) && m != o && Attaches(d, e, t, slot, n) && Path(d, o, r) == Some(t)
    ensures Path(e, m, q) == Path(d, m, q)
    decreases q
  {
    if q != [] {
      var p := q[..|q| - 1];
      AttachLeavesOthers(d, e, o, r, t, slot, n, m, p);
      if Path(d, m, p) == Some(t) {
        PathsAreUnique(d, o, r, m, p);
      }
    }
  }

  lemma {:induction false} AttachKeepsPaths(d: Doc, e: Doc, o: nat, r: seq<Slot>, t: nat, slot: Slot, n: nat, q: seq<Slot>)
    requires Forest(d) && Orphan(d, o) && Attaches(d, e, t, slot, n) && Path(d, o, r) == Some(t)
    requires !(r + [slot] <= q)
    ensures Path(e, o, q) == Path(d, o, q)
    decreases q
  {
    if q != [] {
      var p, s := q[..|q| - 1], q[|q| - 1];
      assert q == p + [s];
      AttachKeepsPaths(d, e, o, r, t, slot, n, p);
      if Path(d, o, p) == Some(t) {
        PathsAreUnique(d, o, r, o, p);
      }
    }
  }

  /** The paths of the other tree continue the path of the new link. */
  lemma {:induction false} AttachedPaths(d: Doc, e: Doc, o: nat, r: seq<Slot>, t: nat, slot: Slot, n: nat, q: seq<Slot>)
    requires Forest(d) && Orphan(d, o) && Orphan(d, n) && o != n && Attaches(d, e, t, slot, n) && Path(d, o, r) == Some(t)
    ensures Path(e, o, r + [slot] + q) == Path(d, n, q)
  {
    AttachKeepsPaths(d, e, o, r, t, slot, n, r);
    PathSnoc(e, o, r, slot);
    PathConcat(e, o, r + [slot], q);
    AttachLeavesOthers(d, e, o, r, t, slot, n, n, q);
  }

  // ---------------------------------------------------------------------------
  // Every operation keeps documents trees

  /** `e` is still a forest, and what was unattached in `d` still is. */
  ghost predicate TreeStep(d: Doc, e: Doc) {
    Forest(e) && forall m :: m in d.nodes && Orphan(d, m) ==> Orphan(e, m)
  }

  lemma TreeStepTransitive(a: Doc, b: Doc, c: Doc)
    requires TreeStep(a, b) && TreeStep(b, c) && Grows(a, b)
    ensures TreeStep(a, c)
  {
  }

  predicate IsEmpty(node: Node) {
    node == Table(map[]) || node == Array([]) || node.Value?
  }

  ghost predicate SameLinks(d: Doc, e: Doc) {
    forall u, s :: Down(e, u, s) == Down(d, u, s)
  }

  lemma SameLinksSameTree(d: Doc, e: Doc)
    requires SameLinks(d, e) && Forest(d)
    ensures TreeStep(d, e)
  {
  }

  lemma {:induction false} SameLinksSamePaths(d: Doc, e: Doc, o: nat, q: seq<Slot>)
    requires SameLinks(d, e)
    ensures Path(e, o, q) == Path(d, o, q)
  {
    if q != [] {
      SameLinksSamePaths(d, e, o, q[..|q| - 1]);
    }
  }

  lemma NewIsOrphan(d: Doc)
    requires WellFormed(d)
    ensures Orphan(d, d.next)
  {
    forall t, s ensures Down(d, t, s) != Some(d.next) {
      if Down(d, t, s).Some? { DownStays(d, t, s); }
    }
  }

  lemma AllocLinks(d: Doc, node: Node)
    requires WellFormed(d) && IsEmpty(node)
    ensures SameLinks(d, Alloc(d, node))
  {
  }

  lemma AllocTree(d: Doc, node: Node)
    requires WellFormed(d) && Forest(d) && IsEmpty(node)
    ensures TreeStep(d, Alloc(d, node)) && Orphan(Alloc(d, node), d.next)
  {
    AllocLinks(d, node);
    SameLinksSameTree(d, Alloc(d, node));
    NewIsOrphan(d);
  }

  lemma LinkAttaches(d: Doc, t: nat, key: string, id: nat)
    requires IsTable(d, t) && key !in d.nodes[t].entries
    ensures Attaches(d, Link(d, t, key, id), t, Name(key), id)
  {
  }

  lemma AppendAttaches(d: Doc, a: nat)
    requires WellFormed(d) && a in d.nodes && d.nodes[a].Array?
    ensures Attaches(Alloc(d, Table(map[])), Append(d, a), a, Index(|d.nodes[a].elements|), d.next)
  {
  }

  lemma NewChildTree(d: Doc, t: nat, key: string, node: Node)
    requires Valid(d) && Forest(d) && IsTable(d, t) && key !in d.nodes[t].entries && IsEmpty(node)
    ensures TreeStep(d, NewChild(d, t, key, node))
  {
    var c := Alloc(d, node);
    AllocTree(d, node);
    LinkAttaches(c, t, key, d.next);
    AttachKeepsForest(c, NewChild(d, t, key, node), t, Name(key), d.next);
  }

  lemma AppendTree(d: Doc, a: nat)
    requires Valid(d) && Forest(d) && a in d.nodes && d.nodes[a].Array?
    ensures TreeStep(d, Append(d, a))
  {
    var c := Alloc(d, Table(map[]));
    AllocTree(d, Table(map[]));
    AppendAttaches(d, a);
    AttachKeepsForest(c, Append(d, a), a, Index(|d.nodes[a].elements|), d.next);
  }

  lemma SameNodesSameTree(d: Doc, e: Doc)
    requires Forest(d) && e.nodes == d.nodes
    ensures TreeStep(d, e)
  {
    assert SameLinks(d, e);
    SameLinksSameTree(d, e);
  }

  lemma EnterTree(d: Doc, t: nat, key: string, dotted: bool)
    requires Valid(d) && Forest(d) && IsTable(d, t) && Enter(d, t, key, dotted).Some?
    ensures TreeStep(d, Enter(d, t, key, dotted).value.doc)
  {
    if Get(d, t, key) == None {
      NewChildTree(d, t, key, Table(map[]));
      var c := NewChild(d, t, key, Table(map[]));
      SameNodesSameTree(c, NewParent(d, t, key, dotted));
    }
  }

  lemma {:induction false} WalkTree(d: Doc, t: nat, path: seq<string>, dotted: bool)
    requires Valid(d) && Forest(d) && IsTable(d, t) && Walk(d, t, path, dotted).Some?
    ensures TreeStep(d, Walk(d, t, path, dotted).value.doc)
    decreases path
  {
    if path != [] {
      var p := Enter(d, t, path[0], dotted).value;
      EnterTree(d, t, path[0], dotted);
      WalkTree(p.doc, p.at, path[1..], dotted);
      TreeStepTransitive(d, p.doc, Walk(d, t, path, dotted).value.doc);
    }
  }

  lemma NewTableArrayTree(d: Doc, t: nat, key: string)
    requires Valid(d) && Forest(d) && IsTable(d, t) && key !in d.nodes[t].entries
    ensures TreeStep(d, NewTableArray(d, t, key))
  {
    NewChildAdvances(d, t, key, Array([]));
    NewChildTree(d, t, key, Array([]));
    var c := NewChild(d, t, key, Array([]));
    AppendTree(c, d.next);
    TreeStepTransitive(d, c, Append(c, d.next));
    SameNodesSameTree(Append(c, d.next), NewTableArray(d, t, key));
  }

  lemma DefineTree(d: Doc, t: nat, key: string, isArr: bool)
    requires Valid(d) && Forest(d) && IsTable(d, t) && Define(d, t, key, isArr).Some?
    ensures TreeStep(d, Define(d, t, key, isArr).value.doc)
  {
    if Get(d, t, key) == None {
      if isArr {
        NewTableArrayTree(d, t, key);
      } else {
        NewChildTree(d, t, key, Table(map[]));
      }
    } else if isArr {
      AppendTree(d, Get(d, t, key).value);
    } else {
      SameNodesSameTree(d, Define(d, t, key, isArr).value.doc);
    }
  }

  lemma HeaderTree(d: Doc, key: Key, isArr: bool)
    requires Valid(d) && Forest(d) && Header(d, key, isArr).Some?
    ensures TreeStep(d, Header(d, key, isArr).value.doc)
  {
    var p := Walk(d, ROOT, key.parents, false).value;
    WalkTree(d, ROOT, key.parents, false);
    DefineTree(p.doc, p.at, key.last, isArr);
    TreeStepTransitive(d, p.doc, Header(d, key, isArr).value.doc);
  }

  // ---------------------------------------------------------------------------
  // Values

  lemma AllocArrayTree(d: Doc, ids: seq<nat>)
    requires Valid(d) && Forest(d) && Distinct(ids) && forall i :: 0 <= i < |ids| ==> ids[i] in d.nodes && Orphan(d, ids[i])
    ensures var e := Alloc(d, Array(ids));
      && Forest(e) && Orphan(e, d.next)
      && forall m :: m in d.nodes && m !in ids && Orphan(d, m) ==> Orphan(e, m)
  {
    var e := Alloc(d, Array(ids));
    NewIsOrphan(d);
    assert forall u, s :: Down(e, u, s) == if u == d.next && s.Index? && s.i < |ids| then Some(ids[s.i]) else Down(d, u, s);
  }

  lemma {:induction false} BuildTree(d: Doc, x: Expr)
    requires Valid(d) && Forest(d) && Build(d, x).Some?
    ensures TreeStep(d, Build(d, x).value.doc) && Orphan(Build(d, x).value.doc, Build(d, x).value.at)
    decreases x, 0
  {
    match x
    case Scalar(k) =>
      AllocTree(d, Value(k));
    case Items(xs) =>
      BuildAllTree(d, xs, []);
      var (e, ids) := BuildAll(d, xs, []).value;
      AllocArrayTree(e, ids);
    case Inline(ps) =>
      var c := Alloc(d, Table(map[]));
      AllocAdvances(d, Table(map[]));
      AllocTree(d, Table(map[]));
      InsertAllTree(c, d.next, ps);
      TreeStepTransitive(d, c, InsertAll(c, d.next, ps).value);
  }

  /** Elements built so far wait, unattached and different, for their array. */
  ghost predicate Waiting(d: Doc, ids: seq<nat>, from: nat) {
    Distinct(ids) && forall i :: 0 <= i < |ids| ==> ids[i] in d.nodes && from <= ids[i] && Orphan(d, ids[i])
  }

  lemma {:induction false} BuildAllTree(d: Doc, xs: seq<Expr>, ids: seq<nat>)
    requires Valid(d) && Forest(d) && Closed(d, Array(ids)) && Waiting(d, ids, 0) && BuildAll(d, xs, ids).Some?
    ensures var (e, all) := BuildAll(d, xs, ids).value; TreeStep(d, e) && Waiting(e, all, 0)
    ensures ids <= BuildAll(d, xs, ids).value.1
    ensures forall i :: |ids| <= i < |BuildAll(d, xs, ids).value.1| ==> d.next <= BuildAll(d, xs, ids).value.1[i]
    decreases xs, 0
  {
    if xs != [] {
      BuildTree(d, xs[0]);
      var v := Build(d, xs[0]).value;
      assert Waiting(v.doc, ids + [v.at], 0);
      BuildAllTree(v.doc, xs[1..], ids + [v.at]);
      TreeStepTransitive(d, v.doc, BuildAll(d, xs, ids).value.0);
    }
  }

  lemma {:induction false} InsertAllTree(d: Doc, t: nat, ps: seq<Pair>)
    requires Valid(d) && Forest(d) && IsTable(d, t) && InsertAll(d, t, ps).Some?
    ensures TreeStep(d, InsertAll(d, t, ps).value)
    decreases ps, 0
  {
    if ps != [] {
      InsertTree(d, t, ps[0]);
      var e := Insert(d, t, ps[0]).value;
      TableStays(d, e, t);
      InsertAllTree(e, t, ps[1..]);
      TreeStepTransitive(d, e, InsertAll(d, t, ps).value);
    }
  }

  lemma {:induction false} InsertTree(d: Doc, t: nat, pair: Pair)
    requires Valid(d) && Forest(d) && IsTable(d, t) && Insert(d, t, pair).Some?
    ensures TreeStep(d, Insert(d, t, pair).value)
    decreases pair, 1
  {
    BuildTree(d, pair.value);
    var v := Build(d, pair.value).value;
    TableStays(d, v.doc, t);
    WalkTree(v.doc, t, pair.key.parents, true);
    var p := Walk(v.doc, t, pair.key.parents, true).value;
    TreeStepTransitive(d, v.doc, p.doc);
    LinkAttaches(p.doc, p.at, pair.key.last, v.at);
    AttachKeepsForest(p.doc, Link(p.doc, p.at, pair.key.last, v.at), p.at, Name(pair.key.last), v.at);
  }
}
