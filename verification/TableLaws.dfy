/**
  What headers and key/value pairs do to the tables of a document: which lines are
  accepted, where their tables and values end up, and what they leave alone.
 */
module TableLaws {
  import opened Basics
  import opened TableDefinition

  // ---------------------------------------------------------------------------
  // Reading a path without creating anything

  datatype Spot = Missing | Blocked | Found(id: nat)

  /** What is at a path: nothing yet, something that cannot be entered on the way, or a node. */
  function Look(d: Doc, t: nat, parents: seq<string>, last: string, dotted: bool): Spot
    requires Valid(d) && IsTable(d, t)
    decreases parents
  {
    if parents == [] then
      if Get(d, t, last).None? then Missing else Found(Get(d, t, last).value)
    else match Get(d, t, parents[0])
      case None => Missing
      case Some(c) =>
        if Enterable(d, c, dotted) then Look(d, Inside(d, c), parents[1..], last, dotted) else Blocked
  }

  /** The last table on the path that exists already. */
  function Edge(d: Doc, t: nat, parents: seq<string>, dotted: bool): nat
    requires Valid(d) && IsTable(d, t)
    decreases parents
  {
    if parents == [] then t else
    match Get(d, t, parents[0])
    case None => t
    case Some(c) => if Enterable(d, c, dotted) then Edge(d, Inside(d, c), parents[1..], dotted) else t
  }

  /** The key of the path that the edge does not have yet, or the last one. */
  function EdgeKey(d: Doc, t: nat, parents: seq<string>, last: string, dotted: bool): string
    requires Valid(d) && IsTable(d, t)
    decreases parents
  {
    if parents == [] then last else
    match Get(d, t, parents[0])
    case None => parents[0]
    case Some(c) =>
      if Enterable(d, c, dotted) then EdgeKey(d, Inside(d, c), parents[1..], last, dotted) else parents[0]
  }

  lemma LookInEmpty(d: Doc, t: nat, parents: seq<string>, last: string, dotted: bool)
    requires Valid(d) && IsTable(d, t) && d.nodes[t].entries == map[]
    ensures Look(d, t, parents, last, dotted) == Missing
  {
  }

  /** The descent fails exactly on a blocked path, and ends where the path leads. */
  lemma {:induction false} WalkFollowsLook(d: Doc, t: nat, parents: seq<string>, last: string, dotted: bool)
    requires Valid(d) && IsTable(d, t)
    ensures var r, s := Walk(d, t, parents, dotted), Look(d, t, parents, last, dotted);
      && (r.None? <==> s == Blocked)
      && (s == Missing ==> Get(r.value.doc, r.value.at, last) == None)
      && (s.Found? ==> r.value.doc == d && Get(d, r.value.at, last) == Some(s.id))
    decreases parents
  {
    if parents != [] {
      var p := Enter(d, t, parents[0], dotted);
      if p.Some? {
        WalkFollowsLook(p.value.doc, p.value.at, parents[1..], last, dotted);
        if Get(d, t, parents[0]) == None {
          NewChildAdvances(d, t, parents[0], Table(map[]));
          LookInEmpty(p.value.doc, d.next, parents[1..], last, dotted);
        }
      }
    }
  }

  // ---------------------------------------------------------------------------
  // Which headers are accepted

  lemma HeaderAcceptedIff(d: Doc, key: Key, isArr: bool)
    requires Valid(d)
    ensures Header(d, key, isArr).Some? <==>
      match Look(d, ROOT, key.parents, key.last, false)
      case Missing => true
      case Blocked => false
      case Found(c) => if isArr then c in d.arrays else c in d.implicit
  {
    WalkFollowsLook(d, ROOT, key.parents, key.last, false);
  }

  // ---------------------------------------------------------------------------
  // What lines leave alone

  /** Every node of `d` but `edge` is as it was. */
  predicate SameBut(d: Doc, e: Doc, edge: nat) {
    forall id :: id in d.nodes && id != edge ==> id in e.nodes && e.nodes[id] == d.nodes[id]
  }

  /** One key was added to a table, for a new node. */
  predicate OneKeyMore(a: Node, b: Node, key: string, next: nat) {
    && a.Table? && b.Table? && key !in a.entries && key in b.entries
    && next <= b.entries[key] && b.entries == a.entries[key := b.entries[key]]
  }

  /** Of the nodes of `d`, `e` changes only the table `edge`, by adding `key`. */
  predicate AddsKey(d: Doc, e: Doc, edge: nat, key: string) {
    SameBut(d, e, edge) && edge in d.nodes && edge in e.nodes && OneKeyMore(d.nodes[edge], e.nodes[edge], key, d.next)
  }

  lemma NewChildTouches(d: Doc, t: nat, key: string, node: Node)
    requires Valid(d) && IsTable(d, t) && key !in d.nodes[t].entries
    ensures AddsKey(d, NewChild(d, t, key, node), t, key)
  {
    var e := NewChild(d, t, key, node);
    assert e.nodes[t].entries == d.nodes[t].entries[key := d.next];
  }

  lemma EdgeOfEmpty(d: Doc, t: nat, parents: seq<string>, dotted: bool)
    requires Valid(d) && IsTable(d, t) && d.nodes[t].entries == map[]
    ensures Edge(d, t, parents, dotted) == t
  {
  }

  /** Later changes to nodes created since do not show. */
  lemma AddsKeyThen(d: Doc, e: Doc, f: Doc, edge: nat, key: string, other: nat)
    requires AddsKey(d, e, edge, key) && SameBut(e, f, other) && other !in d.nodes
    ensures AddsKey(d, f, edge, key)
  {
  }

  /** The descent creates nothing on a path that exists, and otherwise adds one key at its edge. */
  lemma {:induction false} WalkTouches(d: Doc, t: nat, parents: seq<string>, last: string, dotted: bool)
    requires Valid(d) && IsTable(d, t) && Walk(d, t, parents, dotted).Some?
    ensures var p, edge, key := Walk(d, t, parents, dotted).value, Edge(d, t, parents, dotted), EdgeKey(d, t, parents, last, dotted);
      && IsTable(d, edge)
      && (p.at < d.next ==> p.doc == d && p.at == edge && key == last)
      && (p.at >= d.next ==> AddsKey(d, p.doc, edge, key))
    decreases parents
  {
    if parents != [] {
      var q := Enter(d, t, parents[0], dotted).value;
      var rest := parents[1..];
      WalkTouches(q.doc, q.at, rest, last, dotted);
      if Get(d, t, parents[0]) == None {
        NewChildAdvances(d, t, parents[0], Table(map[]));
        NewChildTouches(d, t, parents[0], Table(map[]));
        EdgeOfEmpty(q.doc, d.next, rest, dotted);
        var p := Walk(q.doc, q.at, rest, dotted).value;
        assert SameBut(q.doc, p.doc, d.next);
        AddsKeyThen(d, q.doc, p.doc, t, parents[0], d.next);
      }
    }
  }

  lemma DefineTouches(d: Doc, t: nat, key: string, isArr: bool)
    requires Valid(d) && IsTable(d, t) && Get(d, t, key) == None
    ensures AddsKey(d, Define(d, t, key, isArr).value.doc, t, key)
  {
    if isArr {
      NewChildAdvances(d, t, key, Array([]));
      NewChildTouches(d, t, key, Array([]));
      var c := NewChild(d, t, key, Array([]));
      AddsKeyThen(d, c, NewTableArray(d, t, key), t, key, d.next);
    } else {
      NewChildTouches(d, t, key, Table(map[]));
    }
  }

  /**
    A header changes at most one node that existed before: it adds one key at the edge of its
    path, or one table to the table array at its path, or nothing when it promotes a table.
   */
  lemma HeaderTouches(d: Doc, key: Key, isArr: bool)
    requires Valid(d) && Header(d, key, isArr).Some?
    ensures var p := Header(d, key, isArr).value;
      match Look(d, ROOT, key.parents, key.last, false)
      case Missing =>
        AddsKey(d, p.doc, Edge(d, ROOT, key.parents, false), EdgeKey(d, ROOT, key.parents, key.last, false))
      case Blocked => false
      case Found(c) =>
        if isArr then IsTableArray(d, c) && SameBut(d, p.doc, c) && p.doc.nodes[c] == Array(d.nodes[c].elements + [p.at])
        else p.doc == d.(implicit := RemoveFirst(d.implicit, c)) && p.at == c
  {
    WalkFollowsLook(d, ROOT, key.parents, key.last, false);
    WalkTouches(d, ROOT, key.parents, key.last, false);
    var q := Walk(d, ROOT, key.parents, false).value;
    if Look(d, ROOT, key.parents, key.last, false) == Missing {
      DefineTouches(q.doc, q.at, key.last, isArr);
      if q.at >= d.next {
        AddsKeyThen(d, q.doc, Header(d, key, isArr).value.doc,
          Edge(d, ROOT, key.parents, false), EdgeKey(d, ROOT, key.parents, key.last, false), q.at);
      }
    }
  }

  // ---------------------------------------------------------------------------
  // Parsing a value touches nothing that was there before

  predicate Above(n: Node, lim: nat) {
    match n
    case Table(es) => forall k :: k in es ==> lim <= es[k]
    case Array(es) => forall i :: 0 <= i < |es| ==> lim <= es[i]
    case Value(_) => true
  }

  /** Nothing numbered `lim` or later points below `lim`. */
  predicate Fenced(d: Doc, lim: nat) {
    lim <= d.next && forall id :: id in d.nodes && lim <= id ==> Above(d.nodes[id], lim)
  }

  /** `e` keeps the fence and everything below it. */
  predicate StaysAbove(d: Doc, e: Doc, lim: nat) {
    && Fenced(e, lim)
    && forall id :: id in d.nodes && id < lim ==> id in e.nodes && e.nodes[id] == d.nodes[id]
  }

  lemma StaysAboveTransitive(a: Doc, b: Doc, c: Doc, lim: nat)
    requires StaysAbove(a, b, lim) && StaysAbove(b, c, lim)
    ensures StaysAbove(a, c, lim)
  {
  }

  lemma AllocStaysAbove(d: Doc, node: Node, lim: nat)
    requires Valid(d) && Fenced(d, lim) && Above(node, lim)
    ensures StaysAbove(d, Alloc(d, node), lim)
  {
  }

  lemma LinkStaysAbove(d: Doc, t: nat, key: string, id: nat, lim: nat)
    requires Fenced(d, lim) && IsTable(d, t) && lim <= t && lim <= id
    ensures StaysAbove(d, Link(d, t, key, id), lim)
  {
    assert Above(d.nodes[t], lim);
  }

  lemma EnterStaysAbove(d: Doc, t: nat, key: string, lim: nat)
    requires Valid(d) && IsTable(d, t) && Fenced(d, lim) && lim <= t && Enter(d, t, key, true).Some?
    ensures var p := Enter(d, t, key, true).value; StaysAbove(d, p.doc, lim) && lim <= p.at
  {
    assert Above(d.nodes[t], lim);
    var c := Alloc(d, Table(map[]));
    AllocStaysAbove(d, Table(map[]), lim);
    LinkStaysAbove(c, t, key, d.next, lim);
    StaysAboveTransitive(d, c, NewChild(d, t, key, Table(map[])), lim);
  }

  lemma {:induction false} WalkStaysAbove(d: Doc, t: nat, path: seq<string>, lim: nat)
    requires Valid(d) && IsTable(d, t) && Fenced(d, lim) && lim <= t && Walk(d, t, path, true).Some?
    ensures var p := Walk(d, t, path, true).value; StaysAbove(d, p.doc, lim) && lim <= p.at
    decreases path
  {
    if path != [] {
      var q := Enter(d, t, path[0], true).value;
      EnterStaysAbove(d, t, path[0], lim);
      WalkStaysAbove(q.doc, q.at, path[1..], lim);
      StaysAboveTransitive(d, q.doc, Walk(d, t, path, true).value.doc, lim);
    }
  }

  lemma {:induction false} BuildStaysAbove(d: Doc, x: Expr, lim: nat)
    requires Valid(d) && Fenced(d, lim) && Build(d, x).Some?
    ensures StaysAbove(d, Build(d, x).value.doc, lim)
    decreases x, 0
  {
    match x
    case Scalar(k) =>
      AllocStaysAbove(d, Value(k), lim);
    case Items(xs) =>
      BuildAllStaysAbove(d, xs, [], lim);
      var (e, ids) := BuildAll(d, xs, []).value;
      AllocStaysAbove(e, Array(ids), lim);
      StaysAboveTransitive(d, e, Alloc(e, Array(ids)), lim);
    case Inline(ps) =>
      var c := Alloc(d, Table(map[]));
      AllocAdvances(d, Table(map[]));
      AllocStaysAbove(d, Table(map[]), lim);
      InsertAllStaysAbove(c, d.next, ps, lim);
      StaysAboveTransitive(d, c, InsertAll(c, d.next, ps).value, lim);
  }

  lemma {:induction false} BuildAllStaysAbove(d: Doc, xs: seq<Expr>, ids: seq<nat>, lim: nat)
    requires Valid(d) && Closed(d, Array(ids)) && Fenced(d, lim) && Above(Array(ids), lim) && BuildAll(d, xs, ids).Some?
    ensures var (e, all) := BuildAll(d, xs, ids).value; StaysAbove(d, e, lim) && Above(Array(all), lim)
    decreases xs, 0
  {
    if xs != [] {
      BuildStaysAbove(d, xs[0], lim);
      var v := Build(d, xs[0]).value;
      BuildAllStaysAbove(v.doc, xs[1..], ids + [v.at], lim);
    }
  }

  lemma {:induction false} InsertAllStaysAbove(d: Doc, t: nat, ps: seq<Pair>, lim: nat)
    requires Valid(d) && IsTable(d, t) && Fenced(d, lim) && lim <= t && InsertAll(d, t, ps).Some?
    ensures StaysAbove(d, InsertAll(d, t, ps).value, lim)
    decreases ps, 0
  {
    if ps != [] {
      InsertStaysAbove(d, t, ps[0], lim);
      var e := Insert(d, t, ps[0]).value;
      TableStays(d, e, t);
      InsertAllStaysAbove(e, t, ps[1..], lim);
    }
  }

  lemma {:induction false} InsertStaysAbove(d: Doc, t: nat, pair: Pair, lim: nat)
    requires Valid(d) && IsTable(d, t) && Fenced(d, lim) && lim <= t && Insert(d, t, pair).Some?
    ensures StaysAbove(d, Insert(d, t, pair).value, lim)
    decreases pair, 1
  {
    BuildStaysAbove(d, pair.value, lim);
    var v := Build(d, pair.value).value;
    TableStays(d, v.doc, t);
    WalkStaysAbove(v.doc, t, pair.key.parents, lim);
  }

  lemma BuildTouchesNothing(d: Doc, x: Expr)
    requires Valid(d) && Build(d, x).Some?
    ensures forall id :: id in d.nodes ==> id in Build(d, x).value.doc.nodes && Build(d, x).value.doc.nodes[id] == d.nodes[id]
  {
    BuildStaysAbove(d, x, d.next);
  }

  // ---------------------------------------------------------------------------
  // Tables and values are found where they were put

  /** The table arrays of `d` are the same arrays in `e`. */
  predicate SameTracked(d: Doc, e: Doc) {
    forall a :: a in d.arrays ==> a in d.nodes && a in e.nodes && e.nodes[a] == d.nodes[a]
  }

  lemma InLongerList(a: seq<nat>, b: seq<nat>, id: nat)
    requires a <= b && id in a
    ensures id in b
  {
    var i :| 0 <= i < |a| && a[i] == id;
    assert b[i] == id;
  }

  /** A node that could be entered leads to the same table in any later document. */
  lemma InsideAgain(d: Doc, c: nat, dotted: bool, e: Doc)
    requires Valid(d) && Advance(d, e) && Enterable(d, c, dotted) && (dotted || SameTracked(d, e))
    ensures Enterable(e, c, dotted) && Inside(e, c) == Inside(d, c)
  {
    if dotted { InLongerList(d.dotted, e.dotted, c); }
    if IsTable(d, c) {
      TableStays(d, e, c);
    } else {
      InLongerList(d.arrays, e.arrays, c);
    }
  }

  lemma GetAgain(d: Doc, t: nat, key: string, e: Doc)
    requires Grows(d, e) && IsTable(d, t) && Get(d, t, key).Some?
    ensures IsTable(e, t) && Get(e, t, key) == Get(d, t, key)
  {
    assert Extends(d.nodes[t], e.nodes[t]);
  }

  /** One step down that was taken in `d` leads to the same table in any later document. */
  lemma EnterAgain(d: Doc, t: nat, key: string, dotted: bool, e: Doc)
    requires Valid(d) && IsTable(d, t) && Enter(d, t, key, dotted).Some?
    requires var q := Enter(d, t, key, dotted).value; Advance(q.doc, e) && (dotted || SameTracked(d, e))
    ensures var q := Enter(d, t, key, dotted).value;
      && IsTable(e, t) && Get(e, t, key).Some? && var c := Get(e, t, key).value;
      Enterable(e, c, dotted) && Inside(e, c) == q.at && (dotted || SameTracked(q.doc, e))
  {
    var q := Enter(d, t, key, dotted).value;
    if Get(d, t, key) == None {
      NewChildAdvances(d, t, key, Table(map[]));
      NewChildTouches(d, t, key, Table(map[]));
      assert forall a :: a in d.arrays ==> IsTableArray(d, a);
      assert q.doc.arrays == d.arrays && (dotted ==> q.at in q.doc.dotted);
    }
    GetAgain(q.doc, t, key, e);
    InsideAgain(q.doc, Get(q.doc, t, key).value, dotted, e);
  }

  /** The path of a descent leads to where the descent ended, in any later document. */
  lemma {:induction false} WalkAgain(d: Doc, t: nat, parents: seq<string>, last: string, dotted: bool, e: Doc)
    requires Valid(d) && IsTable(d, t) && Walk(d, t, parents, dotted).Some?
    requires var p := Walk(d, t, parents, dotted).value;
      Advance(p.doc, e) && (dotted || SameTracked(d, e)) && IsTable(e, p.at) && Get(e, p.at, last).Some?
    ensures var p := Walk(d, t, parents, dotted).value;
      IsTable(e, t) && Look(e, t, parents, last, dotted) == Found(Get(e, p.at, last).value)
    decreases parents
  {
    if parents != [] {
      var q := Enter(d, t, parents[0], dotted).value;
      var p := Walk(q.doc, q.at, parents[1..], dotted).value;
      AdvanceTransitive(q.doc, p.doc, e);
      EnterAgain(d, t, parents[0], dotted, e);
      WalkAgain(q.doc, q.at, parents[1..], last, dotted, e);
    }
  }

  lemma DefineGets(d: Doc, t: nat, key: string, isArr: bool)
    requires Valid(d) && IsTable(d, t) && Define(d, t, key, isArr).Some? && (isArr ==> Get(d, t, key) == None)
    ensures var p := Define(d, t, key, isArr).value;
      && IsTable(p.doc, t) && Get(p.doc, t, key).Some?
      && var c := Get(p.doc, t, key).value;
      if isArr then c in p.doc.arrays && p.doc.nodes[c] == Array([p.at]) else c == p.at
  {
    if isArr {
      NewChildAdvances(d, t, key, Array([]));
    } else if Get(d, t, key) == None {
      NewChildAdvances(d, t, key, Table(map[]));
    }
  }

  /** A header that does not extend an array changes no table array. */
  lemma HeaderKeepsTracked(d: Doc, key: Key, isArr: bool)
    requires Valid(d) && Header(d, key, isArr).Some?
    requires isArr ==> Look(d, ROOT, key.parents, key.last, false) == Missing
    ensures SameTracked(d, Header(d, key, isArr).value.doc)
  {
    HeaderTouches(d, key, isArr);
    assert forall a :: a in d.arrays ==> IsTableArray(d, a);
  }

  /** The path of a header leads to the table it returned, or to a new array holding just that table. */
  lemma HeaderReaches(d: Doc, key: Key, isArr: bool)
    requires Valid(d) && Header(d, key, isArr).Some?
    requires isArr ==> Look(d, ROOT, key.parents, key.last, false) == Missing
    ensures var p := Header(d, key, isArr).value;
      && Look(p.doc, ROOT, key.parents, key.last, false).Found?
      && var c := Look(p.doc, ROOT, key.parents, key.last, false).id;
      if isArr then c in p.doc.arrays && p.doc.nodes[c] == Array([p.at]) else c == p.at
  {
    WalkFollowsLook(d, ROOT, key.parents, key.last, false);
    var q, p := Walk(d, ROOT, key.parents, false).value, Header(d, key, isArr).value;
    DefineGets(q.doc, q.at, key.last, isArr);
    HeaderKeepsTracked(d, key, isArr);
    WalkAgain(d, ROOT, key.parents, key.last, false, p.doc);
  }

  // ---------------------------------------------------------------------------
  // Key/value pairs

  /** `e` has every node of `d` as it was, and no old table became a dotted-key table. */
  predicate Intact(d: Doc, e: Doc) {
    && (forall id :: id in d.nodes ==> id in e.nodes && e.nodes[id] == d.nodes[id])
    && (forall id :: id in d.nodes ==> (id in d.dotted <==> id in e.dotted))
  }

  lemma {:induction false} LookIntact(d: Doc, e: Doc, t: nat, parents: seq<string>, last: string)
    requires Valid(d) && Valid(e) && Intact(d, e) && IsTable(d, t)
    ensures Look(e, t, parents, last, true) == Look(d, t, parents, last, true)
    ensures Edge(e, t, parents, true) == Edge(d, t, parents, true)
    ensures EdgeKey(e, t, parents, last, true) == EdgeKey(d, t, parents, last, true)
    decreases parents
  {
    if parents != [] && Get(d, t, parents[0]).Some? {
      assert Points(d.nodes, t);
      var c := Get(d, t, parents[0]).value;
      if Enterable(d, c, true) { LookIntact(d, e, c, parents[1..], last); }
    }
  }

  /** A pair is accepted exactly when its value is and nothing is at its key, or in the way, yet. */
  lemma PairAcceptedIff(d: Doc, t: nat, pair: Pair)
    requires Valid(d) && IsTable(d, t)
    ensures Insert(d, t, pair).Some? <==>
      Build(d, pair.value).Some? && Look(d, t, pair.key.parents, pair.key.last, true) == Missing
  {
    if Build(d, pair.value).Some? {
      var v := Build(d, pair.value).value;
      BuildTouchesNothing(d, pair.value);
      TableStays(d, v.doc, t);
      LookIntact(d, v.doc, t, pair.key.parents, pair.key.last);
      WalkFollowsLook(v.doc, t, pair.key.parents, pair.key.last, true);
    }
  }

  lemma {:induction false} EdgeIsTable(d: Doc, t: nat, parents: seq<string>, dotted: bool)
    requires Valid(d) && IsTable(d, t)
    ensures IsTable(d, Edge(d, t, parents, dotted))
    decreases parents
  {
    if parents != [] && Get(d, t, parents[0]).Some? {
      var c := Get(d, t, parents[0]).value;
      if Enterable(d, c, dotted) { EdgeIsTable(d, Inside(d, c), parents[1..], dotted); }
    }
  }

  lemma AddsKeyFrom(d: Doc, v: Doc, e: Doc, edge: nat, key: string)
    requires Intact(d, v) && d.next <= v.next && edge in d.nodes && AddsKey(v, e, edge, key)
    ensures AddsKey(d, e, edge, key)
  {
  }

  lemma LinkAddsKey(d: Doc, v: Doc, t: nat, key: string, id: nat)
    requires Intact(d, v) && t in d.nodes && IsTable(v, t) && key !in v.nodes[t].entries && d.next <= id
    ensures AddsKey(d, Link(v, t, key, id), t, key)
  {
  }

  /** A pair changes one node that existed before: it adds one key at the edge of its path. */
  lemma PairTouches(d: Doc, t: nat, pair: Pair)
    requires Valid(d) && IsTable(d, t) && Insert(d, t, pair).Some?
    ensures AddsKey(d, Insert(d, t, pair).value, Edge(d, t, pair.key.parents, true),
                    EdgeKey(d, t, pair.key.parents, pair.key.last, true))
  {
    var v := Build(d, pair.value).value;
    BuildTouchesNothing(d, pair.value);
    assert Intact(d, v.doc);
    TableStays(d, v.doc, t);
    LookIntact(d, v.doc, t, pair.key.parents, pair.key.last);
    EdgeIsTable(d, t, pair.key.parents, true);
    WalkTouches(v.doc, t, pair.key.parents, pair.key.last, true);
    var edge, key := Edge(d, t, pair.key.parents, true), EdgeKey(d, t, pair.key.parents, pair.key.last, true);
    LinkTouches(d, v.doc, Walk(v.doc, t, pair.key.parents, true).value, edge, key, pair.key.last, v.at);
  }

  /** The last step of a pair, whether its descent created tables or not. */
  lemma LinkTouches(d: Doc, v: Doc, p: Place, edge: nat, key: string, last: string, id: nat)
    requires Intact(d, v) && d.next <= v.next && edge in d.nodes && IsTable(p.doc, p.at)
    requires last !in p.doc.nodes[p.at].entries && d.next <= id && (forall i :: i in v.nodes ==> i < v.next)
    requires p.at < v.next ==> p.doc == v && p.at == edge && key == last
    requires p.at >= v.next ==> AddsKey(v, p.doc, edge, key)
    ensures AddsKey(d, Link(p.doc, p.at, last, id), edge, key)
  {
    if p.at < v.next {
      LinkAddsKey(d, v, edge, key, id);
    } else {
      var e := Link(p.doc, p.at, last, id);
      AddsKeyThen(v, p.doc, e, edge, key, p.at);
      AddsKeyFrom(d, v, e, edge, key);
    }
  }

  lemma LinkedStays(d: Doc, t: nat, key: string, id: nat, f: Doc)
    requires IsTable(d, t) && Grows(Link(d, t, key, id), f)
    ensures IsTable(f, t) && Get(f, t, key) == Some(id)
  {
    var e := Link(d, t, key, id);
    assert Extends(e.nodes[t], f.nodes[t]);
  }

  /** The value of a pair is at its key, and stays there in every later document. */
  lemma PairReaches(d: Doc, t: nat, pair: Pair, f: Doc)
    requires Valid(d) && IsTable(d, t) && Insert(d, t, pair).Some? && Advance(Insert(d, t, pair).value, f)
    ensures IsTable(f, t)
    ensures Look(f, t, pair.key.parents, pair.key.last, true) == Found(Build(d, pair.value).value.at)
  {
    var v := Build(d, pair.value).value;
    TableStays(d, v.doc, t);
    var p := Walk(v.doc, t, pair.key.parents, true).value;
    LinkAdvances(p.doc, p.at, pair.key.last, v.at);
    AdvanceTransitive(p.doc, Insert(d, t, pair).value, f);
    LinkedStays(p.doc, p.at, pair.key.last, v.at, f);
    WalkAgain(v.doc, t, pair.key.parents, pair.key.last, true, f);
  }
}
