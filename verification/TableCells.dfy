/**
  What is at the paths of a document: tables and how they came about, arrays, values; and
  what the descent through the parents of a header or a dotted key adds there.
 */
module TableCells {
  import opened Basics
  import opened TableDefinition
  import opened TableTree

  // ---------------------------------------------------------------------------
  // What is at a path

  /** How a table came about: by a header or a value, as a header's parent, or by a dotted key. */
  datatype Mark = Plain | Implied | Dotted

  datatype Cell = TableCell(mark: Mark) | ArrayCell(size: nat, tracked: bool) | ValueCell(kind: Kind)

  function CellOfNode(d: Doc, id: nat): Cell
    requires id in d.nodes
  {
    match d.nodes[id]
    case Table(_) => TableCell(if id in d.implicit then Implied else if id in d.dotted then Dotted else Plain)
    case Array(es) => ArrayCell(|es|, id in d.arrays)
    case Value(k) => ValueCell(k)
  }

  function CellAt(d: Doc, o: nat, q: seq<Slot>): Option<Cell> {
    var n := Path(d, o, q);
    if n.Some? && n.value in d.nodes then Some(CellOfNode(d, n.value)) else None
  }

  /** Nodes other than `t` are what they were. */
  predicate SameCells(d: Doc, e: Doc, t: nat) {
    forall id :: id in d.nodes ==> id in e.nodes && (id != t ==> CellOfNode(e, id) == CellOfNode(d, id))
  }

  /** One more link from `t`: the tree below it moves there, and only `t` itself may look different. */
  lemma {:induction false} AttachedCells(d: Doc, e: Doc, o: nat, r: seq<Slot>, t: nat, slot: Slot, n: nat, q: seq<Slot>)
    requires WellFormed(d) && o in d.nodes && n in d.nodes && Forest(d) && Orphan(d, o) && Orphan(d, n) && o != n
    requires Attaches(d, e, t, slot, n) && Path(d, o, r) == Some(t) && SameCells(d, e, t)
    ensures CellAt(e, o, r + [slot] + q) == CellAt(d, n, q)
  {
    AttachedPaths(d, e, o, r, t, slot, n, q);
    if Path(d, n, q).Some? {
      PathStays(d, n, q);
      if Path(d, n, q) == Some(t) { PathsAreUnique(d, o, r, n, q); }
    }
  }

  lemma {:induction false} OtherCells(d: Doc, e: Doc, o: nat, r: seq<Slot>, t: nat, slot: Slot, n: nat, q: seq<Slot>)
    requires WellFormed(d) && o in d.nodes && Forest(d) && Orphan(d, o)
    requires Attaches(d, e, t, slot, n) && Path(d, o, r) == Some(t) && SameCells(d, e, t)
    requires !(r + [slot] <= q) && q != r
    ensures CellAt(e, o, q) == CellAt(d, o, q)
  {
    AttachKeepsPaths(d, e, o, r, t, slot, n, q);
    if Path(d, o, q).Some? {
      PathStays(d, o, q);
      if Path(d, o, q) == Some(t) { PathsAreUnique(d, o, r, o, q); }
    }
  }

  lemma {:induction false} OtherTrees(d: Doc, e: Doc, o: nat, r: seq<Slot>, t: nat, slot: Slot, n: nat, m: nat, q: seq<Slot>)
    requires WellFormed(d) && m in d.nodes && Forest(d) && Orphan(d, o) && Orphan(d, m) && m != o
    requires Attaches(d, e, t, slot, n) && Path(d, o, r) == Some(t) && SameCells(d, e, t)
    ensures CellAt(e, m, q) == CellAt(d, m, q)
  {
    AttachLeavesOthers(d, e, o, r, t, slot, n, m, q);
    if Path(d, m, q).Some? {
      PathStays(d, m, q);
      if Path(d, m, q) == Some(t) { PathsAreUnique(d, o, r, m, q); }
    }
  }

  /** A node without links has nothing below it. */
  lemma {:induction false} LeafCell(d: Doc, id: nat, q: seq<Slot>)
    requires id in d.nodes && IsEmpty(d.nodes[id])
    ensures CellAt(d, id, q) == if q == [] then Some(CellOfNode(d, id)) else None
  {
    if q != [] {
      assert q == [q[0]] + q[1..];
      PathConcat(d, id, [q[0]], q[1..]);
      PathSnoc(d, id, [], q[0]);
      assert [] + [q[0]] == [q[0]];
    }
  }

  lemma {:induction false} MissingBelow(d: Doc, o: nat, r: seq<Slot>, t: nat, slot: Slot, q: seq<Slot>)
    requires Path(d, o, r) == Some(t) && Down(d, t, slot) == None
    ensures CellAt(d, o, r + [slot] + q) == None
  {
    PathSnoc(d, o, r, slot);
    PathConcat(d, o, r + [slot], q);
  }

  /** A node without links is attached: one path more. */
  lemma {:induction false} LeafAttached(d: Doc, e: Doc, o: nat, r: seq<Slot>, t: nat, slot: Slot, n: nat, q: seq<Slot>)
    requires WellFormed(d) && o in d.nodes && n in d.nodes && Forest(d) && Orphan(d, o) && Orphan(d, n) && o != n
    requires Attaches(d, e, t, slot, n) && Path(d, o, r) == Some(t) && SameCells(d, e, t) && t in d.nodes && IsEmpty(d.nodes[n])
    ensures CellAt(e, o, q) ==
      if q == r + [slot] then Some(CellOfNode(d, n)) else if q == r then Some(CellOfNode(e, t)) else CellAt(d, o, q)
  {
    if r + [slot] <= q {
      var rest := q[|r| + 1..];
      assert q == r + [slot] + rest;
      AttachedCells(d, e, o, r, t, slot, n, rest);
      LeafCell(d, n, rest);
      MissingBelow(d, o, r, t, slot, rest);
    } else if q == r {
      AttachKeepsPaths(d, e, o, r, t, slot, n, r);
    } else {
      OtherCells(d, e, o, r, t, slot, n, q);
    }
  }

  /** Every node of `d` is in `e` as it was. */
  predicate Keeps(d: Doc, e: Doc) {
    forall id :: id in d.nodes ==> id in e.nodes && e.nodes[id] == d.nodes[id] && CellOfNode(e, id) == CellOfNode(d, id)
  }

  /** Old nodes keep their links and looks when nodes are only added. */
  lemma {:induction false} AddedCells(d: Doc, e: Doc, o: nat, q: seq<Slot>)
    requires WellFormed(d) && o in d.nodes && Keeps(d, e)
    ensures Path(e, o, q) == Path(d, o, q) && CellAt(e, o, q) == CellAt(d, o, q)
  {
    if q != [] {
      AddedCells(d, e, o, q[..|q| - 1]);
      if Path(d, o, q[..|q| - 1]).Some? { PathStays(d, o, q[..|q| - 1]); }
    }
    if Path(d, o, q).Some? { PathStays(d, o, q); }
  }

  // ---------------------------------------------------------------------------
  // New nodes under a key

  /** The lists say the same of every node of `d`. */
  predicate SameMarks(d: Doc, e: Doc) {
    && e.arrays == d.arrays
    && forall id :: id in d.nodes ==> (id in e.implicit <==> id in d.implicit) && (id in e.dotted <==> id in d.dotted)
  }

  /** The path `r` leads from the unattached node `o` to `t`. */
  ghost predicate Leads(d: Doc, o: nat, r: seq<Slot>, t: nat) {
    Valid(d) && Forest(d) && o in d.nodes && Orphan(d, o) && Path(d, o, r) == Some(t)
  }

  /** A new node under a key of `t`, and then perhaps in the lists. */
  ghost predicate Hangs(d: Doc, t: nat, key: string, node: Node, f: Doc) {
    && Valid(d) && IsTable(d, t) && key !in d.nodes[t].entries && IsEmpty(node)
    && f.nodes == NewChild(d, t, key, node).nodes && SameMarks(d, f)
  }

  /** The new node, before it is linked. */
  function BeforeLink(d: Doc, node: Node, f: Doc): Doc {
    Doc(d.nodes[d.next := node], d.next + 1, f.implicit, f.dotted, f.arrays)
  }

  lemma BeforeLinkTree(d: Doc, t: nat, key: string, node: Node, f: Doc)
    requires Forest(d) && Hangs(d, t, key, node, f)
    ensures var c := BeforeLink(d, node, f);
      Forest(c) && Orphan(c, d.next) && forall m :: m in d.nodes && Orphan(d, m) ==> Orphan(c, m)
  {
    var b := Alloc(d, node);
    AllocTree(d, node);
    SameNodesSameTree(b, BeforeLink(d, node, f));
  }

  lemma BeforeLinkKeeps(d: Doc, t: nat, key: string, node: Node, f: Doc)
    requires Hangs(d, t, key, node, f)
    ensures var c := BeforeLink(d, node, f); WellFormed(c) && Keeps(d, c)
  {
    AllocAdvances(d, node);
    var b, c := Alloc(d, node), BeforeLink(d, node, f);
    assert forall id :: id in c.nodes ==> Points(b.nodes, id);
    assert WellFormed(c) by {
      assert forall i :: 0 <= i < |c.arrays| ==> IsTableArray(b, c.arrays[i]);
    }
  }

  lemma AfterLink(d: Doc, t: nat, key: string, node: Node, f: Doc)
    requires Hangs(d, t, key, node, f)
    ensures var c := BeforeLink(d, node, f);
      Attaches(c, f, t, Name(key), d.next) && SameCells(c, f, t) && t in f.nodes && CellOfNode(f, t) == CellOfNode(d, t)
    ensures var c := BeforeLink(d, node, f); d.next in f.nodes && CellOfNode(f, d.next) == CellOfNode(c, d.next)
  {
  }

  lemma {:induction false} NewChildCells(d: Doc, o: nat, r: seq<Slot>, t: nat, key: string, node: Node, f: Doc, q: seq<Slot>)
    requires Leads(d, o, r, t) && Hangs(d, t, key, node, f)
    ensures d.next in f.nodes && CellAt(f, o, q) == if q == r + [Name(key)] then Some(CellOfNode(f, d.next)) else CellAt(d, o, q)
  {
    var c := BeforeLink(d, node, f);
    BeforeLinkTree(d, t, key, node, f);
    BeforeLinkKeeps(d, t, key, node, f);
    AfterLink(d, t, key, node, f);
    AddedCells(d, c, o, r);
    AddedCells(d, c, o, q);
    LeafAttached(c, f, o, r, t, Name(key), d.next, q);
  }

  lemma {:induction false} NewChildOthers(d: Doc, o: nat, r: seq<Slot>, t: nat, key: string, node: Node, f: Doc, m: nat, q: seq<Slot>)
    requires Leads(d, o, r, t) && Hangs(d, t, key, node, f) && m in d.nodes && Orphan(d, m) && m != o
    ensures CellAt(f, m, q) == CellAt(d, m, q)
  {
    var c := BeforeLink(d, node, f);
    BeforeLinkTree(d, t, key, node, f);
    BeforeLinkKeeps(d, t, key, node, f);
    AfterLink(d, t, key, node, f);
    AddedCells(d, c, o, r);
    AddedCells(d, c, m, q);
    OtherTrees(c, f, o, r, t, Name(key), d.next, m, q);
  }

  // ---------------------------------------------------------------------------
  // The descent, on paths alone

  type Content = seq<Slot> -> Option<Cell>

  ghost function ContentOf(d: Doc, o: nat): Content {
    q => CellAt(d, o, q)
  }

  /** Where a key leads: into a new or old table, or into the last table of a table array. */
  function Next(c: Content, r: seq<Slot>, key: string, dotted: bool): Option<seq<Slot>> {
    var x := r + [Name(key)];
    match c(x)
    case None => Some(x)
    case Some(TableCell(mark)) => if !dotted || mark == Dotted then Some(x) else None
    case Some(ArrayCell(n, tracked)) => if !dotted && tracked && n > 0 then Some(x + [Index(n - 1)]) else None
    case Some(ValueCell(_)) => None
  }

  function Way(c: Content, r: seq<Slot>, path: seq<string>, dotted: bool): Option<seq<Slot>>
    decreases path
  {
    if path == [] then Some(r) else
    match Next(c, r, path[0], dotted)
    case None => None
    case Some(x) => Way(c, x, path[1..], dotted)
  }

  function MarkOf(dotted: bool): Mark {
    if dotted then Dotted else Implied
  }

  lemma ChildCell(d: Doc, o: nat, r: seq<Slot>, t: nat, key: string)
    requires Leads(d, o, r, t) && IsTable(d, t)
    ensures match Get(d, t, key)
      case None => CellAt(d, o, r + [Name(key)]) == None
      case Some(c) => c in d.nodes && Path(d, o, r + [Name(key)]) == Some(c) && CellAt(d, o, r + [Name(key)]) == Some(CellOfNode(d, c))
  {
    PathSnoc(d, o, r, Name(key));
    if Get(d, t, key).Some? { DownStays(d, t, Name(key)); }
  }

  lemma ElementPath(d: Doc, o: nat, x: seq<Slot>, a: nat)
    requires Valid(d) && Path(d, o, x) == Some(a) && a in d.arrays
    ensures IsTableArray(d, a) && Path(d, o, x + [Index(|d.nodes[a].elements| - 1)]) == Some(Last(d, a))
  {
    PathSnoc(d, o, x, Index(|d.nodes[a].elements| - 1));
  }

  lemma {:induction false} EnterOld(d: Doc, o: nat, r: seq<Slot>, t: nat, key: string, dotted: bool)
    requires Leads(d, o, r, t) && IsTable(d, t) && Get(d, t, key).Some?
    ensures var n := Next(ContentOf(d, o), r, key, dotted);
      && (Enter(d, t, key, dotted).Some? <==> n.Some?)
      && (n.Some? ==> Leads(d, o, n.value, Enter(d, t, key, dotted).value.at))
  {
    ChildCell(d, o, r, t, key);
    var c, n := Get(d, t, key).value, Next(ContentOf(d, o), r, key, dotted);
    if c in d.arrays {
      ElementPath(d, o, r + [Name(key)], c);
      assert Last(d, c) == Inside(d, c);
      assert n == if dotted then None else Some(r + [Name(key)] + [Index(|d.nodes[c].elements| - 1)]);
    } else {
      assert n == if IsTable(d, c) && (!dotted || c in d.dotted) then Some(r + [Name(key)]) else None;
    }
  }

  lemma EnterNew(d: Doc, t: nat, key: string, dotted: bool)
    requires Valid(d) && IsTable(d, t) && Get(d, t, key) == None
    ensures Enter(d, t, key, dotted).Some? && Hangs(d, t, key, Table(map[]), Enter(d, t, key, dotted).value.doc)
    ensures var f := Enter(d, t, key, dotted).value.doc; d.next in f.nodes && CellOfNode(f, d.next) == TableCell(MarkOf(dotted))
  {
  }

  lemma {:induction false} EnterMeans(d: Doc, o: nat, r: seq<Slot>, t: nat, key: string, dotted: bool)
    requires Leads(d, o, r, t) && IsTable(d, t)
    ensures var n := Next(ContentOf(d, o), r, key, dotted);
      && (Enter(d, t, key, dotted).Some? <==> n.Some?)
      && (n.Some? ==> Leads(Enter(d, t, key, dotted).value.doc, o, n.value, Enter(d, t, key, dotted).value.at))
  {
    if Get(d, t, key).Some? {
      EnterOld(d, o, r, t, key, dotted);
    } else {
      EnterNew(d, t, key, dotted);
      EnterTree(d, t, key, dotted);
      ChildCell(d, o, r, t, key);
      var f := Enter(d, t, key, dotted).value.doc;
      GrownPath(d, f, o, r);
      PathSnoc(f, o, r, Name(key));
    }
  }

  /** Paths stay when documents grow. */
  lemma {:induction false} GrownPath(d: Doc, e: Doc, o: nat, q: seq<Slot>)
    requires Grows(d, e) && Path(d, o, q).Some?
    ensures Path(e, o, q) == Path(d, o, q)
  {
    if q != [] {
      GrownPath(d, e, o, q[..|q| - 1]);
      var u := Path(d, o, q[..|q| - 1]).value;
      assert Extends(d.nodes[u], e.nodes[u]);
    }
  }

  lemma {:induction false} EnterCells(d: Doc, o: nat, r: seq<Slot>, t: nat, key: string, dotted: bool, q: seq<Slot>)
    requires Leads(d, o, r, t) && IsTable(d, t) && Enter(d, t, key, dotted).Some?
    ensures CellAt(Enter(d, t, key, dotted).value.doc, o, q) ==
      if q == r + [Name(key)] && CellAt(d, o, q) == None then Some(TableCell(MarkOf(dotted))) else CellAt(d, o, q)
  {
    ChildCell(d, o, r, t, key);
    if Get(d, t, key) == None {
      EnterNew(d, t, key, dotted);
      NewChildCells(d, o, r, t, key, Table(map[]), Enter(d, t, key, dotted).value.doc, q);
    }
  }

  lemma {:induction false} EnterOthers(d: Doc, o: nat, r: seq<Slot>, t: nat, key: string, dotted: bool, m: nat, q: seq<Slot>)
    requires Leads(d, o, r, t) && IsTable(d, t) && Enter(d, t, key, dotted).Some? && m in d.nodes && Orphan(d, m) && m != o
    ensures CellAt(Enter(d, t, key, dotted).value.doc, m, q) == CellAt(d, m, q)
  {
    if Get(d, t, key) == None {
      EnterNew(d, t, key, dotted);
      NewChildOthers(d, o, r, t, key, Table(map[]), Enter(d, t, key, dotted).value.doc, m, q);
    }
  }

  /** A way goes on from its start, step by step. */
  lemma {:induction false} WayGoesOn(c: Content, r: seq<Slot>, path: seq<string>, dotted: bool)
    requires Way(c, r, path, dotted).Some?
    ensures r <= Way(c, r, path, dotted).value
    ensures path != [] ==>
      && Next(c, r, path[0], dotted).Some?
      && r + [Name(path[0])] <= Next(c, r, path[0], dotted).value <= Way(c, r, path, dotted).value
    decreases path
  {
    if path != [] { WayGoesOn(c, Next(c, r, path[0], dotted).value, path[1..], dotted); }
  }

  /** The way depends only on what is below its start. */
  lemma {:induction false} WaySame(b: Content, c: Content, r: seq<Slot>, path: seq<string>, dotted: bool)
    requires forall q :: r <= q && q != r ==> b(q) == c(q)
    ensures Way(b, r, path, dotted) == Way(c, r, path, dotted)
    decreases path
  {
    if path != [] {
      var n := Next(b, r, path[0], dotted);
      assert n == Next(c, r, path[0], dotted);
      if n.Some? { WaySame(b, c, n.value, path[1..], dotted); }
    }
  }

  lemma EnteredContent(d: Doc, o: nat, r: seq<Slot>, t: nat, key: string, dotted: bool, path: seq<string>)
    requires Leads(d, o, r, t) && IsTable(d, t) && Enter(d, t, key, dotted).Some? && Next(ContentOf(d, o), r, key, dotted).Some?
    ensures var x := Next(ContentOf(d, o), r, key, dotted).value;
      Way(ContentOf(Enter(d, t, key, dotted).value.doc, o), x, path, dotted) == Way(ContentOf(d, o), x, path, dotted)
  {
    var x := Next(ContentOf(d, o), r, key, dotted).value;
    var e := Enter(d, t, key, dotted).value.doc;
    forall q | x <= q && q != x ensures ContentOf(e, o)(q) == ContentOf(d, o)(q) {
      EnterCells(d, o, r, t, key, dotted, q);
    }
    WaySame(ContentOf(e, o), ContentOf(d, o), x, path, dotted);
  }

  /** One step and the rest of the descent. */
  lemma WalkOnce(d: Doc, o: nat, r: seq<Slot>, t: nat, path: seq<string>, dotted: bool) returns (p: Place, x: seq<Slot>)
    requires Leads(d, o, r, t) && IsTable(d, t) && path != [] && Enter(d, t, path[0], dotted).Some?
    ensures Enter(d, t, path[0], dotted) == Some(p) && Next(ContentOf(d, o), r, path[0], dotted) == Some(x)
    ensures Leads(p.doc, o, x, p.at) && IsTable(p.doc, p.at) && Walk(d, t, path, dotted) == Walk(p.doc, p.at, path[1..], dotted)
    ensures Way(ContentOf(d, o), r, path, dotted) == Way(ContentOf(p.doc, o), x, path[1..], dotted)
  {
    p := Enter(d, t, path[0], dotted).value;
    EnterMeans(d, o, r, t, path[0], dotted);
    x := Next(ContentOf(d, o), r, path[0], dotted).value;
    EnteredContent(d, o, r, t, path[0], dotted, path[1..]);
  }

  /** The parser's descent follows the way and ends at its end. */
  lemma {:induction false} WalkMeans(d: Doc, o: nat, r: seq<Slot>, t: nat, path: seq<string>, dotted: bool)
    requires Leads(d, o, r, t) && IsTable(d, t)
    ensures var w := Way(ContentOf(d, o), r, path, dotted);
      && (Walk(d, t, path, dotted).Some? <==> w.Some?)
      && (w.Some? ==> Leads(Walk(d, t, path, dotted).value.doc, o, w.value, Walk(d, t, path, dotted).value.at))
    decreases path
  {
    if path != [] {
      if Enter(d, t, path[0], dotted).Some? {
        var p, x := WalkOnce(d, o, r, t, path, dotted);
        WalkMeans(p.doc, o, x, p.at, path[1..], dotted);
      } else {
        EnterMeans(d, o, r, t, path[0], dotted);
      }
    }
  }

  /** Between `r` and `w` comes `r` itself, and then everything from the first step on. */
  lemma OnTheWay(r: seq<Slot>, slot: Slot, q: seq<Slot>, w: seq<Slot>)
    requires r + [slot] <= w && r <= q <= w && q != r
    ensures r + [slot] <= q
  {
    assert q[|r|] == w[|r|] == slot;
  }

  lemma NextOnTheWay(d: Doc, o: nat, r: seq<Slot>, t: nat, key: string, dotted: bool, q: seq<Slot>, w: seq<Slot>)
    requires Leads(d, o, r, t) && IsTable(d, t) && Next(ContentOf(d, o), r, key, dotted).Some?
    requires Next(ContentOf(d, o), r, key, dotted).value <= w && r <= q <= w && CellAt(d, o, q) == None
    ensures q == r + [Name(key)] || Next(ContentOf(d, o), r, key, dotted).value <= q
  {
    var x := r + [Name(key)];
    assert q != r;
    OnTheWay(r, Name(key), q, w);
    var n := Next(ContentOf(d, o), r, key, dotted).value;
    if q != x && n != x { OnTheWay(x, n[|x|], q, w); }
  }

  /** What the first step of a descent adds, and then the others. */
  lemma MarkedInTurn(r: seq<Slot>, x: seq<Slot>, n: seq<Slot>, w: seq<Slot>, q: seq<Slot>,
                     was: Option<Cell>, then1: Option<Cell>, now: Option<Cell>, mark: Option<Cell>)
    requires r <= x <= n <= w && (r <= q <= w && was == None ==> q == x || n <= q)
    requires then1 == if q == x && was == None then mark else was
    requires now == if n <= q <= w && then1 == None then mark else then1
    ensures now == if r <= q <= w && was == None then mark else was
  {
    if q == x || n <= q { assert r <= q; }
    if q == x { assert q <= w; }
  }

  ghost predicate Descends(d: Doc, e: Doc, o: nat, r: seq<Slot>, w: seq<Slot>, dotted: bool, q: seq<Slot>) {
    CellAt(e, o, q) == if r <= q <= w && CellAt(d, o, q) == None then Some(TableCell(MarkOf(dotted))) else CellAt(d, o, q)
  }

  lemma {:induction false} WalkCellsStep(d: Doc, o: nat, r: seq<Slot>, t: nat, key: string, dotted: bool,
                                         e: Doc, w: seq<Slot>, q: seq<Slot>)
    requires Leads(d, o, r, t) && IsTable(d, t) && Enter(d, t, key, dotted).Some? && Next(ContentOf(d, o), r, key, dotted).Some?
    requires r + [Name(key)] <= Next(ContentOf(d, o), r, key, dotted).value <= w
    requires Descends(Enter(d, t, key, dotted).value.doc, e, o, Next(ContentOf(d, o), r, key, dotted).value, w, dotted, q)
    ensures Descends(d, e, o, r, w, dotted, q)
  {
    EnterCells(d, o, r, t, key, dotted, q);
    if r <= q <= w && CellAt(d, o, q) == None {
      NextOnTheWay(d, o, r, t, key, dotted, q, w);
    }
    MarkedInTurn(r, r + [Name(key)], Next(ContentOf(d, o), r, key, dotted).value, w, q,
      CellAt(d, o, q), CellAt(Enter(d, t, key, dotted).value.doc, o, q), CellAt(e, o, q), Some(TableCell(MarkOf(dotted))));
  }

  /** The descent adds the tables that were missing on its way, marked, and nothing else. */
  lemma {:induction false} WalkCells(d: Doc, o: nat, r: seq<Slot>, t: nat, path: seq<string>, dotted: bool, w: seq<Slot>, q: seq<Slot>)
    requires Leads(d, o, r, t) && IsTable(d, t) && Walk(d, t, path, dotted).Some? && Way(ContentOf(d, o), r, path, dotted) == Some(w)
    ensures Descends(d, Walk(d, t, path, dotted).value.doc, o, r, w, dotted, q)
    decreases path
  {
    if path == [] {
      assert r <= q <= w ==> q == r;
      assert CellAt(d, o, r).Some?;
    } else {
      var p, x := WalkOnce(d, o, r, t, path, dotted);
      WalkCells(p.doc, o, x, p.at, path[1..], dotted, w, q);
      WayGoesOn(ContentOf(d, o), r, path, dotted);
      WalkCellsStep(d, o, r, t, path[0], dotted, Walk(d, t, path, dotted).value.doc, w, q);
    }
  }

  /** A key is free where the descent ends exactly when nothing was at its path. */
  lemma {:induction false} WalkSpot(d: Doc, o: nat, r: seq<Slot>, t: nat, path: seq<string>, dotted: bool, key: string)
    requires Leads(d, o, r, t) && IsTable(d, t) && Walk(d, t, path, dotted).Some? && Way(ContentOf(d, o), r, path, dotted).Some?
    ensures var p, w := Walk(d, t, path, dotted).value, Way(ContentOf(d, o), r, path, dotted).value;
      match Get(p.doc, p.at, key)
      case None => CellAt(d, o, w + [Name(key)]) == None
      case Some(c) => c in p.doc.nodes && CellAt(d, o, w + [Name(key)]) == Some(CellOfNode(p.doc, c))
  {
    var p, w := Walk(d, t, path, dotted).value, Way(ContentOf(d, o), r, path, dotted).value;
    WalkMeans(d, o, r, t, path, dotted);
    WalkCells(d, o, r, t, path, dotted, w, w + [Name(key)]);
    ChildCell(p.doc, o, w, p.at, key);
  }

  lemma {:induction false} WalkOthers(d: Doc, o: nat, r: seq<Slot>, t: nat, path: seq<string>, dotted: bool, m: nat, q: seq<Slot>)
    requires Leads(d, o, r, t) && IsTable(d, t) && Walk(d, t, path, dotted).Some? && m in d.nodes && Orphan(d, m) && m != o
    ensures CellAt(Walk(d, t, path, dotted).value.doc, m, q) == CellAt(d, m, q)
    decreases path
  {
    if path != [] {
      var p, x := WalkOnce(d, o, r, t, path, dotted);
      EnterTree(d, t, path[0], dotted);
      EnterOthers(d, o, r, t, path[0], dotted, m, q);
      WalkOthers(p.doc, o, x, p.at, path[1..], dotted, m, q);
    }
  }
}
