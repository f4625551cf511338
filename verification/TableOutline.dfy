/**
  What a document says, read off its lines alone, without nodes or lists: an outline gives
  what is at every path and the path of the current table.  The parser accepts exactly the
  documents that have an outline, and what it builds is that outline.
 */
module TableOutline {
  import opened Basics
  import opened TableDefinition
  import opened TableRuns
  import opened TableTree
  import opened TableCells
  import opened TableMeaning

  datatype Outline = Outline(content: Content, current: seq<Slot>)

  const BLANK: Outline := Outline(q => if q == [] then Some(TableCell(Plain)) else None, [])

  /** The parents of a header that are missing become implied tables. */
  function WithParents(c: Content, w: seq<Slot>, q: seq<Slot>): Option<Cell> {
    if q <= w && c(q) == None then Some(TableCell(Implied)) else c(q)
  }

  function SizeOf(was: Option<Cell>): nat {
    if was.Some? && was.value.ArrayCell? then was.value.size else 0
  }

  /** `[key]` is for a new table or one only implied, `[[key]]` for a new array or one that such headers made. */
  predicate MayBeHeaded(was: Option<Cell>, isArr: bool) {
    was == None || (if isArr then was == Some(ArrayCell(SizeOf(was), true)) else was == Some(TableCell(Implied)))
  }

  /** What is at `q` when a header has given the place `x` a table, or one more table. */
  function Headed(was: Option<Cell>, x: seq<Slot>, isArr: bool, q: seq<Slot>, before: Option<Cell>): Option<Cell> {
    if !isArr then if q == x then Some(TableCell(Plain)) else before
    else if q == x then Some(ArrayCell(SizeOf(was) + 1, true))
    else if q == x + [Index(SizeOf(was))] then Some(TableCell(Plain)) else before
  }

  function HeadedPath(was: Option<Cell>, x: seq<Slot>, isArr: bool): seq<Slot> {
    if isArr then x + [Index(SizeOf(was))] else x
  }

  function HeaderEntry(c: Content, key: Key, isArr: bool): Option<Outline> {
    var w := Way(c, [], key.parents, false);
    if w.None? then None else
    var x := w.value + [Name(key.last)];
    if MayBeHeaded(c(x), isArr)
    then Some(Outline(q => Headed(c(x), x, isArr, q, WithParents(c, w.value, q)), HeadedPath(c(x), x, isArr)))
    else None
  }

  /** What is at `q` when a value has been given to a key below `r`. */
  function PairContent(c: Content, r: seq<Slot>, pair: Pair, q: seq<Slot>): Option<Cell> {
    var x := r + KeyPath(pair.key);
    if x <= q then CellOf(pair.value, q[|x|..])
    else if r <= q <= x && c(q) == None then Some(TableCell(Dotted)) else c(q)
  }

  /** `key = value`, below the current table. */
  function PairEntry(c: Content, r: seq<Slot>, pair: Pair): Option<Outline> {
    if Sound(pair.value) && Fits(c, r, pair.key) then Some(Outline(q => PairContent(c, r, pair, q), r)) else None
  }

  function OutlineStep(u: Outline, line: Line): Option<Outline> {
    match line
    case PairLine(pair) => PairEntry(u.content, u.current, pair)
    case HeaderLine(key, isArr) => HeaderEntry(u.content, key, isArr)
  }

  function OutlineRun(u: Outline, lines: seq<Line>): Option<Outline>
    decreases lines
  {
    if lines == [] then Some(u) else
    var n := OutlineStep(u, lines[0]);
    if n.None? then None else OutlineRun(n.value, lines[1..])
  }

  // ---------------------------------------------------------------------------
  // Headers

  /** One more table at the end of an array, which may be tracked from now on. */
  ghost predicate Appends(d: Doc, a: nat, f: Doc) {
    && Valid(d) && a in d.nodes && d.nodes[a].Array?
    && f.nodes == Append(d, a).nodes && f.implicit == d.implicit && f.dotted == d.dotted
    && forall id :: id in d.nodes && id != a ==> (id in f.arrays <==> id in d.arrays)
  }

  lemma AppendLinks(d: Doc, a: nat, f: Doc)
    requires Forest(d) && Appends(d, a, f)
    ensures var c := Alloc(d, Table(map[]));
      Attaches(c, f, a, Index(|d.nodes[a].elements|), d.next) && SameCells(c, f, a) && d.next in c.nodes &&
      CellOfNode(c, d.next) == TableCell(Plain)
    ensures a in f.nodes && CellOfNode(f, a) == ArrayCell(|d.nodes[a].elements| + 1, a in f.arrays)
  {
    AppendAttaches(d, a);
    assert SameLinks(Append(d, a), f);
  }

  lemma {:induction false} AppendedCells(d: Doc, o: nat, x: seq<Slot>, a: nat, f: Doc, q: seq<Slot>)
    requires Leads(d, o, x, a) && Appends(d, a, f)
    ensures var n := |d.nodes[a].elements|;
      CellAt(f, o, q) ==
      if q == x then Some(ArrayCell(n + 1, a in f.arrays))
      else if q == x + [Index(n)] then Some(TableCell(Plain)) else CellAt(d, o, q)
  {
    var c, n := Alloc(d, Table(map[])), |d.nodes[a].elements|;
    AllocAdvances(d, Table(map[]));
    AllocTree(d, Table(map[]));
    AllocKeeps(d, Table(map[]));
    AppendLinks(d, a, f);
    AddedCells(d, c, o, x);
    AddedCells(d, c, o, q);
    LeafAttached(c, f, o, x, a, Index(n), d.next, q);
  }

  lemma NewTableHeaded(d: Doc, o: nat, w: seq<Slot>, t: nat, key: string, q: seq<Slot>)
    requires Leads(d, o, w, t) && IsTable(d, t) && Get(d, t, key) == None
    ensures var x := w + [Name(key)];
      CellAt(NewChild(d, t, key, Table(map[])), o, q) == Headed(None, x, false, q, CellAt(d, o, q))
  {
    NewChildCells(d, o, w, t, key, Table(map[]), NewChild(d, t, key, Table(map[])), q);
  }

  lemma {:induction false} NewArrayHangs(d: Doc, o: nat, w: seq<Slot>, t: nat, key: string)
    requires Leads(d, o, w, t) && IsTable(d, t) && Get(d, t, key) == None
    ensures var c := NewChild(d, t, key, Array([]));
      Leads(c, o, w + [Name(key)], d.next) && Appends(c, d.next, NewTableArray(d, t, key)) && c.nodes[d.next] == Array([])
  {
    var c := NewChild(d, t, key, Array([]));
    NewChildAdvances(d, t, key, Array([]));
    NewChildTree(d, t, key, Array([]));
    GrownPath(d, c, o, w);
    PathSnoc(c, o, w, Name(key));
  }

  lemma {:induction false} NewArrayHeaded(d: Doc, o: nat, w: seq<Slot>, t: nat, key: string, q: seq<Slot>)
    requires Leads(d, o, w, t) && IsTable(d, t) && Get(d, t, key) == None
    ensures var x := w + [Name(key)];
      CellAt(NewTableArray(d, t, key), o, q) == Headed(None, x, true, q, CellAt(d, o, q))
  {
    var c := NewChild(d, t, key, Array([]));
    NewArrayHangs(d, o, w, t, key);
    NewChildCells(d, o, w, t, key, Array([]), c, q);
    AppendedCells(c, o, w + [Name(key)], d.next, NewTableArray(d, t, key), q);
    assert d.next in NewTableArray(d, t, key).arrays;
  }

  lemma {:induction false} PromotedHeaded(d: Doc, o: nat, x: seq<Slot>, c: nat, q: seq<Slot>)
    requires Leads(d, o, x, c) && c in d.implicit
    ensures CellAt(d.(implicit := RemoveFirst(d.implicit, c)), o, q) == if q == x then Some(TableCell(Plain)) else CellAt(d, o, q)
  {
    var f := d.(implicit := RemoveFirst(d.implicit, c));
    RemovedOnce(d.implicit, c);
    assert SameLinks(d, f);
    SameLinksSamePaths(d, f, o, q);
    if Path(d, o, q) == Some(c) { PathsAreUnique(d, o, x, o, q); }
  }

  lemma {:induction false} DefineMeans(d: Doc, o: nat, w: seq<Slot>, t: nat, key: string, isArr: bool)
    requires Leads(d, o, w, t) && IsTable(d, t)
    ensures Define(d, t, key, isArr).Some? <==> MayBeHeaded(CellAt(d, o, w + [Name(key)]), isArr)
  {
    ChildCell(d, o, w, t, key);
    if Get(d, t, key).Some? {
      var c := Get(d, t, key).value;
      assert c in d.arrays ==> IsTableArray(d, c);
    }
  }

  lemma {:induction false} DefineCells(d: Doc, o: nat, w: seq<Slot>, t: nat, key: string, isArr: bool, q: seq<Slot>)
    requires Leads(d, o, w, t) && IsTable(d, t) && Define(d, t, key, isArr).Some?
    ensures var x := w + [Name(key)];
      CellAt(Define(d, t, key, isArr).value.doc, o, q) == Headed(CellAt(d, o, x), x, isArr, q, CellAt(d, o, q))
  {
    ChildCell(d, o, w, t, key);
    if Get(d, t, key) == None {
      if isArr {
        NewArrayHeaded(d, o, w, t, key, q);
      } else {
        NewTableHeaded(d, o, w, t, key, q);
      }
    } else {
      var c := Get(d, t, key).value;
      if isArr {
        assert IsTableArray(d, c);
        AppendedCells(d, o, w + [Name(key)], c, Append(d, c), q);
      } else {
        PromotedHeaded(d, o, w + [Name(key)], c, q);
      }
    }
  }

  lemma {:induction false} DefinedPath(d: Doc, o: nat, w: seq<Slot>, t: nat, key: string, isArr: bool)
    requires Leads(d, o, w, t) && IsTable(d, t) && Define(d, t, key, isArr).Some?
    ensures var p, c := Define(d, t, key, isArr).value, Get(d, t, key);
      if !isArr then Down(p.doc, t, Name(key)) == Some(p.at)
      else if c == None then Down(p.doc, t, Name(key)) == Some(d.next) && Down(p.doc, d.next, Index(0)) == Some(p.at)
      else c.value in d.nodes && d.nodes[c.value].Array? && Down(p.doc, t, Name(key)) == c
           && Down(p.doc, c.value, Index(|d.nodes[c.value].elements|)) == Some(p.at)
  {
    if isArr && Get(d, t, key).Some? {
      assert IsTableArray(d, Get(d, t, key).value);
    }
  }

  lemma {:induction false} DefineLeads(d: Doc, o: nat, w: seq<Slot>, t: nat, key: string, isArr: bool)
    requires Leads(d, o, w, t) && IsTable(d, t) && Define(d, t, key, isArr).Some?
    ensures var x, p := w + [Name(key)], Define(d, t, key, isArr).value;
      Leads(p.doc, o, HeadedPath(CellAt(d, o, x), x, isArr), p.at)
  {
    var x, p := w + [Name(key)], Define(d, t, key, isArr).value;
    ChildCell(d, o, w, t, key);
    DefineTree(d, t, key, isArr);
    GrownPath(d, p.doc, o, w);
    DefinedPath(d, o, w, t, key, isArr);
    PathSnoc(p.doc, o, w, Name(key));
    PathSnoc(p.doc, o, x, Index(SizeOf(CellAt(d, o, x))));
  }

  /** The descent of a header. */
  lemma {:induction false} HeaderWalk(d: Doc, key: Key) returns (v: Place, w: seq<Slot>)
    requires Leads(d, ROOT, [], ROOT) && IsTable(d, ROOT) && Walk(d, ROOT, key.parents, false).Some?
    ensures Walk(d, ROOT, key.parents, false) == Some(v) && Way(ContentOf(d, ROOT), [], key.parents, false) == Some(w)
    ensures Leads(v.doc, ROOT, w, v.at) && IsTable(v.doc, v.at)
    ensures forall q :: CellAt(v.doc, ROOT, q) == WithParents(ContentOf(d, ROOT), w, q)
    ensures CellAt(v.doc, ROOT, w + [Name(key.last)]) == CellAt(d, ROOT, w + [Name(key.last)])
  {
    WalkMeans(d, ROOT, [], ROOT, key.parents, false);
    v, w := Walk(d, ROOT, key.parents, false).value, Way(ContentOf(d, ROOT), [], key.parents, false).value;
    forall q ensures CellAt(v.doc, ROOT, q) == WithParents(ContentOf(d, ROOT), w, q) {
      WalkCells(d, ROOT, [], ROOT, key.parents, false, w, q);
    }
  }

  lemma {:induction false} HeaderDefined(key: Key, isArr: bool, v: Place, w: seq<Slot>)
    requires Leads(v.doc, ROOT, w, v.at) && IsTable(v.doc, v.at)
    ensures var x := w + [Name(key.last)];
      && (Define(v.doc, v.at, key.last, isArr).Some? <==> MayBeHeaded(CellAt(v.doc, ROOT, x), isArr))
      && (Define(v.doc, v.at, key.last, isArr).Some? ==>
            Leads(Define(v.doc, v.at, key.last, isArr).value.doc, ROOT, HeadedPath(CellAt(v.doc, ROOT, x), x, isArr),
                  Define(v.doc, v.at, key.last, isArr).value.at))
  {
    DefineMeans(v.doc, ROOT, w, v.at, key.last, isArr);
    if Define(v.doc, v.at, key.last, isArr).Some? {
      DefineLeads(v.doc, ROOT, w, v.at, key.last, isArr);
    }
  }

  lemma {:induction false} HeaderAccepted(d: Doc, key: Key, isArr: bool)
    requires Leads(d, ROOT, [], ROOT)
    ensures Header(d, key, isArr).Some? <==> HeaderEntry(ContentOf(d, ROOT), key, isArr).Some?
    ensures Header(d, key, isArr).Some? ==>
      Leads(Header(d, key, isArr).value.doc, ROOT, HeaderEntry(ContentOf(d, ROOT), key, isArr).value.current, Header(d, key, isArr).value.at)
  {
    if Walk(d, ROOT, key.parents, false).Some? {
      var v, w := HeaderWalk(d, key);
      HeaderDefined(key, isArr, v, w);
      assert Header(d, key, isArr) == Define(v.doc, v.at, key.last, isArr);
    } else {
      WalkMeans(d, ROOT, [], ROOT, key.parents, false);
    }
  }

  lemma {:induction false} HeaderCells(d: Doc, key: Key, isArr: bool, q: seq<Slot>)
    requires Leads(d, ROOT, [], ROOT) && Header(d, key, isArr).Some? && HeaderEntry(ContentOf(d, ROOT), key, isArr).Some?
    ensures CellAt(Header(d, key, isArr).value.doc, ROOT, q) == HeaderEntry(ContentOf(d, ROOT), key, isArr).value.content(q)
  {
    var v, w := HeaderWalk(d, key);
    DefineCells(v.doc, ROOT, w, v.at, key.last, isArr, q);
  }

  // ---------------------------------------------------------------------------
  // Whole documents

  /** The parser's document is what the outline says, and so is its current table. */
  ghost predicate Agrees(s: Progress, u: Outline) {
    && Leads(s.doc, ROOT, u.current, s.current) && IsTable(s.doc, s.current)
    && forall q :: CellAt(s.doc, ROOT, q) == u.content(q)
  }

  lemma RootLeads(s: Progress, u: Outline)
    requires Agrees(s, u)
    ensures Leads(s.doc, ROOT, [], ROOT) && IsTable(s.doc, ROOT)
  {
  }

  lemma {:induction false} SameEntries(b: Content, c: Content, key: Key, isArr: bool)
    requires forall q :: b(q) == c(q)
    ensures HeaderEntry(b, key, isArr).Some? <==> HeaderEntry(c, key, isArr).Some?
    ensures HeaderEntry(b, key, isArr).Some? ==> HeaderEntry(b, key, isArr).value.current == HeaderEntry(c, key, isArr).value.current
    ensures HeaderEntry(b, key, isArr).Some? ==>
      forall q :: HeaderEntry(b, key, isArr).value.content(q) == HeaderEntry(c, key, isArr).value.content(q)
  {
    WaySame(b, c, [], key.parents, false);
  }

  lemma {:induction false} HeaderOutlined(s: Progress, u: Outline, key: Key, isArr: bool)
    requires Agrees(s, u)
    ensures Header(s.doc, key, isArr).Some? <==> HeaderEntry(u.content, key, isArr).Some?
    ensures Header(s.doc, key, isArr).Some? ==>
      var p := Header(s.doc, key, isArr).value;
      Agrees(Progress(p.doc, p.at, s.headed + [p.at]), HeaderEntry(u.content, key, isArr).value)
  {
    RootLeads(s, u);
    HeaderAccepted(s.doc, key, isArr);
    SameEntries(ContentOf(s.doc, ROOT), u.content, key, isArr);
    if Header(s.doc, key, isArr).Some? {
      var p, n := Header(s.doc, key, isArr).value, HeaderEntry(u.content, key, isArr).value;
      forall q ensures CellAt(p.doc, ROOT, q) == n.content(q) {
        HeaderCells(s.doc, key, isArr, q);
      }
    }
  }

  lemma {:induction false} PairFits(s: Progress, u: Outline, pair: Pair)
    requires Agrees(s, u)
    ensures Insert(s.doc, s.current, pair).Some? <==> PairEntry(u.content, u.current, pair).Some?
    ensures Fits(u.content, u.current, pair.key) <==> Fits(ContentOf(s.doc, ROOT), u.current, pair.key)
  {
    BuildMeans(s.doc, pair.value);
    InsertMeans(s.doc, ROOT, u.current, s.current, pair);
    FitsSame(ContentOf(s.doc, ROOT), u.content, u.current, pair.key);
  }

  lemma {:induction false} PairBelow(s: Progress, u: Outline, pair: Pair, q: seq<Slot>)
    requires Agrees(s, u) && Insert(s.doc, s.current, pair).Some?
    ensures CellAt(Insert(s.doc, s.current, pair).value, ROOT, u.current + KeyPath(pair.key) + q) == CellOf(pair.value, q)
  {
    BuildMeans(s.doc, pair.value);
    InsertedBelow(s.doc, ROOT, u.current, s.current, pair, q);
  }

  lemma {:induction false} PairElsewhere(s: Progress, u: Outline, pair: Pair, q: seq<Slot>)
    requires Agrees(s, u) && Insert(s.doc, s.current, pair).Some? && !(u.current + KeyPath(pair.key) <= q)
    ensures CellAt(Insert(s.doc, s.current, pair).value, ROOT, q) ==
      if u.current <= q <= u.current + KeyPath(pair.key) && u.content(q) == None then Some(TableCell(Dotted)) else u.content(q)
  {
    InsertedElsewhere(s.doc, ROOT, u.current, s.current, pair, q);
    WayOrKey(u.current, pair.key, q);
  }

  lemma {:induction false} PairCell(s: Progress, u: Outline, pair: Pair, q: seq<Slot>)
    requires Agrees(s, u) && Insert(s.doc, s.current, pair).Some?
    ensures CellAt(Insert(s.doc, s.current, pair).value, ROOT, q) == PairContent(u.content, u.current, pair, q)
  {
    var x := u.current + KeyPath(pair.key);
    if x <= q {
      PrefixAndRest(x, q);
      PairCellBelow(s, u, pair, x, q, q[|x|..]);
    } else {
      PairElsewhere(s, u, pair, q);
    }
  }

  lemma {:induction false} PairCellBelow(s: Progress, u: Outline, pair: Pair, x: seq<Slot>, q: seq<Slot>, rest: seq<Slot>)
    requires Agrees(s, u) && Insert(s.doc, s.current, pair).Some? && x == u.current + KeyPath(pair.key) && q == x + rest
    ensures CellAt(Insert(s.doc, s.current, pair).value, ROOT, q) == CellOf(pair.value, rest)
  {
    PairBelow(s, u, pair, rest);
  }

  /** A path that stops before the key is on the way to it. */
  lemma WayOrKey(r: seq<Slot>, key: Key, q: seq<Slot>)
    requires !(r + KeyPath(key) <= q)
    ensures q <= r + Names(key.parents) <==> q <= r + KeyPath(key)
  {
    var w, x := r + Names(key.parents), r + KeyPath(key);
    assert x == w + [Name(key.last)] && w == x[..|w|];
    if q <= x {
      assert |q| <= |w|;
      assert q == x[..|q|] == w[..|q|];
    }
  }

  lemma {:induction false} PairOutlined(s: Progress, u: Outline, pair: Pair)
    requires Agrees(s, u)
    ensures Insert(s.doc, s.current, pair).Some? <==> PairEntry(u.content, u.current, pair).Some?
    ensures Insert(s.doc, s.current, pair).Some? ==>
      Agrees(Progress(Insert(s.doc, s.current, pair).value, s.current, s.headed), PairEntry(u.content, u.current, pair).value)
  {
    PairFits(s, u, pair);
    if Insert(s.doc, s.current, pair).Some? {
      var e := Insert(s.doc, s.current, pair).value;
      InsertTree(s.doc, s.current, pair);
      TableStays(s.doc, e, s.current);
      GrownPath(s.doc, e, ROOT, u.current);
      forall q ensures CellAt(e, ROOT, q) == PairEntry(u.content, u.current, pair).value.content(q) {
        PairCell(s, u, pair, q);
      }
    }
  }

  lemma {:induction false} StepOutlined(s: Progress, u: Outline, line: Line)
    requires Agrees(s, u)
    ensures Step(s, line).Some? <==> OutlineStep(u, line).Some?
    ensures Step(s, line).Some? ==> Agrees(Step(s, line).value, OutlineStep(u, line).value)
  {
    match line
    case HeaderLine(key, isArr) => HeaderOutlined(s, u, key, isArr);
    case PairLine(pair) => PairOutlined(s, u, pair);
  }

  lemma {:induction false} RunOutlined(s: Progress, u: Outline, lines: seq<Line>)
    requires Agrees(s, u)
    ensures Run(s, lines).Some? <==> OutlineRun(u, lines).Some?
    ensures Run(s, lines).Some? ==> Agrees(Run(s, lines).value, OutlineRun(u, lines).value)
    decreases lines
  {
    if lines != [] {
      StepOutlined(s, u, lines[0]);
      if Step(s, lines[0]).Some? {
        RunOutlined(Step(s, lines[0]).value, OutlineStep(u, lines[0]).value, lines[1..]);
      }
    }
  }

  lemma {:induction false} StartAgrees()
    ensures Agrees(START, BLANK)
  {
    StartIsReady();
    forall q ensures CellAt(EMPTY, ROOT, q) == BLANK.content(q) {
      LeafCell(EMPTY, ROOT, q);
    }
  }

  /**
    The parser accepts exactly the documents that have an outline, and then its document has
    at every path what the outline says and nothing else.
   */
  lemma DocumentsAreOutlined(lines: seq<Line>)
    ensures Document(lines).Some? <==> OutlineRun(BLANK, lines).Some?
    ensures Document(lines).Some? ==> Agrees(Document(lines).value, OutlineRun(BLANK, lines).value)
  {
    StartAgrees();
    RunOutlined(START, BLANK, lines);
  }
}
