/**
  What one line of a document means for the lines after it: headers below table arrays,
  headers and pairs that come twice, parents that are headed later.
 */
module TableSequences {
  import opened Basics
  import opened TableDefinition
  import TableLaws
  import opened TableRuns
  import opened TableTree
  import opened TableCells
  import opened TableMeaning
  import opened TableOutline

  /** Documents that lines can lead to: valid, and one tree. */
  ghost predicate Sane(d: Doc) {
    Valid(d) && Tree(d)
  }

  lemma SaneLeads(d: Doc)
    requires Sane(d)
    ensures Leads(d, ROOT, [], ROOT)
  {
  }

  lemma HeaderSane(d: Doc, key: Key, isArr: bool)
    requires Sane(d) && Header(d, key, isArr).Some?
    ensures Sane(Header(d, key, isArr).value.doc)
  {
    HeaderTree(d, key, isArr);
  }

  lemma DocumentsAreSane(lines: seq<Line>)
    requires Document(lines).Some?
    ensures Sane(Document(lines).value.doc)
  {
    DocumentsAreOutlined(lines);
  }

  // ---------------------------------------------------------------------------
  // The way of a header, once the header has been there

  lemma {:induction false} WaySnoc(c: Content, r: seq<Slot>, path: seq<string>, key: string, dotted: bool)
    ensures Way(c, r, path + [key], dotted) ==
      if Way(c, r, path, dotted).None? then None else Next(c, Way(c, r, path, dotted).value, key, dotted)
    decreases path
  {
    if path == [] {
      assert path + [key] == [key] && [key][1..] == [];
    } else {
      assert (path + [key])[1..] == path[1..] + [key];
      if Next(c, r, path[0], dotted).Some? { WaySnoc(c, Next(c, r, path[0], dotted).value, path[1..], key, dotted); }
    }
  }

  /** Parents that were implied on the way do not change it. */
  lemma {:induction false} WayAgain(b: Content, c: Content, r: seq<Slot>, path: seq<string>, w: seq<Slot>)
    requires Way(b, r, path, false) == Some(w)
    requires forall q :: r <= q <= w && q != r ==> c(q) == WithParents(b, w, q)
    ensures Way(c, r, path, false) == Some(w)
    decreases path
  {
    if path != [] {
      WayGoesOn(b, r, path, false);
      var n := Next(b, r, path[0], false).value;
      var x := r + [Name(path[0])];
      assert x <= n <= w && x != r;
      assert c(x) == WithParents(b, w, x);
      assert Next(c, r, path[0], false) == Some(n);
      WayAgain(b, c, n, path[1..], w);
    }
  }

  /** `w` is the path of the table in which the last key of a header is looked up. */
  ghost predicate Under(d: Doc, key: Key, w: seq<Slot>) {
    Sane(d) && Way(ContentOf(d, ROOT), [], key.parents, false) == Some(w)
  }

  lemma HeaderIff(d: Doc, key: Key, isArr: bool, w: seq<Slot>)
    requires Under(d, key, w)
    ensures Header(d, key, isArr).Some? <==> MayBeHeaded(CellAt(d, ROOT, w + [Name(key.last)]), isArr)
  {
    SaneLeads(d);
    HeaderAccepted(d, key, isArr);
  }

  lemma HeaderUnder(d: Doc, key: Key, isArr: bool) returns (w: seq<Slot>)
    requires Sane(d) && Header(d, key, isArr).Some?
    ensures Under(d, key, w)
  {
    SaneLeads(d);
    HeaderAccepted(d, key, isArr);
    w := Way(ContentOf(d, ROOT), [], key.parents, false).value;
  }

  lemma HeaderLeads(d: Doc, key: Key, isArr: bool, w: seq<Slot>)
    requires Under(d, key, w) && Header(d, key, isArr).Some?
    ensures var p, x := Header(d, key, isArr).value, w + [Name(key.last)];
      Sane(p.doc) && Leads(p.doc, ROOT, HeadedPath(CellAt(d, ROOT, x), x, isArr), p.at)
  {
    SaneLeads(d);
    HeaderSane(d, key, isArr);
    HeaderAccepted(d, key, isArr);
  }

  lemma HeaderCell(d: Doc, key: Key, isArr: bool, w: seq<Slot>, q: seq<Slot>)
    requires Under(d, key, w) && Header(d, key, isArr).Some?
    ensures var x, was := w + [Name(key.last)], CellAt(d, ROOT, q);
      CellAt(Header(d, key, isArr).value.doc, ROOT, q) ==
      Headed(CellAt(d, ROOT, x), x, isArr, q, if q <= w && was == None then Some(TableCell(Implied)) else was)
  {
    SaneLeads(d);
    HeaderAccepted(d, key, isArr);
    HeaderCells(d, key, isArr, q);
  }

  /** The parents of a header lead to the same place afterwards. */
  lemma {:induction false} HeaderUnderAgain(d: Doc, key: Key, isArr: bool, w: seq<Slot>)
    requires Under(d, key, w) && Header(d, key, isArr).Some?
    ensures Under(Header(d, key, isArr).value.doc, key, w)
  {
    HeaderLeads(d, key, isArr, w);
    var b, c, x := ContentOf(d, ROOT), ContentOf(Header(d, key, isArr).value.doc, ROOT), w + [Name(key.last)];
    forall q | [] <= q <= w && q != [] ensures c(q) == WithParents(b, w, q) {
      HeaderCell(d, key, isArr, w, q);
      assert |q| < |x|;
    }
    WayAgain(b, c, [], key.parents, w);
  }

  // ---------------------------------------------------------------------------
  // The same header twice

  /** `[key]` is accepted once, and no `[[key]]` after it. */
  lemma {:induction false} TableHeaderOnce(d: Doc, key: Key)
    requires Sane(d) && Header(d, key, false).Some?
    ensures Header(Header(d, key, false).value.doc, key, false) == None
    ensures Header(Header(d, key, false).value.doc, key, true) == None
  {
    var e := Header(d, key, false).value.doc;
    var w := HeaderUnder(d, key, false);
    HeaderUnderAgain(d, key, false, w);
    HeaderCell(d, key, false, w, w + [Name(key.last)]);
    HeaderIff(e, key, false, w);
    HeaderIff(e, key, true, w);
  }

  /** After `[[key]]` another one is accepted, and no `[key]`. */
  lemma {:induction false} ArrayHeaderAgain(d: Doc, key: Key)
    requires Sane(d) && Header(d, key, true).Some?
    ensures Header(Header(d, key, true).value.doc, key, false) == None
    ensures Header(Header(d, key, true).value.doc, key, true).Some?
  {
    var e := Header(d, key, true).value.doc;
    var w := HeaderUnder(d, key, true);
    HeaderUnderAgain(d, key, true, w);
    HeaderCell(d, key, true, w, w + [Name(key.last)]);
    HeaderIff(e, key, false, w);
    HeaderIff(e, key, true, w);
  }

  // ---------------------------------------------------------------------------
  // Headers below a table array

  lemma {:induction false} NothingBelow(d: Doc, o: nat, q: seq<Slot>, more: seq<Slot>)
    requires WellFormed(d) && o in d.nodes && CellAt(d, o, q) == None
    ensures CellAt(d, o, q + more) == None
  {
    PathConcat(d, o, q, more);
    if Path(d, o, q).Some? { PathStays(d, o, q); }
  }

  lemma {:induction false} PastTheEnd(d: Doc, o: nat, x: seq<Slot>)
    requires WellFormed(d) && o in d.nodes && (CellAt(d, o, x).Some? ==> CellAt(d, o, x).value.ArrayCell?)
    ensures CellAt(d, o, x + [Index(SizeOf(CellAt(d, o, x)))]) == None
  {
    if CellAt(d, o, x) == None {
      NothingBelow(d, o, x, [Index(0)]);
    } else {
      PathSnoc(d, o, x, Index(SizeOf(CellAt(d, o, x))));
    }
  }

  /** A table has just the key `k`, or none. */
  lemma {:induction false} OnlyKey(d: Doc, o: nat, y: seq<Slot>, t: nat, k: string, c: nat)
    requires Leads(d, o, y, t) && IsTable(d, t) && Path(d, o, y + [Name(k)]) == Some(c)
    requires forall j :: j != k ==> CellAt(d, o, y + [Name(j)]) == None
    ensures d.nodes[t].entries == map[k := c]
  {
    PathSnoc(d, o, y, Name(k));
    forall j | j != k ensures j !in d.nodes[t].entries {
      ChildCell(d, o, y, t, j);
    }
  }

  lemma {:induction false} NoKeys(d: Doc, o: nat, y: seq<Slot>, t: nat)
    requires Leads(d, o, y, t) && IsTable(d, t) && forall j :: CellAt(d, o, y + [Name(j)]) == None
    ensures d.nodes[t].entries == map[]
  {
    forall j ensures j !in d.nodes[t].entries {
      ChildCell(d, o, y, t, j);
    }
  }

  /** The table that `[[key]]` returns is at the path `y`, where headers below `key` go, and empty. */
  ghost predicate Fresh(d: Doc, key: Key, t: nat, y: seq<Slot>, k: string) {
    && Leads(d, ROOT, y, t) && IsTable(d, t) && Under(d, Key(key.parents + [key.last], k), y)
    && forall j :: CellAt(d, ROOT, y + [Name(j)]) == None
  }

  lemma {:induction false} NewElementIsEmpty(d: Doc, key: Key, w: seq<Slot>, j: string)
    requires Under(d, key, w) && Header(d, key, true).Some?
    ensures var x := w + [Name(key.last)];
      CellAt(Header(d, key, true).value.doc, ROOT, HeadedPath(CellAt(d, ROOT, x), x, true) + [Name(j)]) == None
  {
    var x := w + [Name(key.last)];
    var y := HeadedPath(CellAt(d, ROOT, x), x, true);
    HeaderIff(d, key, true, w);
    PastTheEnd(d, ROOT, x);
    NothingBelow(d, ROOT, y, [Name(j)]);
    HeaderCell(d, key, true, w, y + [Name(j)]);
    assert |y + [Name(j)]| > |y| > |x| > |w|;
  }

  lemma {:induction false} NewElementUnder(d: Doc, key: Key, w: seq<Slot>, k: string)
    requires Under(d, key, w) && Header(d, key, true).Some?
    ensures var x := w + [Name(key.last)];
      Under(Header(d, key, true).value.doc, Key(key.parents + [key.last], k), HeadedPath(CellAt(d, ROOT, x), x, true))
  {
    HeaderUnderAgain(d, key, true, w);
    HeaderCell(d, key, true, w, w + [Name(key.last)]);
    WaySnoc(ContentOf(Header(d, key, true).value.doc, ROOT), [], key.parents, key.last, false);
  }

  lemma {:induction false} NewElement(d: Doc, key: Key, k: string) returns (y: seq<Slot>)
    requires Sane(d) && Header(d, key, true).Some?
    ensures Fresh(Header(d, key, true).value.doc, key, Header(d, key, true).value.at, y, k)
  {
    var w := HeaderUnder(d, key, true);
    var x := w + [Name(key.last)];
    y := HeadedPath(CellAt(d, ROOT, x), x, true);
    HeaderLeads(d, key, true, w);
    NewElementUnder(d, key, w, k);
    forall j ensures CellAt(Header(d, key, true).value.doc, ROOT, y + [Name(j)]) == None {
      NewElementIsEmpty(d, key, w, j);
    }
  }

  lemma {:induction false} ChildOfFresh(d: Doc, key: Key, t: nat, y: seq<Slot>, k: string)
    requires Fresh(d, key, t, y, k)
    ensures var child := Key(key.parents + [key.last], k);
      Header(d, child, false).Some? && var e := Header(d, child, false).value; t in e.doc.nodes && e.doc.nodes[t] == Table(map[k := e.at])
  {
    var child := Key(key.parents + [key.last], k);
    HeaderIff(d, child, false, y);
    var e := Header(d, child, false).value;
    HeaderLeads(d, child, false, y);
    TableStays(d, e.doc, t);
    GrownPath(d, e.doc, ROOT, y);
    forall j | j != k ensures CellAt(e.doc, ROOT, y + [Name(j)]) == None {
      HeaderCell(d, child, false, y, y + [Name(j)]);
      assert (y + [Name(j)])[|y|] == Name(j);
    }
    OnlyKey(e.doc, ROOT, y, t, k, e.at);
  }

  /**
    After `[[key]]`, `[key.k]` is accepted for every `k`, and the table that `[[key]]` returned
    then has `k` as its only key, for the table that `[key.k]` returned.
   */
  lemma ChildOfNewElement(d: Doc, key: Key, k: string)
    requires Sane(d) && Header(d, key, true).Some?
    ensures var p, child := Header(d, key, true).value, Key(key.parents + [key.last], k);
      && Header(p.doc, child, false).Some?
      && var e := Header(p.doc, child, false).value;
      p.at in e.doc.nodes && e.doc.nodes[p.at] == Table(map[k := e.at])
  {
    var p := Header(d, key, true).value;
    var y := NewElement(d, key, k);
    ChildOfFresh(p.doc, key, p.at, y, k);
  }

  /** The last two tables of some array. */
  ghost predicate LastTwo(d: Doc, s: nat, t: nat) {
    exists a :: a in d.nodes && d.nodes[a].Array? && |d.nodes[a].elements| >= 2 &&
      d.nodes[a].elements[|d.nodes[a].elements| - 2..] == [s, t]
  }

  lemma {:induction false} TwoElements(d: Doc, x: seq<Slot>, n: nat, s: nat, t: nat)
    requires Leads(d, ROOT, x + [Index(n)], s) && Path(d, ROOT, x + [Index(n + 1)]) == Some(t)
    requires CellAt(d, ROOT, x) == Some(ArrayCell(n + 2, true))
    ensures LastTwo(d, s, t) && s != t
  {
    PathSnoc(d, ROOT, x, Index(n));
    PathSnoc(d, ROOT, x, Index(n + 1));
    var a := Path(d, ROOT, x).value;
    var es := d.nodes[a].elements;
    assert es[n..] == [s, t];
    assert Down(d, a, Index(n)) == Some(s) && Down(d, a, Index(n + 1)) == Some(t);
  }

  /** What two headers `[[key]]` leave behind. */
  lemma {:induction false} TwiceHeaded(d: Doc, key: Key) returns (x: seq<Slot>, n: nat)
    requires Sane(d) && Header(d, key, true).Some? && Header(Header(d, key, true).value.doc, key, true).Some?
    ensures var p := Header(d, key, true).value; var p2 := Header(p.doc, key, true).value;
      && Sane(p2.doc) && Leads(p2.doc, ROOT, x + [Index(n)], p.at) && Leads(p2.doc, ROOT, x + [Index(n + 1)], p2.at)
      && CellAt(p2.doc, ROOT, x) == Some(ArrayCell(n + 2, true))
      && (forall k :: Under(p2.doc, Key(key.parents + [key.last], k), x + [Index(n + 1)]))
      && (forall j :: CellAt(p2.doc, ROOT, x + [Index(n)] + [Name(j)]) == None)
  {
    var p := Header(d, key, true).value;
    var p2 := Header(p.doc, key, true).value;
    var w := HeaderUnder(d, key, true);
    x := w + [Name(key.last)];
    n := SizeOf(CellAt(d, ROOT, x));
    HeaderLeads(d, key, true, w);
    HeaderUnderAgain(d, key, true, w);
    HeaderCell(d, key, true, w, x);
    HeaderLeads(p.doc, key, true, w);
    HeaderCell(p.doc, key, true, w, x);
    GrownPath(p.doc, p2.doc, ROOT, x + [Index(n)]);
    forall k ensures Under(p2.doc, Key(key.parents + [key.last], k), x + [Index(n + 1)]) {
      NewElementUnder(p.doc, key, w, k);
    }
    forall j ensures CellAt(p2.doc, ROOT, x + [Index(n)] + [Name(j)]) == None {
      NewElementIsEmpty(d, key, w, j);
      HeaderCell(p.doc, key, true, w, x + [Index(n)] + [Name(j)]);
      assert |x + [Index(n)] + [Name(j)]| == |x| + 2 > |w|;
    }
  }

  /** A header below the second table of two leaves the first one as empty as it is. */
  lemma {:induction false} FirstStaysEmpty(d: Doc, x: seq<Slot>, n: nat, s: nat, child: Key)
    requires Leads(d, ROOT, x + [Index(n)], s) && IsTable(d, s) && Under(d, child, x + [Index(n + 1)]) && Header(d, child, false).Some?
    requires forall j :: CellAt(d, ROOT, x + [Index(n)] + [Name(j)]) == None
    ensures var e := Header(d, child, false).value.doc; s in e.nodes && e.nodes[s] == Table(map[])
  {
    var e, y := Header(d, child, false).value.doc, x + [Index(n)];
    HeaderLeads(d, child, false, x + [Index(n + 1)]);
    TableStays(d, e, s);
    GrownPath(d, e, ROOT, y);
    forall j ensures CellAt(e, ROOT, y + [Name(j)]) == None {
      HeaderCell(d, child, false, x + [Index(n + 1)], y + [Name(j)]);
      assert (y + [Name(j)])[|x|] == Index(n) && (x + [Index(n + 1)] + [Name(child.last)])[|x|] == Index(n + 1);
    }
    NoKeys(e, ROOT, y, s);
  }

  /**
    After `[[key]]` twice, `[key.k]` is accepted for every `k`: the second table of the two gets
    the key, the first one does not, and they are the last two of one array, in this order.
   */
  lemma {:induction false} ChildOfSecondElement(d: Doc, key: Key, k: string)
    requires Sane(d) && Header(d, key, true).Some? && Header(Header(d, key, true).value.doc, key, true).Some?
    ensures var p := Header(d, key, true).value; var p2 := Header(p.doc, key, true).value;
      && LastTwo(p2.doc, p.at, p2.at) && p.at != p2.at
      && var child := Key(key.parents + [key.last], k);
      && Header(p2.doc, child, false).Some?
      && var e := Header(p2.doc, child, false).value;
      && p.at in e.doc.nodes && e.doc.nodes[p.at] == Table(map[])
      && p2.at in e.doc.nodes && e.doc.nodes[p2.at] == Table(map[k := e.at])
  {
    var p := Header(d, key, true).value;
    var p2 := Header(p.doc, key, true).value;
    HeaderSane(d, key, true);
    ChildOfNewElement(p.doc, key, k);
    var x, n := TwiceHeaded(d, key);
    TwoElements(p2.doc, x, n, p.at, p2.at);
    TableStays(p.doc, p2.doc, p.at);
    FirstStaysEmpty(p2.doc, x, n, p.at, Key(key.parents + [key.last], k));
  }

  // ---------------------------------------------------------------------------
  // Parents that come first, and parents made by dotted keys

  /** A parent that a header implied, seen from the header of that parent. */
  lemma {:induction false} ImpliedUnder(d: Doc, path: seq<string>, m: string, last: string, isArr: bool, w: seq<Slot>)
    requires Under(d, Key(path, m), w) && Header(d, Key(path + [m], last), isArr).Some?
    requires CellAt(d, ROOT, w + [Name(m)]) == None
    ensures var e := Header(d, Key(path + [m], last), isArr).value.doc;
      && Under(d, Key(path + [m], last), w + [Name(m)])
      && Under(e, Key(path, m), w) && CellAt(e, ROOT, w + [Name(m)]) == Some(TableCell(Implied))
  {
    var key, x := Key(path + [m], last), w + [Name(m)];
    WaySnoc(ContentOf(d, ROOT), [], path, m, false);
    HeaderLeads(d, key, isArr, x);
    HeaderCell(d, key, isArr, x, x);
    assert |x| < |x + [Name(last)]|;
    var b, c := ContentOf(d, ROOT), ContentOf(Header(d, key, isArr).value.doc, ROOT);
    forall q | [] <= q <= w && q != [] ensures c(q) == WithParents(b, w, q) {
      HeaderCell(d, key, isArr, x, q);
      assert |q| < |x| && q <= x;
    }
    WayAgain(b, c, [], path, w);
  }

  /** The child of a table that was only implied until now. */
  lemma {:induction false} ImpliedChild(d: Doc, path: seq<string>, m: string, last: string, w: seq<Slot>, j: string)
    requires Under(d, Key(path + [m], last), w + [Name(m)]) && Header(d, Key(path + [m], last), false).Some?
    requires CellAt(d, ROOT, w + [Name(m)]) == None && j != last
    ensures CellAt(Header(d, Key(path + [m], last), false).value.doc, ROOT, w + [Name(m)] + [Name(j)]) == None
  {
    var x := w + [Name(m)];
    NothingBelow(d, ROOT, x, [Name(j)]);
    HeaderCell(d, Key(path + [m], last), false, x, x + [Name(j)]);
    assert (x + [Name(j)])[|x|] == Name(j);
  }

  lemma {:induction false} PromotedInPlace(d: Doc, key: Key, w: seq<Slot>)
    requires Under(d, key, w) && Header(d, key, false).Some? && CellAt(d, ROOT, w + [Name(key.last)]) == Some(TableCell(Implied))
    ensures Header(d, key, false).value.doc.nodes == d.nodes
  {
    SaneLeads(d);
    var v, u := HeaderWalk(d, key);
    ChildCell(v.doc, ROOT, w, v.at, key.last);
    TableLaws.WalkFollowsLook(d, ROOT, key.parents, key.last, false);
  }

  lemma {:induction false} PromotedHolds(d: Doc, e: Doc, x: seq<Slot>, t: nat, k: string, c: nat)
    requires Sane(d) && Leads(e, ROOT, x, t) && e.nodes == d.nodes && IsTable(d, t) && Path(d, ROOT, x + [Name(k)]) == Some(c)
    requires forall j :: j != k ==> CellAt(d, ROOT, x + [Name(j)]) == None
    ensures d.nodes[t] == Table(map[k := c])
  {
    assert SameLinks(e, d);
    SameLinksSamePaths(e, d, ROOT, x);
    OnlyKey(d, ROOT, x, t, k, c);
  }

  /** The header of an implied table: accepted as `[key]` only, and it changes no node. */
  lemma {:induction false} ImpliedIsHeaded(d: Doc, key: Key, w: seq<Slot>, k: string, c: nat)
    requires Under(d, key, w) && CellAt(d, ROOT, w + [Name(key.last)]) == Some(TableCell(Implied))
    requires Path(d, ROOT, w + [Name(key.last)] + [Name(k)]) == Some(c)
    requires forall j :: j != k ==> CellAt(d, ROOT, w + [Name(key.last)] + [Name(j)]) == None
    ensures Header(d, key, true) == None && Header(d, key, false).Some?
    ensures var e := Header(d, key, false).value;
      e.doc.nodes == d.nodes && e.at in d.nodes && d.nodes[e.at] == Table(map[k := c])
  {
    HeaderIff(d, key, false, w);
    HeaderIff(d, key, true, w);
    PromotedInPlace(d, key, w);
    HeaderLeads(d, key, false, w);
    var e := Header(d, key, false).value;
    PromotedHolds(d, e.doc, w + [Name(key.last)], e.at, k, c);
  }

  /** Nothing is at a place where both kinds of header would be accepted. */
  lemma NothingThere(d: Doc, key: Key) returns (w: seq<Slot>)
    requires Sane(d) && Header(d, key, false).Some? && Header(d, key, true).Some?
    ensures Under(d, key, w) && CellAt(d, ROOT, w + [Name(key.last)]) == None
  {
    w := HeaderUnder(d, key, false);
    HeaderIff(d, key, false, w);
    HeaderIff(d, key, true, w);
  }

  /**
    `[path.m.last]` where nothing was at `path.m`: afterwards `[path.m]` is accepted and
    `[[path.m]]` is not.  It returns the table that holds `last` and nothing else, and
    creates none.
   */
  lemma {:induction false} ParentAfterChild(d: Doc, path: seq<string>, m: string, last: string)
    requires Sane(d) && Header(d, Key(path + [m], last), false).Some?
    requires Header(d, Key(path, m), false).Some? && Header(d, Key(path, m), true).Some?
    ensures var p := Header(d, Key(path + [m], last), false).value;
      && Header(p.doc, Key(path, m), true) == None && Header(p.doc, Key(path, m), false).Some?
      && var e := Header(p.doc, Key(path, m), false).value;
      e.doc.nodes == p.doc.nodes && e.at in p.doc.nodes && p.doc.nodes[e.at] == Table(map[last := p.at])
  {
    var w := NothingThere(d, Key(path, m));
    ImpliedUnder(d, path, m, last, false, w);
    var p := Header(d, Key(path + [m], last), false).value;
    HeaderLeads(d, Key(path + [m], last), false, w + [Name(m)]);
    forall j | j != last ensures CellAt(p.doc, ROOT, w + [Name(m)] + [Name(j)]) == None {
      ImpliedChild(d, path, m, last, w, j);
    }
    ImpliedIsHeaded(p.doc, Key(path, m), w, last, p.at);
  }

  /** Where a pair is below the current table, the table's own path stays as it was. */
  lemma {:induction false} PairUnder(d: Doc, key: Key, w: seq<Slot>, t: nat, pair: Pair)
    requires Under(d, key, w) && Leads(d, ROOT, w, t) && IsTable(d, t) && Insert(d, t, pair).Some?
    ensures Under(Insert(d, t, pair).value, key, w)
  {
    var e := Insert(d, t, pair).value;
    InsertTree(d, t, pair);
    var b, c := ContentOf(d, ROOT), ContentOf(e, ROOT);
    forall q | [] <= q <= w && q != [] ensures c(q) == WithParents(b, w, q) {
      assert !(w + KeyPath(pair.key) <= q);
      InsertedElsewhere(d, ROOT, w, t, pair, q);
      OnExistingPath(d, w, q);
    }
    WayAgain(b, c, [], key.parents, w);
  }

  lemma {:induction false} OnExistingPath(d: Doc, w: seq<Slot>, q: seq<Slot>)
    requires Valid(d) && Path(d, ROOT, w).Some? && q <= w
    ensures CellAt(d, ROOT, q).Some?
  {
    assert w == q + w[|q|..];
    PathConcat(d, ROOT, q, w[|q|..]);
    PathStays(d, ROOT, q);
  }

  /** The table at the end of an accepted header, seen from the headers below it. */
  lemma {:induction false} BelowHeader(d: Doc, key: Key, k: string) returns (x: seq<Slot>)
    requires Sane(d) && Header(d, key, false).Some?
    ensures var p := Header(d, key, false).value;
      Leads(p.doc, ROOT, x, p.at) && Under(p.doc, Key(key.parents + [key.last], k), x)
  {
    var w := HeaderUnder(d, key, false);
    x := w + [Name(key.last)];
    HeaderLeads(d, key, false, w);
    HeaderUnderAgain(d, key, false, w);
    HeaderCell(d, key, false, w, x);
    WaySnoc(ContentOf(Header(d, key, false).value.doc, ROOT), [], key.parents, key.last, false);
  }

  lemma {:induction false} DottedCell(d: Doc, x: seq<Slot>, t: nat, k: string, last: string, value: Expr)
    requires Leads(d, ROOT, x, t) && IsTable(d, t) && Get(d, t, k) == None && Insert(d, t, Pair(Key([k], last), value)).Some?
    ensures CellAt(Insert(d, t, Pair(Key([k], last), value)).value, ROOT, x + [Name(k)]) == Some(TableCell(Dotted))
  {
    var pair, q := Pair(Key([k], last), value), x + [Name(k)];
    ChildCell(d, ROOT, x, t, k);
    OneStepShort(x, k, last);
    InsertedElsewhere(d, ROOT, x, t, pair, q);
  }

  lemma OneStepShort(x: seq<Slot>, k: string, last: string)
    ensures var q := x + [Name(k)]; !(x + KeyPath(Key([k], last)) <= q) && x <= q <= x + Names([k])
  {
    assert Names([k]) == [Name(k)];
    assert |x + KeyPath(Key([k], last))| == |x| + 2;
  }

  /** Below `[key]`, a dotted key `k.last` that is new: no header may define `key.k` any more. */
  lemma {:induction false} DottedTableIsNotHeaded(d: Doc, key: Key, k: string, last: string, value: Expr, isArr: bool)
    requires Sane(d) && Header(d, key, false).Some?
    requires var p := Header(d, key, false).value;
      Get(p.doc, p.at, k) == None && Insert(p.doc, p.at, Pair(Key([k], last), value)).Some?
    ensures var p := Header(d, key, false).value;
      Header(Insert(p.doc, p.at, Pair(Key([k], last), value)).value, Key(key.parents + [key.last], k), isArr) == None
  {
    var p, pair, below := Header(d, key, false).value, Pair(Key([k], last), value), Key(key.parents + [key.last], k);
    var x := BelowHeader(d, key, k);
    PairUnder(p.doc, below, x, p.at, pair);
    DottedCell(p.doc, x, p.at, k, last, value);
    HeaderIff(Insert(p.doc, p.at, pair).value, below, isArr, x);
  }

  lemma {:induction false} TakenDoesNotFit(c: Content, r: seq<Slot>, key: Key)
    requires c(r + KeyPath(key)).Some?
    ensures !Fits(c, r, key)
  {
    DottedWay(c, r, key.parents);
    WayThenLast(r, key);
  }

  lemma {:induction false} PairIsThere(d: Doc, r: seq<Slot>, t: nat, pair: Pair)
    requires Leads(d, ROOT, r, t) && IsTable(d, t) && Insert(d, t, pair).Some?
    ensures CellAt(Insert(d, t, pair).value, ROOT, r + KeyPath(pair.key)).Some?
  {
    InsertMeans(d, ROOT, r, t, pair);
    InsertedBelow(d, ROOT, r, t, pair, []);
    assert r + KeyPath(pair.key) + [] == r + KeyPath(pair.key);
  }

  /** A key is given a value once. */
  lemma {:induction false} PairOnce(d: Doc, r: seq<Slot>, t: nat, pair: Pair, other: Expr)
    requires Leads(d, ROOT, r, t) && IsTable(d, t) && Insert(d, t, pair).Some?
    ensures var e := Insert(d, t, pair).value; IsTable(e, t) && Insert(e, t, Pair(pair.key, other)) == None
  {
    var e := Insert(d, t, pair).value;
    TableStays(d, e, t);
    InsertTree(d, t, pair);
    GrownPath(d, e, ROOT, r);
    PairIsThere(d, r, t, pair);
    TakenDoesNotFit(ContentOf(e, ROOT), r, pair.key);
    InsertMeans(e, ROOT, r, t, Pair(pair.key, other));
  }
}
