/**
  Whole documents: the lines of a document one after the other, and the parser object
  that carries out their definitions in place.
 */
module TableRuns {
  import opened Basics
  import opened TableDefinition
  import opened TableLaws

  datatype Line = HeaderLine(key: Key, isArr: bool) | PairLine(pair: Pair)

  /** The document so far, the table that pairs go to, and the tables that headers returned. */
  datatype Progress = Progress(doc: Doc, current: nat, headed: seq<nat>)

  const EMPTY: Doc := Doc(map[ROOT := Table(map[])], 1, [], [], [])

  const START: Progress := Progress(EMPTY, ROOT, [])

  predicate Ready(s: Progress) {
    Valid(s.doc) && IsTable(s.doc, s.current)
  }

  lemma StartIsReady()
    ensures Ready(START)
  {
    assert Points(EMPTY.nodes, ROOT);
  }

  /** One line; `None` is the redefinition error that ends the parse. */
  function Step(s: Progress, line: Line): (r: Option<Progress>)
    requires Ready(s)
    ensures r.Some? ==> Ready(r.value) && Advance(s.doc, r.value.doc)
  {
    match line
    case HeaderLine(key, isArr) =>
      var h := Header(s.doc, key, isArr);
      if h.None? then None else Some(Progress(h.value.doc, h.value.at, s.headed + [h.value.at]))
    case PairLine(pair) =>
      var e := Insert(s.doc, s.current, pair);
      if e.None? then None else
      TableStays(s.doc, e.value, s.current);
      Some(Progress(e.value, s.current, s.headed))
  }

  /** No accepted run of lines removes or overwrites anything. */
  function Run(s: Progress, lines: seq<Line>): (r: Option<Progress>)
    requires Ready(s)
    ensures r.Some? ==> Ready(r.value) && Advance(s.doc, r.value.doc)
    decreases lines
  {
    if lines == [] then AdvanceReflexive(s.doc); Some(s) else
    var n := Step(s, lines[0]);
    if n.None? then None else
    var r := Run(n.value, lines[1..]);
    if r.None? then None else AdvanceTransitive(s.doc, n.value.doc, r.value.doc); r
  }

  /** A document from its first line. */
  function Document(lines: seq<Line>): Option<Progress> {
    StartIsReady();
    Run(START, lines)
  }

  // ---------------------------------------------------------------------------
  // Every table is headed at most once

  /** No table was returned by two headers, and none of them is implicit or made by a dotted key. */
  predicate HeadedOnce(s: Progress) {
    && Distinct(s.headed)
    && forall id :: id in s.headed ==> IsTable(s.doc, id) && id !in s.doc.implicit && id !in s.doc.dotted
  }

  lemma StepHeadsOnce(s: Progress, line: Line)
    requires Ready(s) && HeadedOnce(s) && Step(s, line).Some?
    ensures HeadedOnce(Step(s, line).value) && s.headed <= Step(s, line).value.headed
  {
    var r := Step(s, line).value;
    forall id | id in s.headed ensures IsTable(r.doc, id) && id !in r.doc.implicit && id !in r.doc.dotted && id < s.doc.next {
      TableStays(s.doc, r.doc, id);
    }
  }

  lemma {:induction false} RunHeadsOnce(s: Progress, lines: seq<Line>)
    requires Ready(s) && HeadedOnce(s) && Run(s, lines).Some?
    ensures HeadedOnce(Run(s, lines).value) && s.headed <= Run(s, lines).value.headed
    decreases lines
  {
    if lines != [] {
      StepHeadsOnce(s, lines[0]);
      RunHeadsOnce(Step(s, lines[0]).value, lines[1..]);
    }
  }

  lemma {:induction false} RunSplits(s: Progress, lines: seq<Line>, more: seq<Line>)
    requires Ready(s)
    ensures Run(s, lines + more).Some? <==> Run(s, lines).Some? && Run(Run(s, lines).value, more).Some?
    ensures Run(s, lines + more).Some? ==> Run(s, lines + more) == Run(Run(s, lines).value, more)
    decreases lines
  {
    if lines == [] {
      assert lines + more == more;
    } else {
      assert (lines + more)[1..] == lines[1..] + more;
      if Step(s, lines[0]).Some? { RunSplits(Step(s, lines[0]).value, lines[1..], more); }
    }
  }

  /**
    Wherever an accepted document is cut, the rest of it keeps every node, returns no table
    that a header returned before, promotes none of them again, and heads no dotted-key table.
   */
  lemma DocumentsDefineTablesOnce(lines: seq<Line>, more: seq<Line>)
    requires Document(lines + more).Some?
    ensures Document(lines).Some?
    ensures var s, r := Document(lines).value, Document(lines + more).value;
      && Advance(s.doc, r.doc) && s.headed <= r.headed && HeadedOnce(r)
      && (forall id :: id in s.headed ==> id !in r.doc.implicit && id !in r.headed[|s.headed|..])
      && (forall id :: id in s.doc.dotted ==> id !in r.headed)
  {
    StartIsReady();
    RunSplits(START, lines, more);
    var s, r := Document(lines).value, Document(lines + more).value;
    RunHeadsOnce(START, lines);
    RunHeadsOnce(s, more);
    forall id | id in s.headed ensures id !in r.headed[|s.headed|..] {
      var i :| 0 <= i < |s.headed| && s.headed[i] == id;
      assert r.headed[i] == id;
    }
  }

  /** A value stays at its key of its table until the end of the document. */
  lemma PairsStay(s: Progress, pair: Pair, rest: seq<Line>)
    requires Ready(s) && Run(s, [PairLine(pair)] + rest).Some?
    ensures var r := Run(s, [PairLine(pair)] + rest).value;
      && IsTable(r.doc, s.current) && Build(s.doc, pair.value).Some?
      && Look(r.doc, s.current, pair.key.parents, pair.key.last, true) == Found(Build(s.doc, pair.value).value.at)
  {
    var lines := [PairLine(pair)] + rest;
    assert lines[0] == PairLine(pair) && lines[1..] == rest;
    PairReaches(s.doc, s.current, pair, Run(s, lines).value.doc);
  }

  // ---------------------------------------------------------------------------
  // Inline tables can be extended

  /** A header extends a table, inline or not, exactly when its path first runs out there. */
  lemma HeaderExtendsIff(d: Doc, key: Key, isArr: bool, t: nat)
    requires Valid(d) && IsTable(d, t) && Header(d, key, isArr).Some?
    ensures Header(d, key, isArr).value.doc.nodes[t] != d.nodes[t] <==>
      Look(d, ROOT, key.parents, key.last, false) == Missing && Edge(d, ROOT, key.parents, false) == t
  {
    HeaderTouches(d, key, isArr);
  }

  /** `a = {}` and then `[a.b]`: accepted, although an inline table is meant to be complete. */
  lemma InlineTableIsExtended()
    ensures var first := PairLine(Pair(Key([], "a"), Inline([])));
      && Document([first]).Some? && Ready(START) && Build(EMPTY, Inline([])).Some?
      && var d, t := Document([first]).value.doc, Build(EMPTY, Inline([])).value.at;
      && IsTable(d, t) && Header(d, Key(["a"], "b"), false).Some?
      && Header(d, Key(["a"], "b"), false).value.doc.nodes[t] != d.nodes[t]
  {
    StartIsReady();
    var pair := Pair(Key([], "a"), Inline([]));
    assert Look(EMPTY, ROOT, [], "a", true) == Missing;
    PairAcceptedIff(EMPTY, ROOT, pair);
    var r := Step(START, PairLine(pair)).value;
    assert [PairLine(pair)][1..] == [];
    assert Run(r, []) == Some(r);
    assert IsTable(r.doc, 1) && Get(r.doc, ROOT, "a") == Some(1);
    assert ["a"][1..] == [];
    assert Look(r.doc, 1, [], "b", false) == Missing;
    assert Look(r.doc, ROOT, ["a"], "b", false) == Missing;
    HeaderAcceptedIff(r.doc, Key(["a"], "b"), false);
    HeaderExtendsIff(r.doc, Key(["a"], "b"), false, 1);
  }

  // ---------------------------------------------------------------------------
  // The parser

  lemma {:induction false} ErasedAt(s: seq<nat>, x: nat, k: nat)
    requires k < |s| && s[k] == x && x !in s[..k]
    ensures RemoveFirst(s, x) == s[..k] + s[k + 1..]
  {
    if k > 0 {
      assert s[0] in s[..k] && forall y :: y in s[1..][..k - 1] ==> y in s[..k];
      ErasedAt(s[1..], x, k - 1);
    }
  }

  lemma RunNext(s: Progress, lines: seq<Line>, i: nat)
    requires Ready(s) && i < |lines|
    ensures Run(s, lines[i..]) == match Step(s, lines[i]) case None => None case Some(n) => Run(n, lines[i + 1..])
  {
    assert lines[i..][0] == lines[i] && lines[i..][1..] == lines[i + 1..];
  }

  lemma DefineNewTable(d: Doc, t: nat, key: string)
    requires Valid(d) && IsTable(d, t) && Get(d, t, key) == None
    ensures Define(d, t, key, false) == Some(Place(NewChild(d, t, key, Table(map[])), d.next))
  {
  }

  lemma DefineNewArray(d: Doc, t: nat, key: string)
    requires Valid(d) && IsTable(d, t) && Get(d, t, key) == None
    ensures Define(d, t, key, true) == Some(Place(NewTableArray(d, t, key), d.next + 1))
  {
  }

  lemma DefineNew(d: Doc, t: nat, key: string, isArr: bool, p: Place)
    requires Valid(d) && IsTable(d, t) && Get(d, t, key) == None
    requires p == if isArr then Place(NewTableArray(d, t, key), d.next + 1) else Place(NewChild(d, t, key, Table(map[])), d.next)
    ensures Define(d, t, key, isArr) == Some(p)
  {
    if isArr {
      DefineNewArray(d, t, key);
    } else {
      DefineNewTable(d, t, key);
    }
  }

  class Parser {
    var nodes: map<nat, Node>
    var next: nat
    var implicitTables: seq<nat>
    var dottedKeyTables: seq<nat>
    var tableArrays: seq<nat>

    ghost function View(): Doc
      reads this
    {
      Doc(nodes, next, implicitTables, dottedKeyTables, tableArrays)
    }

    constructor ()
      ensures View() == EMPTY
    {
      nodes, next := map[ROOT := Table(map[])], 1;
      implicitTables, dottedKeyTables, tableArrays := [], [], [];
    }

    method New(node: Node) returns (id: nat)
      modifies this`nodes, this`next
      ensures id == old(next) && View() == Alloc(old(View()), node)
    {
      id := next;
      nodes := nodes[id := node];
      next := next + 1;
    }

    method EmplaceAt(t: nat, key: string, id: nat)
      requires IsTable(View(), t)
      modifies this`nodes
      ensures View() == Link(old(View()), t, key, id)
    {
      nodes := nodes[t := Table(nodes[t].entries[key := id])];
    }

    /** One parent that is missing. */
    method CreateParent(parent: nat, key: string, dotted: bool) returns (child: nat)
      requires Valid(View()) && IsTable(View(), parent)
      modifies this
      ensures child == old(next) && View() == NewParent(old(View()), parent, key, dotted)
    {
      child := New(Table(map[]));
      EmplaceAt(parent, key, child);
      if dotted {
        dottedKeyTables := dottedKeyTables + [child];
      } else {
        implicitTables := implicitTables + [child];
      }
    }

    method EnterOne(parent: nat, key: string, dotted: bool) returns (r: Option<nat>)
      requires Valid(View()) && IsTable(View(), parent)
      modifies this
      ensures r == None <==> Enter(old(View()), parent, key, dotted) == None
      ensures r.Some? ==> Enter(old(View()), parent, key, dotted) == Some(Place(View(), r.value))
    {
      if key !in nodes[parent].entries {
        var created := CreateParent(parent, key, dotted);
        return Some(created);
      }
      var child := nodes[parent].entries[key];
      assert Points(nodes, parent);
      if nodes[child].Table? && (!dotted || child in dottedKeyTables) {
        return Some(child);
      } else if !dotted && child in tableArrays {
        assert IsTableArray(View(), child);
        return Some(nodes[child].elements[|nodes[child].elements| - 1]);
      }
      return None;
    }

    /** The descent through the parents of a header, or of a dotted key. */
    method EnterParents(start: nat, path: seq<string>, dotted: bool) returns (r: Option<nat>)
      requires Valid(View()) && IsTable(View(), start)
      modifies this
      ensures r == None <==> Walk(old(View()), start, path, dotted) == None
      ensures r.Some? ==> Walk(old(View()), start, path, dotted) == Some(Place(View(), r.value))
    {
      var parent, i := start, 0;
      while i < |path|
        invariant 0 <= i <= |path| && Valid(View()) && IsTable(View(), parent)
        invariant Walk(old(View()), start, path, dotted) == Walk(View(), parent, path[i..], dotted)
      {
        assert path[i..][0] == path[i] && path[i..][1..] == path[i + 1..];
        var child := EnterOne(parent, path[i], dotted);
        if child == None { return None; }
        parent := child.value;
        i := i + 1;
      }
      return Some(parent);
    }

    method EraseImplicit(table: nat)
      requires table in implicitTables
      modifies this`implicitTables
      ensures View() == old(View()).(implicit := RemoveFirst(old(View()).implicit, table))
    {
      var k := 0;
      while implicitTables[k] != table
        invariant k < |implicitTables| && table !in implicitTables[..k]
        decreases |implicitTables| - k
      {
        k := k + 1;
      }
      ErasedAt(implicitTables, table, k);
      implicitTables := implicitTables[..k] + implicitTables[k + 1..];
    }

    method ParseTableHeader(key: Key, isArr: bool) returns (r: Option<nat>)
      requires Valid(View())
      modifies this
      ensures r == None <==> Header(old(View()), key, isArr) == None
      ensures r.Some? ==> Header(old(View()), key, isArr) == Some(Place(View(), r.value))
    {
      var parent := EnterParents(ROOT, key.parents, false);
      if parent == None { return None; }
      r := DefineLast(parent.value, key.last, isArr);
    }

    method CreateTableArray(parent: nat, key: string) returns (first: nat)
      requires Valid(View()) && IsTable(View(), parent) && key !in nodes[parent].entries
      modifies this
      ensures first == old(next) + 1 && View() == NewTableArray(old(View()), parent, key)
    {
      var arr := New(Array([]));
      EmplaceAt(parent, key, arr);
      tableArrays := tableArrays + [arr];
      first := New(Table(map[]));
      nodes := nodes[arr := Array(nodes[arr].elements + [first])];
    }

    method CreateTable(parent: nat, key: string) returns (tab: nat)
      requires Valid(View()) && IsTable(View(), parent)
      modifies this
      ensures tab == old(next) && View() == NewChild(old(View()), parent, key, Table(map[]))
    {
      tab := New(Table(map[]));
      EmplaceAt(parent, key, tab);
    }

    method RedefineNode(matching: nat, isArr: bool) returns (r: Option<nat>)
      requires Valid(View())
      modifies this
      ensures r == None <==> Redefine(old(View()), matching, isArr) == None
      ensures r.Some? ==> Redefine(old(View()), matching, isArr) == Some(Place(View(), r.value))
    {
      if isArr && matching in tableArrays {
        assert IsTableArray(View(), matching);
        var tab := New(Table(map[]));
        nodes := nodes[matching := Array(nodes[matching].elements + [tab])];
        return Some(tab);
      } else if !isArr && matching in implicitTables {
        EraseImplicit(matching);
        return Some(matching);
      }
      return None;
    }

    method CreateNode(parent: nat, key: string, isArr: bool) returns (table: nat)
      requires Valid(View()) && IsTable(View(), parent) && Get(View(), parent, key) == None
      modifies this
      ensures Define(old(View()), parent, key, isArr) == Some(Place(View(), table))
    {
      ghost var before := View();
      if isArr {
        table := CreateTableArray(parent, key);
      } else {
        table := CreateTable(parent, key);
      }
      DefineNew(before, parent, key, isArr, Place(View(), table));
    }

    method DefineLast(parent: nat, key: string, isArr: bool) returns (r: Option<nat>)
      requires Valid(View()) && IsTable(View(), parent)
      modifies this
      ensures r == None <==> Define(old(View()), parent, key, isArr) == None
      ensures r.Some? ==> Define(old(View()), parent, key, isArr) == Some(Place(View(), r.value))
    {
      if key in nodes[parent].entries {
        r := RedefineNode(nodes[parent].entries[key], isArr);
      } else {
        var table := CreateNode(parent, key, isArr);
        r := Some(table);
      }
    }

    method ParseValue(x: Expr) returns (r: Option<nat>)
      requires Valid(View())
      modifies this
      ensures r == None <==> Build(old(View()), x) == None
      ensures r.Some? ==> Build(old(View()), x) == Some(Place(View(), r.value))
      decreases x, 0
    {
      match x
      case Scalar(k) =>
        var id := New(Value(k));
        return Some(id);
      case Items(xs) =>
        r := ParseArray(xs);
      case Inline(ps) =>
        r := ParseInlineTable(ps);
    }

    method ParseArray(xs: seq<Expr>) returns (r: Option<nat>)
      requires Valid(View())
      modifies this
      ensures r == None <==> BuildArray(old(View()), xs) == None
      ensures r.Some? ==> BuildArray(old(View()), xs) == Some(Place(View(), r.value))
      decreases xs, 0
    {
      var ids: seq<nat>, i := [], 0;
      while i < |xs|
        invariant 0 <= i <= |xs| && Valid(View()) && Closed(View(), Array(ids))
        invariant BuildAll(old(View()), xs, []) == BuildAll(View(), xs[i..], ids)
      {
        assert xs[i..][0] == xs[i] && xs[i..][1..] == xs[i + 1..];
        var v := ParseValue(xs[i]);
        if v == None { return None; }
        ids := ids + [v.value];
        i := i + 1;
      }
      var id := New(Array(ids));
      return Some(id);
    }

    method ParseInlineTable(ps: seq<Pair>) returns (r: Option<nat>)
      requires Valid(View())
      modifies this
      ensures r == None <==> Build(old(View()), Inline(ps)) == None
      ensures r.Some? ==> Build(old(View()), Inline(ps)) == Some(Place(View(), r.value))
      decreases ps, 0
    {
      AllocAdvances(View(), Table(map[]));
      var tab := New(Table(map[]));
      ghost var begun := View();
      var i := 0;
      while i < |ps|
        invariant 0 <= i <= |ps| && Valid(View()) && IsTable(View(), tab)
        invariant InsertAll(begun, tab, ps) == InsertAll(View(), tab, ps[i..])
      {
        ghost var before := View();
        assert ps[i..][0] == ps[i] && ps[i..][1..] == ps[i + 1..];
        var ok := ParseKeyValuePairAndInsert(tab, ps[i]);
        if !ok { return None; }
        TableStays(before, View(), tab);
        i := i + 1;
      }
      return Some(tab);
    }

    method ParseKeyValuePairAndInsert(tab: nat, pair: Pair) returns (ok: bool)
      requires Valid(View()) && IsTable(View(), tab)
      modifies this
      ensures ok <==> Insert(old(View()), tab, pair).Some?
      ensures ok ==> Insert(old(View()), tab, pair) == Some(View())
      decreases pair, 1
    {
      var v := ParseValue(pair.value);
      if v == None { return false; }
      TableStays(old(View()), View(), tab);
      var t := EnterParents(tab, pair.key.parents, true);
      if t == None { return false; }
      if pair.key.last in nodes[t.value].entries { return false; }
      EmplaceAt(t.value, pair.key.last, v.value);
      ok := true;
    }

    /** One line; the result is the current table and the tables that headers returned so far. */
    method ParseLine(line: Line, current: nat, headed: seq<nat>) returns (r: Option<(nat, seq<nat>)>)
      requires Ready(Progress(View(), current, headed))
      modifies this
      ensures r == None <==> Step(Progress(old(View()), current, headed), line) == None
      ensures r.Some? ==> Step(Progress(old(View()), current, headed), line) == Some(Progress(View(), r.value.0, r.value.1))
    {
      match line
      case HeaderLine(key, isArr) =>
        var t := ParseTableHeader(key, isArr);
        return if t == None then None else Some((t.value, headed + [t.value]));
      case PairLine(pair) =>
        var inserted := ParseKeyValuePairAndInsert(current, pair);
        return if inserted then Some((current, headed)) else None;
    }

    /** The whole document; `headed` lists the tables that headers returned. */
    method ParseDocument(lines: seq<Line>) returns (ok: bool, headed: seq<nat>)
      requires View() == EMPTY
      modifies this
      ensures ok <==> Document(lines).Some?
      ensures ok ==> View() == Document(lines).value.doc && headed == Document(lines).value.headed
    {
      StartIsReady();
      var current, i := ROOT, 0;
      headed := [];
      while i < |lines|
        invariant 0 <= i <= |lines| && Ready(Progress(View(), current, headed))
        invariant Document(lines) == Run(Progress(View(), current, headed), lines[i..])
      {
        RunNext(Progress(View(), current, headed), lines, i);
        var next := ParseLine(lines[i], current, headed);
        if next == None { return false, headed; }
        current, headed := next.value.0, next.value.1;
        i := i + 1;
      }
      ok := true;
    }
  }
}
