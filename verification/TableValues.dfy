/**
  Values are closed to later key/value pairs: whatever tables a value brings with it, inline
  tables and the dotted-key tables inside them, only headers can add to them.
 */
module TableValues {
  import opened Basics
  import opened TableDefinition
  import opened TableLaws
  import opened TableRuns

  // ---------------------------------------------------------------------------
  // Nodes that dotted keys cannot get into

  /** A node of `vs` that was not made by a dotted key, or a node outside. */
  predicate NoWayIn(d: Doc, c: nat, vs: set<nat>) {
    c in vs ==> c !in d.dotted
  }

  predicate KeepsOut(d: Doc, t: nat, vs: set<nat>)
    requires t in d.nodes
  {
    d.nodes[t].Table? ==> forall k :: k in d.nodes[t].entries ==> NoWayIn(d, d.nodes[t].entries[k], vs)
  }

  /** No table outside `vs` has a dotted-key table of `vs` in it, and none of `vs` is implicit. */
  predicate Sealed(d: Doc, vs: set<nat>) {
    && (forall id :: id in vs ==> id in d.nodes && id !in d.implicit)
    && (forall t :: t in d.nodes && t !in vs ==> KeepsOut(d, t, vs))
  }

  predicate Same(d: Doc, e: Doc, vs: set<nat>) {
    forall id :: id in vs ==> id in d.nodes && id in e.nodes && e.nodes[id] == d.nodes[id]
  }

  lemma SameTransitive(a: Doc, b: Doc, c: Doc, vs: set<nat>)
    requires Same(a, b, vs) && Same(b, c, vs)
    ensures Same(a, c, vs)
  {
  }

  lemma NewChildSealed(d: Doc, t: nat, key: string, node: Node, vs: set<nat>)
    requires Valid(d) && IsTable(d, t) && key !in d.nodes[t].entries && Closed(d, node) && Sealed(d, vs)
    requires node == Table(map[]) || node == Array([])
    ensures Sealed(NewChild(d, t, key, node), vs) && (t !in vs ==> Same(d, NewChild(d, t, key, node), vs))
  {
    var e := NewChild(d, t, key, node);
    forall u | u in e.nodes && u !in vs ensures KeepsOut(e, u, vs) {
      if u != d.next {
        assert KeepsOut(d, u, vs);
      }
    }
  }

  /** A new node may be recorded in any of the lists. */
  lemma MarkSealed(e: Doc, f: Doc, id: nat, vs: set<nat>)
    requires Sealed(e, vs) && id !in vs && f.nodes == e.nodes
    requires forall x :: x in f.implicit ==> x in e.implicit || x == id
    requires forall x :: x in f.dotted ==> x in e.dotted || x == id
    ensures Sealed(f, vs)
  {
    forall u | u in f.nodes && u !in vs ensures KeepsOut(f, u, vs) {
      assert KeepsOut(e, u, vs);
    }
  }

  lemma EnterSealed(d: Doc, t: nat, key: string, dotted: bool, vs: set<nat>)
    requires Valid(d) && IsTable(d, t) && Sealed(d, vs) && Enter(d, t, key, dotted).Some?
    ensures var p := Enter(d, t, key, dotted).value;
      Sealed(p.doc, vs) && (dotted && t !in vs ==> p.at !in vs && Same(d, p.doc, vs))
  {
    if Get(d, t, key) == None {
      NewChildSealed(d, t, key, Table(map[]), vs);
      MarkSealed(NewChild(d, t, key, Table(map[])), NewParent(d, t, key, dotted), d.next, vs);
    } else if t !in vs {
      assert KeepsOut(d, t, vs);
    }
  }

  lemma {:induction false} WalkSealed(d: Doc, t: nat, path: seq<string>, dotted: bool, vs: set<nat>)
    requires Valid(d) && IsTable(d, t) && Sealed(d, vs) && Walk(d, t, path, dotted).Some?
    ensures var p := Walk(d, t, path, dotted).value;
      Sealed(p.doc, vs) && (dotted && t !in vs ==> p.at !in vs && Same(d, p.doc, vs))
    decreases path
  {
    if path != [] {
      var q := Enter(d, t, path[0], dotted).value;
      EnterSealed(d, t, path[0], dotted, vs);
      WalkSealed(q.doc, q.at, path[1..], dotted, vs);
      if dotted && t !in vs {
        SameTransitive(d, q.doc, Walk(d, t, path, dotted).value.doc, vs);
      }
    }
  }

  // ---------------------------------------------------------------------------
  // Headers

  lemma AppendSealed(d: Doc, a: nat, vs: set<nat>)
    requires Valid(d) && a in d.nodes && d.nodes[a].Array? && Sealed(d, vs)
    ensures Sealed(Append(d, a), vs)
  {
    var e := Append(d, a);
    forall u | u in e.nodes && u !in vs ensures KeepsOut(e, u, vs) {
      if u in d.nodes {
        assert KeepsOut(d, u, vs);
      }
    }
  }

  lemma DefineSealed(d: Doc, t: nat, key: string, isArr: bool, vs: set<nat>)
    requires Valid(d) && IsTable(d, t) && Sealed(d, vs) && Define(d, t, key, isArr).Some?
    ensures Sealed(Define(d, t, key, isArr).value.doc, vs)
  {
    var e := Define(d, t, key, isArr).value.doc;
    if Get(d, t, key) == None {
      if isArr {
        NewChildAdvances(d, t, key, Array([]));
        NewChildSealed(d, t, key, Array([]), vs);
        var c := NewChild(d, t, key, Array([]));
        AppendSealed(c, d.next, vs);
        MarkSealed(Append(c, d.next), e, d.next, vs);
      } else {
        NewChildSealed(d, t, key, Table(map[]), vs);
      }
    } else {
      RedefineSealed(d, Get(d, t, key).value, isArr, vs);
    }
  }

  lemma RedefineSealed(d: Doc, c: nat, isArr: bool, vs: set<nat>)
    requires Valid(d) && Sealed(d, vs) && Redefine(d, c, isArr).Some?
    ensures Sealed(Redefine(d, c, isArr).value.doc, vs)
  {
    if isArr {
      AppendSealed(d, c, vs);
    } else {
      RemovedOnce(d.implicit, c);
      MarkSealed(d, Redefine(d, c, isArr).value.doc, d.next, vs);
    }
  }

  /** A header gets into values as it likes, but never makes one of their tables the current one. */
  lemma HeaderSealed(d: Doc, key: Key, isArr: bool, vs: set<nat>)
    requires Valid(d) && Sealed(d, vs) && Header(d, key, isArr).Some?
    ensures Sealed(Header(d, key, isArr).value.doc, vs) && Header(d, key, isArr).value.at !in vs
  {
    WalkSealed(d, ROOT, key.parents, false, vs);
    var p := Walk(d, ROOT, key.parents, false).value;
    DefineSealed(p.doc, p.at, key.last, isArr, vs);
  }

  // ---------------------------------------------------------------------------
  // Pairs

  /** The nodes that parsing a value has made. */
  function MadeBy(d: Doc, x: Expr): set<nat>
    requires Valid(d)
  {
    var v := Build(d, x);
    if v.None? then {} else set id | id in v.value.doc.nodes && id !in d.nodes
  }

  lemma BuildSealed(d: Doc, x: Expr, vs: set<nat>)
    requires Valid(d) && Sealed(d, vs) && Build(d, x).Some?
    ensures Build(d, x).value.at in MadeBy(d, x)
    ensures Sealed(Build(d, x).value.doc, vs + MadeBy(d, x)) && Same(d, Build(d, x).value.doc, vs)
  {
    var e, all := Build(d, x).value.doc, vs + MadeBy(d, x);
    BuildTouchesNothing(d, x);
    forall u | u in e.nodes && u !in all ensures KeepsOut(e, u, all) {
      assert KeepsOut(d, u, vs) && Points(d.nodes, u);
    }
  }

  lemma LinkSealed(d: Doc, t: nat, key: string, id: nat, vs: set<nat>)
    requires IsTable(d, t) && Sealed(d, vs) && t !in vs && id !in d.dotted
    ensures Sealed(Link(d, t, key, id), vs) && Same(d, Link(d, t, key, id), vs)
  {
    var e := Link(d, t, key, id);
    forall u | u in e.nodes && u !in vs ensures KeepsOut(e, u, vs) {
      assert KeepsOut(d, u, vs);
    }
  }

  lemma InsertSealed(d: Doc, t: nat, pair: Pair, vs: set<nat>)
    requires Valid(d) && IsTable(d, t) && Sealed(d, vs) && t !in vs && Insert(d, t, pair).Some?
    ensures Sealed(Insert(d, t, pair).value, vs + MadeBy(d, pair.value)) && Same(d, Insert(d, t, pair).value, vs)
  {
    var v, all := Build(d, pair.value).value, vs + MadeBy(d, pair.value);
    BuildSealed(d, pair.value, vs);
    TableStays(d, v.doc, t);
    WalkSealed(v.doc, t, pair.key.parents, true, all);
    var p := Walk(v.doc, t, pair.key.parents, true).value;
    LinkSealed(p.doc, p.at, pair.key.last, v.at, all);
    SameTransitive(v.doc, p.doc, Insert(d, t, pair).value, all);
    SameTransitive(d, v.doc, Insert(d, t, pair).value, vs);
  }

  // ---------------------------------------------------------------------------
  // Whole runs

  /** The current table is not part of a value, and none of its dotted keys leads into one. */
  predicate Apart(s: Progress, vs: set<nat>) {
    Sealed(s.doc, vs) && s.current !in vs
  }

  function MadeByLine(s: Progress, line: Line): set<nat>
    requires Ready(s)
  {
    if line.PairLine? then MadeBy(s.doc, line.pair.value) else {}
  }

  /** The nodes that the values of a run have made. */
  function MadeByValues(s: Progress, lines: seq<Line>): set<nat>
    requires Ready(s)
    decreases lines
  {
    if lines == [] || Step(s, lines[0]).None? then {}
    else MadeByLine(s, lines[0]) + MadeByValues(Step(s, lines[0]).value, lines[1..])
  }

  lemma StepApart(s: Progress, line: Line, vs: set<nat>)
    requires Ready(s) && Apart(s, vs) && Step(s, line).Some?
    ensures Apart(Step(s, line).value, vs + MadeByLine(s, line))
    ensures line.PairLine? ==> Same(s.doc, Step(s, line).value.doc, vs)
  {
    match line
    case HeaderLine(key, isArr) =>
      HeaderSealed(s.doc, key, isArr, vs);
      assert vs + {} == vs;
    case PairLine(pair) =>
      InsertSealed(s.doc, s.current, pair, vs);
  }

  lemma {:induction false} RunApart(s: Progress, lines: seq<Line>, vs: set<nat>)
    requires Ready(s) && Apart(s, vs) && Run(s, lines).Some?
    ensures Apart(Run(s, lines).value, vs + MadeByValues(s, lines))
    decreases lines
  {
    if lines == [] {
      assert vs + {} == vs;
    } else {
      StepApart(s, lines[0], vs);
      var here, later := MadeByLine(s, lines[0]), MadeByValues(Step(s, lines[0]).value, lines[1..]);
      RunApart(Step(s, lines[0]).value, lines[1..], vs + here);
      assert vs + here + later == vs + (here + later);
    }
  }

  /** The nodes that the values of a document have made. */
  function ValuesOf(lines: seq<Line>): set<nat> {
    StartIsReady();
    MadeByValues(START, lines)
  }

  lemma DocumentApart(lines: seq<Line>)
    requires Document(lines).Some?
    ensures Apart(Document(lines).value, ValuesOf(lines))
  {
    StartIsReady();
    assert Apart(START, {});
    RunApart(START, lines, {});
    assert {} + ValuesOf(lines) == ValuesOf(lines);
  }

  /**
    In every document, no pair changes a node that an earlier value made: pairs add no key to an
    inline table, to a table inside one, or to a table in an array.  Only headers do.
   */
  lemma PairsLeaveValuesAlone(lines: seq<Line>, pair: Pair, id: nat)
    requires Document(lines).Some? && Step(Document(lines).value, PairLine(pair)).Some? && id in ValuesOf(lines)
    ensures var s := Document(lines).value;
      && id in s.doc.nodes && id in Step(s, PairLine(pair)).value.doc.nodes
      && Step(s, PairLine(pair)).value.doc.nodes[id] == s.doc.nodes[id]
  {
    DocumentApart(lines);
    StepApart(Document(lines).value, PairLine(pair), ValuesOf(lines));
  }
}
