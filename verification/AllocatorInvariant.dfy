/**
  The global invariant of the allocator: with one setup message per client,
  ownership is a bijection, every waiting session is queued once, and no free
  board ever fits a waiting session.
 */
module AllocatorInvariant {
  import opened Basics
  import opened Allocator

  // ---------------------------------------------------------------------------
  // The wait queue as a list

  lemma {:induction false} RemoveAbsent(q: seq<nat>, x: nat)
    requires x !in q
    ensures Remove(q, x) == q
  {
    if q != [] {
      RemoveAbsent(q[1..], x);
    }
  }

  lemma {:induction false} RemoveAt(q: seq<nat>, i: nat)
    requires NoDuplicates(q) && i < |q|
    ensures Remove(q, q[i]) == q[..i] + q[i + 1..]
  {
    if i == 0 {
      RemoveAbsent(q[1..], q[0]);
    } else {
      var rest := q[1..];
      RemoveAt(rest, i - 1);
      assert rest[i - 1] == q[i] && q[0] != q[i];
      WithoutOne(q, i);
    }
  }

  lemma WithoutOne(q: seq<nat>, i: nat)
    requires 0 < i < |q|
    ensures [q[0]] + (q[1..][..i - 1] + q[1..][i..]) == q[..i] + q[i + 1..]
  {
  }

  lemma RemoveKeepsNoDuplicates(q: seq<nat>, x: nat)
    requires NoDuplicates(q)
    ensures NoDuplicates(Remove(q, x))
  {
    if x in q {
      var i :| 0 <= i < |q| && q[i] == x;
      RemoveAt(q, i);
    } else {
      RemoveAbsent(q, x);
    }
  }

  // ---------------------------------------------------------------------------
  // One operation at a time

  /** The only board that may be idle while a waiting session could use it is `b`. */
  predicate IdleOnlyAt(s: State, b: int)
    requires forall sid :: sid in s.queue ==> sid in s.sessions
  {
    forall sid, c :: sid in s.queue && 0 <= c < |s.boards| && c != b ==> !Eligible(s.boards[c], User(s.sessions[sid]))
  }

  /** A session neither queued nor holding anything, about to be given a board. */
  predicate Unattached(s: State, sid: nat)
    requires sid in s.sessions
  {
    var x := s.sessions[sid];
    x.board.None? && x.child.NoChild? && x.listening && sid !in s.queue
  }

  /** All of `Settled` except that `sid`, which is unattached, may claim to wait. */
  predicate SettledBut(s: State, sid: nat)
    requires sid in s.sessions
  {
    && WellFormed(s)
    && (forall b :: 0 <= b < |s.boards| ==> OwnerHolds(s, b))
    && (forall x :: x in s.sessions && x != sid ==> Consistent(s, x))
    && NoDuplicates(s.queue)
    && Unattached(s, sid)
  }

  lemma GiveSettles(s: State, sid: nat, b: nat)
    requires sid in s.sessions && SettledBut(s, sid) && b < |s.boards| && s.boards[b].owner.None?
    ensures Settled(Give(s, sid, b))
  {
    var s' := Give(s, sid, b);
    GiveKeepsWellFormed(s, sid, b);
    forall x | x in s'.sessions ensures Consistent(s', x) {
      if x != sid { assert Consistent(s, x) && HolderOwns(s, x); }
    }
    forall c | 0 <= c < |s'.boards| ensures OwnerHolds(s', c) {
      assert OwnerHolds(s, c);
    }
  }

  /** Nothing is assumed of `sid` itself, which is about to leave. */
  predicate SettledAround(s: State, sid: nat)
    requires sid in s.sessions
  {
    && WellFormed(s)
    && (forall b :: 0 <= b < |s.boards| ==> OwnerHolds(s, b))
    && (forall x :: x in s.sessions && x != sid ==> Consistent(s, x))
    && NoDuplicates(Remove(s.queue, sid))
    && (forall x, b :: x in s.queue && x != sid && 0 <= b < |s.boards| ==>
          !Eligible(s.boards[b], User(s.sessions[x])))
  }

  function Leaving(s: State, sid: nat): State
    requires sid in s.sessions && HolderOwns(s, sid)
  {
    Destroy(s.(queue := Remove(s.queue, sid)), sid)
  }

  function Freed(x: Session): int {
    if x.board.Some? then x.board.value else -1
  }

  lemma LeavingSettles(s: State, sid: nat)
    requires sid in s.sessions && SettledAround(s, sid)
    ensures HolderOwns(s, sid) && Settled(Leaving(s, sid))
  {
    var s0 := s.(queue := Remove(s.queue, sid));
    assert HolderOwns(s, sid);
    var s1 := Leaving(s, sid);
    assert forall x :: x in s0.sessions ==> HolderOwns(s, x) ==> HolderOwns(s0, x);
    DestroyKeepsWellFormed(s0, sid);
    forall x | x in s1.sessions ensures Consistent(s1, x) {
      assert Consistent(s, x) && HolderOwns(s, x);
    }
    forall c | 0 <= c < |s1.boards| ensures OwnerHolds(s1, c) {
      assert OwnerHolds(s, c);
    }
  }

  lemma LeavingFreesOne(s: State, sid: nat)
    requires sid in s.sessions && SettledAround(s, sid) && HolderOwns(s, sid)
    requires Settled(Leaving(s, sid))
    ensures IdleOnlyAt(Leaving(s, sid), Freed(s.sessions[sid]))
  {
    var s1 := Leaving(s, sid);
    forall x, c | x in s1.queue && 0 <= c < |s1.boards| && c != Freed(s.sessions[sid])
      ensures !Eligible(s1.boards[c], User(s1.sessions[x]))
    {
      assert s1.boards[c] == s.boards[c] && s1.sessions[x] == s.sessions[x];
    }
  }

  /** Serving one session is enough when at most one board is idle. */
  lemma ServeOneLeavesNoneIdle(s: State, b: int)
    requires Settled(s) && IdleOnlyAt(s, b)
    ensures Invariant(ServeOne(s))
    ensures var i := FirstServable(s, 0);
            i < |s.queue| ==> 0 <= b < |s.boards| && ServeOne(s) == Give(s.(queue := Remove(s.queue, s.queue[i])), s.queue[i], b)
  {
    var i := FirstServable(s, 0);
    if i == |s.queue| {
      forall sid, c | sid in s.queue && 0 <= c < |s.boards| ensures !Eligible(s.boards[c], User(s.sessions[sid])) {
        var j :| 0 <= j < |s.queue| && s.queue[j] == sid;
      }
    } else {
      var sid := s.queue[i];
      assert Consistent(s, sid);
      var found := FindAvailable(s.boards, User(s.sessions[sid])).value;
      assert found == b;
      var s1 := s.(queue := Remove(s.queue, sid));
      RemoveKeepsNoDuplicates(s.queue, sid);
      assert forall x :: x in s1.sessions ==> HolderOwns(s, x) ==> HolderOwns(s1, x);
      forall c | 0 <= c < |s.boards| ensures OwnerHolds(s1, c) {
        assert OwnerHolds(s, c);
      }
      forall x | x in s1.sessions && x != sid ensures Consistent(s1, x) {
        assert Consistent(s, x);
      }
      GiveSettles(s1, sid, found);
    }
  }

  lemma DaemonCloseKeepsInvariant(s: State, sid: nat)
    requires sid in s.sessions && SettledAround(s, sid)
    ensures Invariant(DaemonClose(s, sid))
  {
    LeavingSettles(s, sid);
    LeavingFreesOne(s, sid);
    ServeOneLeavesNoneIdle(Leaving(s, sid), Freed(s.sessions[sid]));
  }

  lemma SessionCloseKeepsInvariant(s: State, sid: nat)
    requires sid in s.sessions && SettledAround(s, sid)
    requires s.sessions[sid].status.HasBoard? ==> !s.sessions[sid].child.CloseChild? && sid !in s.queue
    ensures Invariant(SessionClose(s, sid))
  {
    var x := s.sessions[sid];
    assert HolderOwns(s, sid);
    if x.status.HasBoard? && (!x.child.NoChild? || s.boards[x.board.value].closeCommand != "") {
      var s' := SessionClose(s, sid);
      RemoveAbsent(s.queue, sid);
      forall y | y in s'.sessions ensures HolderOwns(s', y) && Consistent(s', y) {
        assert HolderOwns(s, y) && (y != sid ==> Consistent(s, y));
      }
      forall b | 0 <= b < |s'.boards| ensures OwnerHolds(s', b) {
        assert OwnerHolds(s, b);
      }
    } else {
      DaemonCloseKeepsInvariant(s, sid);
    }
  }

  /** Changing a session's own fields, but not its board, disturbs nobody else. */
  lemma UpdateSettlesAround(s: State, sid: nat, x: Session, log: seq<Action>)
    requires Invariant(s) && sid in s.sessions && x.board == s.sessions[sid].board
    requires x.proxies > 0 || x.status.HasBoard? || x.status.ClosingBoard? ==> x.board.Some?
    ensures SettledAround(s.(sessions := s.sessions[sid := x], log := log), sid)
  {
    var s' := s.(sessions := s.sessions[sid := x], log := log);
    UpdateKeepsWellFormed(s, sid, x, log);
    RemoveKeepsNoDuplicates(s.queue, sid);
    forall y | y in s'.sessions && y != sid ensures Consistent(s', y) {
      assert Consistent(s, y);
    }
    forall b | 0 <= b < |s'.boards| ensures OwnerHolds(s', b) {
      assert OwnerHolds(s, b);
    }
  }

  /** A session that only now asks for a board gets one or joins the queue. */
  lemma AssignKeepsInvariant(s: State, sid: nat)
    requires sid in s.sessions && SettledBut(s, sid) && NoIdleBoard(s)
    requires s.sessions[sid].status.AwaitingBoard?
    ensures Invariant(Assign(s, sid))
  {
    var found := FindAvailable(s.boards, User(s.sessions[sid]));
    var s' := Assign(s, sid);
    if found.Some? {
      GiveSettles(s, sid, found.value);
    } else {
      forall y | y in s'.sessions ensures HolderOwns(s', y) && Consistent(s', y) {
        assert HolderOwns(s, y) && (y != sid ==> Consistent(s, y));
      }
      forall b | 0 <= b < |s'.boards| ensures OwnerHolds(s', b) {
        assert OwnerHolds(s, b);
      }
    }
  }

  lemma AroundIsButWhenUnattached(s: State, sid: nat)
    requires sid in s.sessions && SettledAround(s, sid) && Unattached(s, sid)
    ensures SettledBut(s, sid) && NoIdleBoard(s)
  {
    RemoveAbsent(s.queue, sid);
  }

  lemma InvariantSettlesAround(s: State, sid: nat)
    requires Invariant(s) && sid in s.sessions
    ensures SettledAround(s, sid)
  {
    RemoveKeepsNoDuplicates(s.queue, sid);
  }

  /** A first setup message. */
  lemma FirstSetupKeepsInvariant(s: State, sid: nat, cmd: Command, name: string, ppid: int, noWait: bool)
    requires Invariant(s) && sid in s.sessions && s.sessions[sid].status.Created?
    ensures Invariant(OnSetup(s, sid, cmd, name, ppid, noWait))
  {
    assert Consistent(s, sid) && HolderOwns(s, sid);
    var x := Named(s.sessions[sid], name, ppid);
    if cmd.Connect? {
      UpdateSettlesAround(s, sid, x.(status := AwaitingBoard), s.log);
      var s1 := Asking(s, sid, name, ppid);
      AroundIsButWhenUnattached(s1, sid);
      AssignKeepsInvariant(s1, sid);
      var s2 := Assign(s1, sid);
      if s2.sessions[sid].status.AwaitingBoard? && noWait {
        InvariantSettlesAround(s2, sid);
        SessionCloseKeepsInvariant(s2, sid);
      }
    } else {
      UpdateSettlesAround(s, sid, x, s.log);
      SessionCloseKeepsInvariant(s.(sessions := s.sessions[sid := x]), sid);
    }
  }

  lemma ConnectKeepsInvariant(s: State, cred: string, garbage: int)
    requires Invariant(s)
    ensures Invariant(Step(s, ClientConnects(cred, garbage)))
  {
    var s' := Step(s, ClientConnects(cred, garbage));
    StepKeepsWellFormed(s, ClientConnects(cred, garbage));
    assert s.counter in s.sessions ==> HolderOwns(s, s.counter);
    forall y | y in s'.sessions ensures Consistent(s', y) {
      assert y in s.sessions ==> Consistent(s, y);
    }
    forall b | 0 <= b < |s'.boards| ensures OwnerHolds(s', b) {
      assert OwnerHolds(s, b);
    }
  }

  lemma ProxiesKeepInvariant(s: State, e: Event)
    requires Invariant(s) && Enabled(s, e) && (e.SocketConnects? || e.ProxyCloses?)
    ensures Invariant(Step(s, e))
  {
    var s' := Step(s, e);
    StepKeepsWellFormed(s, e);
    forall y | y in s'.sessions ensures Consistent(s', y) {
      assert Consistent(s, y);
    }
    forall b | 0 <= b < |s'.boards| ensures OwnerHolds(s', b) {
      assert OwnerHolds(s, b);
    }
  }

  lemma StepKeepsInvariant(s: State, e: Event)
    requires Invariant(s) && Enabled(s, e) && FirstSetup(s, e)
    ensures Invariant(Step(s, e))
  {
    match e
    case ClientConnects(cred, garbage) => ConnectKeepsInvariant(s, cred, garbage);
    case Setup(sid, cmd, name, ppid, noWait) => FirstSetupKeepsInvariant(s, sid, cmd, name, ppid, noWait);
    case ClientHangsUp(sid) =>
      assert Consistent(s, sid) && HolderOwns(s, sid);
      UpdateSettlesAround(s, sid, s.sessions[sid].(listening := false), s.log + [Hangup(sid)]);
      SessionCloseKeepsInvariant(HungUp(s, sid), sid);
    case ChildExits(sid) =>
      assert Consistent(s, sid) && HolderOwns(s, sid);
      UpdateSettlesAround(s, sid, s.sessions[sid].(child := NoChild), Reaped(s, sid).log);
      SessionCloseKeepsInvariant(Reaped(s, sid), sid);
    case SocketConnects(_) => ProxiesKeepInvariant(s, e);
    case ProxyCloses(_) => ProxiesKeepInvariant(s, e);
  }

  // ---------------------------------------------------------------------------
  // Whole runs

  lemma {:induction false} RunKeepsInvariant(s: State, es: seq<Event>)
    requires Invariant(s) && Possible(s, es) && OneSetupEach(s, es)
    ensures Invariant(Run(s, es))
    decreases |es|
  {
    if es != [] {
      StepKeepsInvariant(s, es[0]);
      RunKeepsInvariant(Step(s, es[0]), es[1..]);
    }
  }

  // ---------------------------------------------------------------------------
  // Ownership is a bijection

  function Holders(s: State): set<nat> {
    set sid | sid in s.sessions && s.sessions[sid].board.Some?
  }

  function FreeBoards(s: State): set<nat> {
    set b | 0 <= b < |s.boards| && s.boards[b].owner.None?
  }

  function HoldersBelow(s: State, n: nat): set<nat> {
    set sid | sid in s.sessions && s.sessions[sid].board.Some? && s.sessions[sid].board.value < n
  }

  function FreeBelow(s: State, n: nat): set<nat> {
    set b | 0 <= b < |s.boards| && b < n && s.boards[b].owner.None?
  }

  /** Board `n` adds either itself to the free boards or its owner to the holders. */
  lemma BelowNext(s: State, n: nat)
    requires n < |s.boards| && OwnerHolds(s, n)
    requires forall sid :: sid in s.sessions ==> HolderOwns(s, sid)
    ensures if s.boards[n].owner.None?
            then FreeBelow(s, n + 1) == FreeBelow(s, n) + {n} && HoldersBelow(s, n + 1) == HoldersBelow(s, n)
            else FreeBelow(s, n + 1) == FreeBelow(s, n)
                 && HoldersBelow(s, n + 1) == HoldersBelow(s, n) + {s.boards[n].owner.value}
                 && s.boards[n].owner.value !in HoldersBelow(s, n)
  {
  }

  lemma {:induction false} CountBelow(s: State, n: nat)
    requires forall b :: 0 <= b < |s.boards| ==> OwnerHolds(s, b)
    requires forall sid :: sid in s.sessions ==> HolderOwns(s, sid)
    requires n <= |s.boards|
    ensures |HoldersBelow(s, n)| + |FreeBelow(s, n)| == n
  {
    if n > 0 {
      CountBelow(s, n - 1);
      BelowNext(s, n - 1);
      var m := n - 1;
      assert m !in FreeBelow(s, m);
    }
  }

  /** Free boards and holding sessions add up to all boards. */
  lemma HoldersAndFreeBoardsAddUp(s: State)
    requires Settled(s)
    ensures |Holders(s)| + |FreeBoards(s)| == |s.boards|
  {
    CountBelow(s, |s.boards|);
    assert forall sid :: sid in s.sessions ==> HolderOwns(s, sid);
    assert Holders(s) == HoldersBelow(s, |s.boards|) && FreeBoards(s) == FreeBelow(s, |s.boards|);
  }

  function Occurrences(q: seq<nat>, x: nat): nat {
    |set i | 0 <= i < |q| && q[i] == x|
  }

  lemma OccursOnce(q: seq<nat>, x: nat)
    requires NoDuplicates(q) && x in q
    ensures Occurrences(q, x) == 1
  {
    var k :| 0 <= k < |q| && q[k] == x;
    assert (set i | 0 <= i < |q| && q[i] == x) == {k};
  }

  lemma OwnersAndHoldersAgree(s: State)
    requires Settled(s)
    ensures forall b, sid :: 0 <= b < |s.boards| ==>
              (s.boards[b].owner == Some(sid) <==> sid in s.sessions && s.sessions[sid].board == Some(b))
  {
    forall b, sid | 0 <= b < |s.boards|
      ensures s.boards[b].owner == Some(sid) <==> sid in s.sessions && s.sessions[sid].board == Some(b)
    {
      assert OwnerHolds(s, b) && (sid in s.sessions ==> HolderOwns(s, sid));
    }
  }

  lemma WaitersAreQueuedOnce(s: State)
    requires Settled(s)
    ensures forall sid :: sid in s.sessions ==>
              Occurrences(s.queue, sid) == if s.sessions[sid].status.AwaitingBoard? then 1 else 0
  {
    forall sid | sid in s.sessions
      ensures Occurrences(s.queue, sid) == if s.sessions[sid].status.AwaitingBoard? then 1 else 0
    {
      assert Consistent(s, sid);
      if sid in s.queue {
        OccursOnce(s.queue, sid);
      } else {
        assert (set i | 0 <= i < |s.queue| && s.queue[i] == sid) == {};
      }
    }
  }

  /**
    A board is owned by a session exactly when that session points to it, the holders are those
    with a board, the waiters are queued once, and holders and free boards add up.
   */
  ghost predicate Matched(s: State) {
    && (forall b, sid :: 0 <= b < |s.boards| ==>
          (s.boards[b].owner == Some(sid) <==> sid in s.sessions && s.sessions[sid].board == Some(b)))
    && (forall sid :: sid in s.sessions ==>
          (s.sessions[sid].board.Some? <==> s.sessions[sid].status.HasBoard? || s.sessions[sid].status.ClosingBoard?))
    && (forall sid :: sid in s.sessions ==>
          Occurrences(s.queue, sid) == if s.sessions[sid].status.AwaitingBoard? then 1 else 0)
    && (forall sid :: sid in s.queue ==> sid in s.sessions)
    && |Holders(s)| + |FreeBoards(s)| == |s.boards|
  }

  lemma InvariantMatches(s: State)
    requires Invariant(s)
    ensures Matched(s)
  {
    HoldersAndFreeBoardsAddUp(s);
    OwnersAndHoldersAgree(s);
    WaitersAreQueuedOnce(s);
    assert forall sid :: sid in s.sessions ==> Consistent(s, sid);
  }

  /** In every reachable state of a run with one setup message per client. */
  lemma OwnershipIsABijection(s0: State, es: seq<Event>)
    requires Initial(s0) && Possible(s0, es) && OneSetupEach(s0, es)
    ensures Matched(Run(s0, es))
  {
    RunKeepsInvariant(s0, es);
    InvariantMatches(Run(s0, es));
  }

  /** After every event of such a run, no waiting session could use a free board. */
  lemma NoBoardIsIdle(s0: State, es: seq<Event>, sid: nat, b: nat)
    requires Initial(s0) && Possible(s0, es) && OneSetupEach(s0, es)
    requires var s := Run(s0, es); sid in s.queue && b < |s.boards| && s.boards[b].owner.None?
    ensures var s := Run(s0, es);
            sid in s.sessions && s.boards[b].reservedFor != "" && s.boards[b].reservedFor != User(s.sessions[sid])
  {
    RunKeepsInvariant(s0, es);
    assert !Eligible(Run(s0, es).boards[b], User(Run(s0, es).sessions[sid]));
  }

  // ---------------------------------------------------------------------------
  // Clients that send more than one setup message

  lemma {:induction false} RunKeepsWellFormed(s: State, es: seq<Event>)
    requires WellFormed(s) && Possible(s, es)
    ensures WellFormed(Run(s, es))
    decreases |es|
  {
    if es != [] {
      StepKeepsWellFormed(s, es[0]);
      RunKeepsWellFormed(Step(s, es[0]), es[1..]);
    }
  }

  /** Two sessions never hold the same board, whatever the clients send. */
  lemma BoardsAreExclusive(s0: State, es: seq<Event>, x: nat, y: nat)
    requires Initial(s0) && Possible(s0, es)
    requires var s := Run(s0, es); x in s.sessions && y in s.sessions && s.sessions[x].board.Some?
    requires Run(s0, es).sessions[x].board == Run(s0, es).sessions[y].board
    ensures x == y
  {
    RunKeepsWellFormed(s0, es);
    assert HolderOwns(Run(s0, es), x) && HolderOwns(Run(s0, es), y);
  }

  lemma {:induction false} RemoveAppended(q: seq<nat>, x: nat)
    ensures Remove(q + [x], x) == Remove(q, x)
  {
    if q != [] {
      RemoveAppended(q[1..], x);
      assert (q + [x])[1..] == q[1..] + [x];
    }
  }

  /** A setup message the daemon cannot mishandle. */
  predicate Harmless(s: State, e: Event)
    requires e.Setup? && e.sid in s.sessions
  {
    || e.cmd.ListSessions?
    || s.sessions[e.sid].status.Created?
    || (e.noWait && FindAvailable(s.boards, User(Named(s.sessions[e.sid], e.name, e.ppid))).None?)
  }

  lemma RefusedSetupKeepsInvariant(s: State, e: Event)
    requires Invariant(s) && e.Setup? && Enabled(s, e) && e.cmd.Connect? && e.noWait
    requires FindAvailable(s.boards, User(Named(s.sessions[e.sid], e.name, e.ppid))).None?
    ensures Invariant(Step(s, e))
  {
    var x := Named(s.sessions[e.sid], e.name, e.ppid).(status := AwaitingBoard);
    assert HolderOwns(s, e.sid);
    UpdateSettlesAround(s, e.sid, x, s.log);
    var s1 := Asking(s, e.sid, e.name, e.ppid);
    var s2 := Assign(s1, e.sid);
    RemoveAppended(s1.queue, e.sid);
    forall y | y in s2.sessions ensures HolderOwns(s2, y) && (y != e.sid ==> Consistent(s2, y)) {
      assert HolderOwns(s1, y) && (y != e.sid ==> Consistent(s1, y));
    }
    forall b | 0 <= b < |s2.boards| ensures OwnerHolds(s2, b) {
      assert OwnerHolds(s1, b);
    }
    SessionCloseKeepsInvariant(s2, e.sid);
  }

  lemma ListKeepsInvariant(s: State, e: Event)
    requires Invariant(s) && e.Setup? && Enabled(s, e) && e.cmd.ListSessions?
    ensures Invariant(Step(s, e))
  {
    assert HolderOwns(s, e.sid) && Consistent(s, e.sid);
    var x := Named(s.sessions[e.sid], e.name, e.ppid);
    UpdateSettlesAround(s, e.sid, x, s.log);
    SessionCloseKeepsInvariant(s.(sessions := s.sessions[e.sid := x]), e.sid);
  }

  lemma HarmfulSetupBreaksInvariant(s: State, e: Event)
    requires Invariant(s) && e.Setup? && Enabled(s, e) && !Harmless(s, e)
    ensures !Invariant(Step(s, e))
  {
    var sid := e.sid;
    assert Consistent(s, sid) && HolderOwns(s, sid);
    var s1 := Asking(s, sid, e.name, e.ppid);
    var s' := Step(s, e);
    var found := FindAvailable(s1.boards, User(s1.sessions[sid]));
    assert s' == Assign(s1, sid);
    if s.sessions[sid].status.AwaitingBoard? {
      if found.Some? {
        assert !Consistent(s', sid);
      } else {
        var i :| 0 <= i < |s.queue| && s.queue[i] == sid;
        assert s'.queue[i] == s'.queue[|s.queue|];
      }
    } else if found.Some? {
      assert !OwnerHolds(s', s.sessions[sid].board.value);
    } else {
      assert !Consistent(s', sid);
    }
  }

  /** Exactly which setup messages keep the invariant. */
  lemma SetupKeepsInvariantIff(s: State, e: Event)
    requires Invariant(s) && e.Setup? && Enabled(s, e)
    ensures Invariant(Step(s, e)) <==> Harmless(s, e)
  {
    if !Harmless(s, e) {
      HarmfulSetupBreaksInvariant(s, e);
    } else if e.cmd.ListSessions? {
      ListKeepsInvariant(s, e);
    } else if s.sessions[e.sid].status.Created? {
      StepKeepsInvariant(s, e);
    } else {
      RefusedSetupKeepsInvariant(s, e);
    }
  }

  /** A board whose owner is gone, or holds another one, can never be handed out again. */
  predicate Lost(s: State, b: nat) {
    && b < |s.boards| && s.boards[b].owner.Some?
    && var owner := s.boards[b].owner.value;
    owner !in s.sessions || s.sessions[owner].board != Some(b)
  }

  lemma ServeOneKeepsLost(s: State, b: nat)
    requires WellFormed(s) && Lost(s, b)
    ensures Lost(ServeOne(s), b)
  {
  }

  lemma SessionCloseKeepsLost(s: State, sid: nat, b: nat)
    requires WellFormed(s) && sid in s.sessions && Lost(s, b)
    ensures Lost(SessionClose(s, sid), b)
  {
    assert HolderOwns(s, sid);
    var s0 := s.(queue := Remove(s.queue, sid));
    assert forall x :: x in s0.sessions ==> HolderOwns(s, x) ==> HolderOwns(s0, x);
    DestroyKeepsWellFormed(s0, sid);
    ServeOneKeepsLost(Leaving(s, sid), b);
  }

  lemma SetupKeepsLost(s: State, e: Event, b: nat)
    requires WellFormed(s) && Enabled(s, e) && e.Setup? && Lost(s, b)
    ensures Lost(Step(s, e), b)
  {
    assert HolderOwns(s, e.sid);
    var x := Named(s.sessions[e.sid], e.name, e.ppid);
    if e.cmd.Connect? {
      UpdateKeepsWellFormed(s, e.sid, x.(status := AwaitingBoard), s.log);
      var s1 := Asking(s, e.sid, e.name, e.ppid);
      var s2 := Assign(s1, e.sid);
      if s2.sessions[e.sid].status.AwaitingBoard? && e.noWait {
        assert forall y :: y in s2.sessions ==> HolderOwns(s1, y) ==> HolderOwns(s2, y);
        SessionCloseKeepsLost(s2, e.sid, b);
      }
    } else {
      UpdateKeepsWellFormed(s, e.sid, x, s.log);
      SessionCloseKeepsLost(s.(sessions := s.sessions[e.sid := x]), e.sid, b);
    }
  }

  lemma LostStaysLost(s: State, e: Event, b: nat)
    requires WellFormed(s) && Enabled(s, e) && Lost(s, b)
    ensures Lost(Step(s, e), b)
  {
    match e
    case ClientConnects(_, _) =>
    case Setup(_, _, _, _, _) =>
      SetupKeepsLost(s, e, b);
    case ClientHangsUp(sid) =>
      assert HolderOwns(s, sid);
      UpdateKeepsWellFormed(s, sid, s.sessions[sid].(listening := false), s.log + [Hangup(sid)]);
      SessionCloseKeepsLost(HungUp(s, sid), sid, b);
    case ChildExits(sid) =>
      assert HolderOwns(s, sid);
      UpdateKeepsWellFormed(s, sid, s.sessions[sid].(child := NoChild), Reaped(s, sid).log);
      SessionCloseKeepsLost(Reaped(s, sid), sid, b);
    case SocketConnects(_) =>
    case ProxyCloses(_) =>
  }

  /** No later event, of whatever kind, gives a lost board back. */
  lemma {:induction false} LostForGood(s: State, es: seq<Event>, b: nat)
    requires WellFormed(s) && Possible(s, es) && Lost(s, b)
    ensures Lost(Run(s, es), b)
    decreases |es|
  {
    if es != [] {
      StepKeepsWellFormed(s, es[0]);
      LostStaysLost(s, es[0], b);
      LostForGood(Step(s, es[0]), es[1..], b);
    }
  }

  /** Two boards without a close command, and the session of a client that set up `n` times. */
  function TwoBoards(n: nat): State
    requires n <= 2
  {
    var free, taken := Board("", "", None), Board("", "", Some(0));
    var x := Session("user", "", 0, Created, None, NoChild, true, 0);
    match n
    case 0 => State([free, free], map[0 := x], [], 1, [])
    case 1 => State([taken, free], map[0 := x.(status := HasBoard, board := Some(0), child := MainChild)], [], 1, [Acquire(0, 0)])
    case _ => State([taken, taken], map[0 := x.(status := HasBoard, board := Some(1), child := MainChild)], [], 1,
                    [Acquire(0, 0), Acquire(0, 1)])
  }

  const Again := Setup(0, Connect, "", 0, false)

  lemma SetupTakesTheNextBoard(n: nat)
    requires n < 2
    ensures WellFormed(TwoBoards(n)) && Enabled(TwoBoards(n), Again) && Step(TwoBoards(n), Again) == TwoBoards(n + 1)
  {
    var s := TwoBoards(n);
    if n == 0 {
      assert Step(s, Again).boards == TwoBoards(1).boards && Step(s, Again).sessions == TwoBoards(1).sessions;
    } else {
      assert Step(s, Again).boards == TwoBoards(2).boards && Step(s, Again).sessions == TwoBoards(2).sessions;
    }
  }

  lemma PossibleCons(s: State, e: Event, es: seq<Event>)
    requires WellFormed(s) && Enabled(s, e) && WellFormed(Step(s, e)) && Possible(Step(s, e), es)
    ensures Possible(s, [e] + es) && Run(s, [e] + es) == Run(Step(s, e), es)
  {
    assert ([e] + es)[1..] == es;
  }

  lemma TwoSetups() returns (es: seq<Event>)
    ensures WellFormed(TwoBoards(0)) && Possible(TwoBoards(0), es) && Lost(Run(TwoBoards(0), es), 0)
  {
    SetupTakesTheNextBoard(0);
    SetupTakesTheNextBoard(1);
    StepKeepsWellFormed(TwoBoards(1), Again);
    PossibleCons(TwoBoards(1), Again, []);
    PossibleCons(TwoBoards(0), Again, [Again] + []);
    es := [Again] + ([Again] + []);
  }

  /** A client that sets up twice takes two boards and loses one of them for good. */
  lemma SecondSetupLosesABoard() returns (s0: State, es: seq<Event>)
    ensures Initial(s0) && Possible(s0, es) && Lost(Run(s0, es), 0)
  {
    s0 := State(TwoBoards(0).boards, map[], [], 0, []);
    var connect := ClientConnects("user", 0);
    assert Step(s0, connect) == TwoBoards(0);
    var rest := TwoSetups();
    PossibleCons(s0, connect, rest);
    es := [connect] + rest;
  }
}
