/**
  Who gets a board, and how long a waiting session can be made to wait.
 */
module AllocatorFairness {
  import opened Basics
  import opened Allocator
  import opened AllocatorInvariant

  /** The board is not set aside for somebody else. */
  predicate Fits(board: Board, user: string) {
    board.reservedFor == "" || board.reservedFor == user
  }

  /** Board `b` passes to session `sid` between the two states. */
  predicate Handed(s: State, s': State, sid: nat, b: nat) {
    b < |s.boards| == |s'.boards| && s'.boards[b].owner == Some(sid) && s.boards[b].owner != Some(sid)
  }

  /** `t` stands in the queue, and before `sid` if `sid` stands there too. */
  predicate Ahead(q: seq<nat>, t: nat, sid: nat) {
    exists i :: 0 <= i < |q| && q[i] == t && forall j :: 0 <= j <= i ==> q[j] != sid
  }

  /** What a fair hand-over looks like in the state after it. */
  ghost predicate FairHandOver(s: State, s': State, sid: nat, b: nat)
    requires b < |s.boards| == |s'.boards|
  {
    && sid in s.sessions && sid in s'.sessions
    && Fits(s.boards[b], User(s'.sessions[sid]))
    && (s.boards[b].reservedFor == "" ==>
          forall c :: 0 <= c < |s'.boards| ==> !ReservedFree(s'.boards[c], User(s'.sessions[sid])))
    && (forall t :: Ahead(s.queue, t, sid) ==>
          t in s.sessions && t in s'.sessions && !Fits(s.boards[b], User(s'.sessions[t])))
  }

  // ---------------------------------------------------------------------------
  // The states in which sessions close

  /** A session about to close that is queued only if it holds no board. */
  predicate ReadyToClose(s: State, x: nat) {
    && x in s.sessions && SettledAround(s, x)
    && (s.sessions[x].board.Some? ==> x !in s.queue)
    && (s.sessions[x].status.HasBoard? ==> !s.sessions[x].child.CloseChild?)
  }

  /** The event is handled by closing session `e.sid` in some way. */
  predicate Closes(s: State, e: Event)
    requires Enabled(s, e)
  {
    match e
    case ClientHangsUp(_) => true
    case ChildExits(_) => true
    case Setup(sid, cmd, name, ppid, noWait) =>
      cmd.ListSessions? || (noWait && FindAvailable(s.boards, User(Named(s.sessions[sid], name, ppid))).None?)
    case _ => false
  }

  function Prepared(s: State, e: Event): State
    requires Enabled(s, e) && Closes(s, e)
  {
    match e
    case ClientHangsUp(sid) => HungUp(s, sid)
    case ChildExits(sid) => Reaped(s, sid)
    case Setup(sid, cmd, name, ppid, _) =>
      if cmd.ListSessions? then s.(sessions := s.sessions[sid := Named(s.sessions[sid], name, ppid)])
      else Assign(Asking(s, sid, name, ppid), sid)
  }

  /** From `s` to `p` only session `x` changed, and neither its board nor the order of the others. */
  ghost predicate OnlyTouches(s: State, p: State, x: nat)
    requires x in s.sessions && x in p.sessions
  {
    && p.boards == s.boards && Remove(p.queue, x) == Remove(s.queue, x) && p.counter == s.counter
    && p.sessions.Keys == s.sessions.Keys
    && (forall y :: y in s.sessions && y != x ==> p.sessions[y] == s.sessions[y])
    && p.sessions[x].board == s.sessions[x].board
    && (p.log == s.log || exists a: Action :: p.log == s.log + [a] && !a.Release?)
  }

  lemma ClosingSetup(s: State, e: Event)
    requires Invariant(s) && Enabled(s, e) && FirstSetup(s, e) && Closes(s, e) && e.Setup?
    ensures ReadyToClose(Prepared(s, e), e.sid) && OnlyTouches(s, Prepared(s, e), e.sid)
  {
    var sid := e.sid;
    var x := Named(s.sessions[sid], e.name, e.ppid);
    assert Consistent(s, sid) && HolderOwns(s, sid);
    if e.cmd.ListSessions? {
      UpdateSettlesAround(s, sid, x, s.log);
    } else {
      UpdateSettlesAround(s, sid, x.(status := AwaitingBoard), s.log);
      var s1 := Asking(s, sid, e.name, e.ppid);
      AroundIsButWhenUnattached(s1, sid);
      AssignKeepsInvariant(s1, sid);
      InvariantSettlesAround(Assign(s1, sid), sid);
      RemoveAppended(s1.queue, sid);
    }
  }

  lemma ClosingStep(s: State, e: Event)
    requires Invariant(s) && Enabled(s, e) && FirstSetup(s, e) && Closes(s, e)
    ensures ReadyToClose(Prepared(s, e), e.sid) && OnlyTouches(s, Prepared(s, e), e.sid)
    ensures Step(s, e) == SessionClose(Prepared(s, e), e.sid)
  {
    match e
    case ClientHangsUp(sid) =>
      assert Consistent(s, sid) && HolderOwns(s, sid);
      UpdateSettlesAround(s, sid, s.sessions[sid].(listening := false), s.log + [Hangup(sid)]);
    case ChildExits(sid) =>
      assert Consistent(s, sid) && HolderOwns(s, sid);
      UpdateSettlesAround(s, sid, s.sessions[sid].(child := NoChild), Reaped(s, sid).log);
    case Setup(sid, cmd, name, ppid, _) =>
      ClosingSetup(s, e);
  }

  // ---------------------------------------------------------------------------
  // Closing a session serves the queue in order

  /** What `Daemon::close_session` leaves: one session served with the freed board, or nobody. */
  lemma DaemonCloseOutcome(p: State, x: nat) returns (i: nat)
    requires ReadyToClose(p, x)
    ensures HolderOwns(p, x) && i <= |Leaving(p, x).queue|
    ensures i == |Leaving(p, x).queue| ==> DaemonClose(p, x) == Leaving(p, x)
    ensures var l := Leaving(p, x);
            i < |l.queue| ==>
              && p.sessions[x].board.Some? && l.queue == p.queue
              && l.queue[i] in l.sessions
              && DaemonClose(p, x) == Give(l.(queue := Remove(l.queue, l.queue[i])), l.queue[i], p.sessions[x].board.value)
              && FindAvailable(l.boards, User(l.sessions[l.queue[i]])) == Some(p.sessions[x].board.value)
    ensures forall j :: 0 <= j < i ==>
              var l := Leaving(p, x);
              l.queue[j] in l.sessions && FindAvailable(l.boards, User(l.sessions[l.queue[j]])).None?
  {
    LeavingSettles(p, x);
    LeavingFreesOne(p, x);
    var l := Leaving(p, x);
    ServeOneLeavesNoneIdle(l, Freed(p.sessions[x]));
    i := FirstServable(l, 0);
    if p.sessions[x].board.Some? {
      RemoveAbsent(p.queue, x);
    }
  }

  lemma EarlierDoesNotFit(p: State, x: nat, sid: nat, b: nat, i: nat, t: nat)
    requires ReadyToClose(p, x) && HolderOwns(p, x) && p.sessions[x].board == Some(b) && Ahead(p.queue, t, sid)
    requires var l := Leaving(p, x);
      && l.queue == p.queue && i < |l.queue| && l.queue[i] == sid && sid in l.sessions
      && (forall j :: 0 <= j < i ==> l.queue[j] in l.sessions && FindAvailable(l.boards, User(l.sessions[l.queue[j]])).None?)
    ensures t in p.sessions && t != x && !Fits(p.boards[b], User(p.sessions[t]))
  {
    var l := Leaving(p, x);
    var j :| 0 <= j < |p.queue| && p.queue[j] == t && forall k :: 0 <= k <= j ==> p.queue[k] != sid;
    assert !Eligible(l.boards[b], User(l.sessions[t]));
  }

  lemma HandedIsServed(p: State, x: nat, sid: nat, b: nat) returns (i: nat)
    requires ReadyToClose(p, x) && Handed(p, DaemonClose(p, x), sid, b)
    ensures HolderOwns(p, x) && p.sessions[x].board == Some(b)
    ensures var l := Leaving(p, x);
      && l.queue == p.queue && i < |l.queue| && l.queue[i] == sid && sid in l.sessions
      && (forall j :: 0 <= j < i ==> l.queue[j] in l.sessions && FindAvailable(l.boards, User(l.sessions[l.queue[j]])).None?)
      && FindAvailable(l.boards, User(l.sessions[sid])) == Some(b)
      && DaemonClose(p, x) == Give(l.(queue := Remove(l.queue, sid)), sid, b)
  {
    i := DaemonCloseOutcome(p, x);
  }

  lemma DaemonCloseIsFair(p: State, x: nat, sid: nat, b: nat)
    requires ReadyToClose(p, x) && Handed(p, DaemonClose(p, x), sid, b)
    ensures FairHandOver(p, DaemonClose(p, x), sid, b)
  {
    var i := HandedIsServed(p, x, sid, b);
    var s' := DaemonClose(p, x);
    forall t | Ahead(p.queue, t, sid)
      ensures t in p.sessions && t in s'.sessions && !Fits(p.boards[b], User(s'.sessions[t]))
    {
      EarlierDoesNotFit(p, x, sid, b, i, t);
    }
  }

  lemma SessionCloseIsFair(p: State, x: nat, sid: nat, b: nat)
    requires ReadyToClose(p, x) && Handed(p, SessionClose(p, x), sid, b)
    ensures FairHandOver(p, SessionClose(p, x), sid, b)
  {
    assert HolderOwns(p, x);
    assert SessionClose(p, x) == DaemonClose(p, x);
    DaemonCloseIsFair(p, x, sid, b);
  }

  lemma OnlyAHolderFreesABoard(p: State, x: nat, sid: nat, b: nat)
    requires ReadyToClose(p, x) && Handed(p, SessionClose(p, x), sid, b)
    ensures p.sessions[x].board == Some(b) && x != sid
  {
    assert HolderOwns(p, x);
    assert SessionClose(p, x) == DaemonClose(p, x);
    var i := DaemonCloseOutcome(p, x);
  }

  /** An arriving session is only given a board nobody in the queue could use. */
  lemma ArrivalIsFair(s: State, e: Event, sid: nat, b: nat)
    requires Invariant(s) && Enabled(s, e) && FirstSetup(s, e) && !Closes(s, e)
    requires Handed(s, Step(s, e), sid, b)
    ensures FairHandOver(s, Step(s, e), sid, b)
  {
    assert e.Setup? && e.cmd.Connect? && e.sid == sid;
    assert Consistent(s, sid);
    var s' := Step(s, e);
    forall t | Ahead(s.queue, t, sid)
      ensures t in s.sessions && t in s'.sessions && !Fits(s.boards[b], User(s'.sessions[t]))
    {
      assert !Eligible(s.boards[b], User(s.sessions[t]));
    }
  }

  lemma HandOverIsFair(s: State, e: Event, sid: nat, b: nat)
    requires Invariant(s) && Enabled(s, e) && FirstSetup(s, e) && Handed(s, Step(s, e), sid, b)
    ensures FairHandOver(s, Step(s, e), sid, b)
  {
    if Closes(s, e) {
      ClosingStep(s, e);
      var p := Prepared(s, e);
      SessionCloseIsFair(p, e.sid, sid, b);
      OnlyAHolderFreesABoard(p, e.sid, sid, b);
      assert Consistent(s, e.sid);
      RemoveAbsent(p.queue, e.sid);
      RemoveAbsent(s.queue, e.sid);
    } else {
      ArrivalIsFair(s, e, sid, b);
    }
  }

  /**
    Over whole runs: whenever a board passes to a session, by its arrival or by
    the end of another, nobody queued before it could have used that board, the
    board is not reserved for somebody else, and an unreserved board is only
    taken when no free board is reserved for the session's user.
   */
  lemma NobodyIsOvertaken(s0: State, es: seq<Event>, e: Event, sid: nat, b: nat)
    requires Initial(s0) && Possible(s0, es) && OneSetupEach(s0, es)
    requires WellFormed(Run(s0, es)) && Enabled(Run(s0, es), e) && FirstSetup(Run(s0, es), e)
    requires Handed(Run(s0, es), Step(Run(s0, es), e), sid, b)
    ensures FairHandOver(Run(s0, es), Step(Run(s0, es), e), sid, b)
  {
    RunKeepsInvariant(s0, es);
    HandOverIsFair(Run(s0, es), e, sid, b);
  }

  // ---------------------------------------------------------------------------
  // Bounded waiting

  /** How many sessions stand before `sid`. */
  function Position(q: seq<nat>, sid: nat): (p: nat)
    requires sid in q
    ensures p < |q| && q[p] == sid
  {
    if q[0] == sid then 0 else 1 + Position(q[1..], sid)
  }

  lemma {:induction false} PositionAfterRemove(q: seq<nat>, x: nat, sid: nat)
    requires sid in q && x != sid
    ensures sid in Remove(q, x)
    ensures Position(Remove(q, x), sid) <= Position(q, sid) - (if q[0] == x then 1 else 0)
  {
    if q[0] != sid {
      PositionAfterRemove(q[1..], x, sid);
      if q[0] != x {
        assert Remove(q, x)[1..] == Remove(q[1..], x);
      }
    }
  }

  lemma {:induction false} PositionAfterAppend(q: seq<nat>, x: nat, sid: nat)
    requires sid in q
    ensures Position(q + [x], sid) == Position(q, sid)
  {
    if q[0] != sid {
      PositionAfterAppend(q[1..], x, sid);
      assert (q + [x])[1..] == q[1..] + [x];
    }
  }

  function Unreserved(s: State): set<nat> {
    set b | 0 <= b < |s.boards| && s.boards[b].reservedFor == ""
  }

  /** How often a log releases one of the given boards. */
  function Releases(log: seq<Action>, boards: set<nat>): nat {
    if log == [] then 0
    else
      var last := log[|log| - 1];
      Releases(log[..|log| - 1], boards) + if last.Release? && last.b in boards then 1 else 0
  }

  lemma ReleasesAppend(log: seq<Action>, a: Action, boards: set<nat>)
    ensures Releases(log + [a], boards) == Releases(log, boards) + if a.Release? && a.b in boards then 1 else 0
  {
    assert (log + [a])[..|log|] == log;
  }

  /** A released unreserved board goes straight to the head of the queue. */
  lemma ReleaseServesTheHead(p: State, x: nat)
    requires ReadyToClose(p, x) && p.queue != []
    requires HolderOwns(p, x) && p.sessions[x].board.Some? && p.boards[p.sessions[x].board.value].reservedFor == ""
    ensures var s' := DaemonClose(p, x);
            && s'.queue == p.queue[1..] && p.queue[0] in s'.sessions
            && s'.sessions[p.queue[0]].board == p.sessions[x].board
  {
    RemoveAbsent(p.queue, x);
    var i := DaemonCloseOutcome(p, x);
    var l := Leaving(p, x);
    assert Eligible(l.boards[p.sessions[x].board.value], User(l.sessions[p.queue[0]]));
    RemoveAt(p.queue, 0);
  }

  lemma LeavingLog(p: State, x: nat, boards: set<nat>)
    requires x in p.sessions && HolderOwns(p, x)
    ensures Releases(Leaving(p, x).log, boards) ==
            Releases(p.log, boards) + if p.sessions[x].board.Some? && p.sessions[x].board.value in boards then 1 else 0
  {
    if p.sessions[x].board.Some? {
      ReleasesAppend(p.log, Release(x, p.sessions[x].board.value), boards);
    }
  }

  /** A waiting session that stays moves up by at least one for every such release. */
  lemma DaemonCloseMovesUp(p: State, x: nat, sid: nat)
    requires ReadyToClose(p, x) && sid in p.queue && sid in DaemonClose(p, x).queue
    ensures var s' := DaemonClose(p, x);
            Position(s'.queue, sid) + Releases(s'.log, Unreserved(p)) <= Position(p.queue, sid) + Releases(p.log, Unreserved(p))
  {
    var boards := Unreserved(p);
    var i := DaemonCloseOutcome(p, x);
    var l := Leaving(p, x);
    var s' := DaemonClose(p, x);
    LeavingLog(p, x, boards);
    PositionAfterRemove(p.queue, x, sid);
    if i < |l.queue| {
      var served := l.queue[i];
      ReleasesAppend(l.log, Acquire(served, p.sessions[x].board.value), boards);
      PositionAfterRemove(l.queue, served, sid);
      if p.sessions[x].board.value in boards {
        ReleaseServesTheHead(p, x);
        assert i == 0 by {
          assert Eligible(l.boards[p.sessions[x].board.value], User(l.sessions[l.queue[0]]));
        }
      }
    } else if p.sessions[x].board.Some? && p.sessions[x].board.value in boards {
      ReleaseServesTheHead(p, x);
      assert false;
    }
  }

  lemma SessionCloseMovesUp(p: State, x: nat, sid: nat)
    requires ReadyToClose(p, x) && sid in p.queue && sid in SessionClose(p, x).queue
    ensures var s' := SessionClose(p, x);
            Position(s'.queue, sid) + Releases(s'.log, Unreserved(p)) <= Position(p.queue, sid) + Releases(p.log, Unreserved(p))
  {
    assert HolderOwns(p, x);
    var s' := SessionClose(p, x);
    if s' == DaemonClose(p, x) {
      DaemonCloseMovesUp(p, x, sid);
    } else {
      ReleasesAppend(p.log, s'.log[|p.log|], Unreserved(p));
    }
  }

  lemma PreparedPosition(s: State, e: Event, sid: nat)
    requires Invariant(s) && Enabled(s, e) && FirstSetup(s, e) && Closes(s, e) && sid in s.queue
    ensures var p := Prepared(s, e);
            && sid in p.queue && Position(p.queue, sid) == Position(s.queue, sid)
            && Releases(p.log, Unreserved(s)) == Releases(s.log, Unreserved(s))
  {
    PreparedLists(s, e);
    var p := Prepared(s, e);
    if p.queue != s.queue {
      PositionAfterAppend(s.queue, e.sid, sid);
    }
    if p.log != s.log {
      ReleasesAppend(s.log, p.log[|s.log|], Unreserved(s));
    }
  }

  /** What happens to queue and log before a session is closed. */
  lemma PreparedLists(s: State, e: Event)
    requires WellFormed(s) && Enabled(s, e) && Closes(s, e)
    ensures var p := Prepared(s, e);
            && (p.queue == s.queue || p.queue == s.queue + [e.sid])
            && (p.log == s.log || (|p.log| == |s.log| + 1 && p.log == s.log + [p.log[|s.log|]] && !p.log[|s.log|].Release?))
  {
  }

  /** One event: a session that keeps waiting never falls back, and moves up with every release. */
  lemma StepMovesUp(s: State, e: Event, sid: nat)
    requires Invariant(s) && Enabled(s, e) && FirstSetup(s, e)
    requires sid in s.queue && sid in Step(s, e).queue
    ensures var s' := Step(s, e);
            Position(s'.queue, sid) + Releases(s'.log, Unreserved(s)) <= Position(s.queue, sid) + Releases(s.log, Unreserved(s))
  {
    var s' := Step(s, e);
    if Closes(s, e) {
      ClosingStep(s, e);
      PreparedPosition(s, e, sid);
      assert Unreserved(Prepared(s, e)) == Unreserved(s);
      SessionCloseMovesUp(Prepared(s, e), e.sid, sid);
    } else if e.Setup? {
      var s1 := Asking(s, e.sid, e.name, e.ppid);
      var found := FindAvailable(s1.boards, User(s1.sessions[e.sid]));
      if found.Some? {
        ReleasesAppend(s.log, Acquire(e.sid, found.value), Unreserved(s));
      } else {
        PositionAfterAppend(s.queue, e.sid, sid);
      }
    }
  }

  /** Neither the number of boards nor what they are reserved for or run on closing changes. */
  predicate SameBoards(s: State, s': State) {
    && |s.boards| == |s'.boards|
    && forall b :: 0 <= b < |s.boards| ==>
         s.boards[b].reservedFor == s'.boards[b].reservedFor && s.boards[b].closeCommand == s'.boards[b].closeCommand
  }

  /** What closing a session never changes: the boards' settings, past log entries, other numbers. */
  lemma SessionCloseFrame(s: State, sid: nat)
    requires WellFormed(s) && sid in s.sessions
    ensures SameBoards(s, SessionClose(s, sid)) && s.log <= SessionClose(s, sid).log
    ensures SessionClose(s, sid).sessions.Keys <= s.sessions.Keys && SessionClose(s, sid).counter == s.counter
  {
    assert HolderOwns(s, sid);
  }

  lemma SetupFrame(s: State, sid: nat, cmd: Command, name: string, ppid: int, noWait: bool)
    requires WellFormed(s) && Enabled(s, Setup(sid, cmd, name, ppid, noWait))
    ensures var t := Step(s, Setup(sid, cmd, name, ppid, noWait));
      SameBoards(s, t) && s.log <= t.log && t.sessions.Keys <= s.sessions.Keys + {s.counter} && t.counter >= s.counter
  {
    assert HolderOwns(s, sid);
    var x := Named(s.sessions[sid], name, ppid);
    if cmd.ListSessions? {
      UpdateKeepsWellFormed(s, sid, x, s.log);
      SessionCloseFrame(s.(sessions := s.sessions[sid := x]), sid);
    } else {
      UpdateKeepsWellFormed(s, sid, x.(status := AwaitingBoard), s.log);
      var s1 := Asking(s, sid, name, ppid);
      var s2 := Assign(s1, sid);
      if s2.sessions[sid].status.AwaitingBoard? && noWait {
        assert forall y :: y in s2.sessions ==> HolderOwns(s1, y) ==> HolderOwns(s2, y);
        SessionCloseFrame(s2, sid);
      }
    }
  }

  lemma StepFrame(s: State, e: Event)
    requires WellFormed(s) && Enabled(s, e)
    ensures SameBoards(s, Step(s, e)) && s.log <= Step(s, e).log
    ensures Step(s, e).sessions.Keys <= s.sessions.Keys + {s.counter} && Step(s, e).counter >= s.counter
  {
    match e
    case ClientConnects(_, _) =>
    case SocketConnects(_) =>
    case ProxyCloses(_) =>
    case ClientHangsUp(sid) =>
      assert HolderOwns(s, sid);
      UpdateKeepsWellFormed(s, sid, s.sessions[sid].(listening := false), s.log + [Hangup(sid)]);
      SessionCloseFrame(HungUp(s, sid), sid);
    case ChildExits(sid) =>
      assert HolderOwns(s, sid);
      UpdateKeepsWellFormed(s, sid, s.sessions[sid].(child := NoChild), Reaped(s, sid).log);
      SessionCloseFrame(Reaped(s, sid), sid);
    case Setup(sid, cmd, name, ppid, noWait) =>
      SetupFrame(s, sid, cmd, name, ppid, noWait);
  }

  /** The session was given a board, or has left: it will never wait again. */
  predicate DoneWaiting(s: State, sid: nat) {
    sid < s.counter && (sid in s.sessions ==> s.sessions[sid].status.HasBoard? || s.sessions[sid].status.ClosingBoard?)
  }

  lemma SessionCloseStaysDone(p: State, x: nat, sid: nat)
    requires ReadyToClose(p, x) && sid < p.counter
    requires DoneWaiting(p, sid)
    ensures DoneWaiting(SessionClose(p, x), sid)
  {
    assert HolderOwns(p, x);
    if SessionClose(p, x) == DaemonClose(p, x) {
      var i := DaemonCloseOutcome(p, x);
    }
  }

  lemma StepStaysDone(s: State, e: Event, sid: nat)
    requires Invariant(s) && Enabled(s, e) && FirstSetup(s, e) && DoneWaiting(s, sid)
    ensures DoneWaiting(Step(s, e), sid)
  {
    if Closes(s, e) {
      ClosingStep(s, e);
      SessionCloseStaysDone(Prepared(s, e), e.sid, sid);
    }
  }

  /** The session has a board, and the log ends with its acquisition. */
  predicate JustServed(s: State, t: State, sid: nat, b: nat) {
    && sid in t.sessions && t.sessions[sid].status.HasBoard? && t.sessions[sid].board == Some(b)
    && |t.log| > |s.log| && t.log[|t.log| - 1] == Acquire(sid, b)
  }

  lemma StaysQueued(q: seq<nat>, x: nat, sid: nat)
    requires sid in q && sid != x
    ensures sid in Remove(q, x)
  {
  }

  lemma DaemonCloseServes(p: State, x: nat, sid: nat) returns (b: nat)
    requires ReadyToClose(p, x) && sid != x && sid in p.queue && sid !in DaemonClose(p, x).queue
    ensures JustServed(p, DaemonClose(p, x), sid, b)
  {
    var i := DaemonCloseOutcome(p, x);
    var l := Leaving(p, x);
    StaysQueued(p.queue, x, sid);
    assert i < |l.queue|;
    b := p.sessions[x].board.value;
    assert l.queue[i] == sid;
  }

  /** A waiting session leaves the queue with a board, unless it hangs up. */
  lemma LeavingTheQueueServes(s: State, e: Event, sid: nat) returns (b: nat)
    requires Invariant(s) && Enabled(s, e) && FirstSetup(s, e) && sid in s.queue && sid !in Step(s, e).queue
    requires e != ClientHangsUp(sid)
    ensures JustServed(s, Step(s, e), sid, b)
  {
    assert Consistent(s, sid) && HolderOwns(s, sid);
    assert Closes(s, e);
    ClosingStep(s, e);
    var p := Prepared(s, e);
    assert HolderOwns(p, e.sid);
    b := DaemonCloseServes(p, e.sid, sid);
  }

  lemma HangingUpLeaves(s: State, sid: nat)
    requires Invariant(s) && Enabled(s, ClientHangsUp(sid)) && sid in s.queue
    ensures sid !in Step(s, ClientHangsUp(sid)).sessions
  {
    var e := ClientHangsUp(sid);
    assert Consistent(s, sid) && HolderOwns(s, sid);
    ClosingStep(s, e);
    var i := DaemonCloseOutcome(Prepared(s, e), sid);
  }

  /** A waiting session that is not waiting after an event is done waiting, and gone only by its own hang-up. */
  lemma LeavingTheQueueIsFinal(s: State, e: Event, sid: nat)
    requires Invariant(s) && Enabled(s, e) && FirstSetup(s, e) && sid in s.queue && sid !in Step(s, e).queue
    ensures DoneWaiting(Step(s, e), sid) && (sid in Step(s, e).sessions <==> e != ClientHangsUp(sid))
  {
    assert HolderOwns(s, sid);
    StepFrame(s, e);
    if e == ClientHangsUp(sid) {
      HangingUpLeaves(s, sid);
    } else {
      var b := LeavingTheQueueServes(s, e, sid);
    }
  }

  lemma {:induction false} RunStaysDone(s: State, es: seq<Event>, sid: nat)
    requires Invariant(s) && Possible(s, es) && OneSetupEach(s, es) && DoneWaiting(s, sid)
    ensures DoneWaiting(Run(s, es), sid) && sid !in Run(s, es).queue
    decreases |es|
  {
    if es == [] {
      assert sid in s.sessions ==> Consistent(s, sid);
    } else {
      StepKeepsInvariant(s, es[0]);
      StepStaysDone(s, es[0], sid);
      RunStaysDone(Step(s, es[0]), es[1..], sid);
    }
  }

  lemma {:induction false} ReleasesGrow(log: seq<Action>, more: seq<Action>, boards: set<nat>)
    requires log <= more
    ensures Releases(log, boards) <= Releases(more, boards)
  {
    if |log| < |more| {
      ReleasesGrow(log, more[..|more| - 1], boards);
    } else {
      assert log == more;
    }
  }

  /**
    Bounded waiting: while a session with `k` others before it keeps waiting, at
    most `k` unreserved boards are released.
   */
  lemma {:induction false} WaitingIsBounded(s: State, es: seq<Event>, sid: nat)
    requires Invariant(s) && Possible(s, es) && OneSetupEach(s, es)
    requires sid in s.queue && sid in Run(s, es).queue
    ensures var s' := Run(s, es);
            && Unreserved(s') == Unreserved(s)
            && Position(s'.queue, sid) + (Releases(s'.log, Unreserved(s)) - Releases(s.log, Unreserved(s)))
               <= Position(s.queue, sid)
            && Position(s'.queue, sid) <= Position(s.queue, sid)
    decreases |es|
  {
    if es != [] {
      var s1 := Step(s, es[0]);
      StepKeepsInvariant(s, es[0]);
      StepFrame(s, es[0]);
      assert Unreserved(s1) == Unreserved(s);
      if sid !in s1.queue {
        LeavingTheQueueIsFinal(s, es[0], sid);
        RunStaysDone(s1, es[1..], sid);
        assert false;
      }
      StepMovesUp(s, es[0], sid);
      ReleasesGrow(s.log, s1.log, Unreserved(s));
      WaitingIsBounded(s1, es[1..], sid);
    }
  }
}
