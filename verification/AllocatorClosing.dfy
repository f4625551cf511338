/**
  The order in which a session gives its board back: kill, reap, close command,
  reap, release.
 */
module AllocatorClosing {
  import opened Basics
  import opened Allocator
  import opened AllocatorInvariant
  import opened AllocatorFairness

  /** The boards that have a close command. */
  function Closable(s: State): set<nat> {
    set b | 0 <= b < |s.boards| && s.boards[b].closeCommand != ""
  }

  /**
    How far a log has come with one session.  `m` and `c` are the positions at
    which the main child was reaped and the close command started; `hung` says
    that the client had hung up before position `m`, `late` that it did so after `c`.
   */
  datatype Phase =
    | Fresh
    | Running(b: nat, hung: bool)
    | AfterMain(b: nat, hung: bool, m: nat)
    | InClose(b: nat, hung: bool, m: nat, c: nat, late: bool)
    | AfterClose(b: nat, hung: bool, m: nat, c: nat)
    | NeverHeld
    | Gone(b: nat, hung: bool, m: nat, c: nat, r: nat)
    | Broken

  function Advance(p: Phase, a: Action, at: nat, closable: set<nat>): Phase {
    match (p, a)
    case (Fresh, Acquire(_, b)) => Running(b, false)
    case (Fresh, Hangup(_)) => NeverHeld
    case (Running(b, _), Hangup(_)) => Running(b, true)
    case (Running(b, hung), Kill(_)) => p
    case (Running(b, hung), ReapMain(_)) => AfterMain(b, hung, at)
    case (AfterMain(b, hung, m), StartClose(_, b')) =>
      if b == b' && b in closable then InClose(b, hung, m, at, false) else Broken
    case (AfterMain(b, hung, m), Release(_, b')) =>
      if b == b' && b !in closable then Gone(b, hung, m, m, at) else Broken
    case (InClose(b, hung, m, c, late), Hangup(_)) =>
      if hung || late then Broken else InClose(b, hung, m, c, true)
    case (InClose(b, hung, m, c, late), ReapClose(_)) =>
      if late then Broken else AfterClose(b, hung, m, c)
    case (InClose(b, hung, m, c, late), Release(_, b')) =>
      if b == b' && late then Gone(b, hung, m, c, at) else Broken
    case (AfterClose(b, hung, m, c), Release(_, b')) =>
      if b == b' then Gone(b, hung, m, c, at) else Broken
    case _ => Broken
  }

  function PhaseOf(log: seq<Action>, sid: nat, closable: set<nat>): Phase {
    if log == [] then Fresh
    else
      var before := PhaseOf(log[..|log| - 1], sid, closable);
      var last := log[|log| - 1];
      if last.sid == sid then Advance(before, last, |log| - 1, closable) else before
  }

  lemma PhaseAppend(log: seq<Action>, a: Action, sid: nat, closable: set<nat>)
    ensures PhaseOf(log + [a], sid, closable) ==
            if a.sid == sid then Advance(PhaseOf(log, sid, closable), a, |log|, closable) else PhaseOf(log, sid, closable)
  {
    assert (log + [a])[..|log|] == log;
  }

  // ---------------------------------------------------------------------------
  // The log agrees with the state after every event

  ghost predicate Tracks(s: State, sid: nat) {
    var p := PhaseOf(s.log, sid, Closable(s));
    if sid !in s.sessions then (if sid < s.counter then p.Fresh? || p.NeverHeld? || p.Gone? else p.Fresh?)
    else
      var x := s.sessions[sid];
      match x.status
      case Created => p.Fresh?
      case AwaitingBoard => p.Fresh?
      case HasBoard => x.board.Some? && p == Running(x.board.value, !x.listening)
      case ClosingBoard => x.board.Some? && p.InClose? && p.b == x.board.value && p.hung == !x.listening && !p.late
  }

  /** The phases in which a session is handed to `Session::close_session`. */
  ghost predicate TracksLeaving(s: State, x: nat)
    requires x in s.sessions
  {
    var p := PhaseOf(s.log, x, Closable(s));
    var r := s.sessions[x];
    match r.status
    case Created => p.Fresh? || p.NeverHeld?
    case AwaitingBoard => p.Fresh? || p.NeverHeld?
    case HasBoard =>
      && r.board.Some?
      && (r.child.MainChild? ==> p == Running(r.board.value, !r.listening))
      && (r.child.NoChild? ==> p.AfterMain? && p.b == r.board.value && p.hung == !r.listening)
    case ClosingBoard =>
      && r.board.Some? && (p.AfterClose? || (p.InClose? && p.late)) && p.b == r.board.value
  }

  lemma LeavingTracks(p: State, x: nat, y: nat)
    requires ReadyToClose(p, x) && TracksLeaving(p, x) && HolderOwns(p, x)
    requires p.sessions[x].status.HasBoard? ==> p.sessions[x].child.NoChild? && p.boards[p.sessions[x].board.value].closeCommand == ""
    requires p.sessions[x].board.Some? <==> p.sessions[x].status.HasBoard? || p.sessions[x].status.ClosingBoard?
    requires y != x ==> Tracks(p, y)
    ensures Tracks(Leaving(p, x), y)
  {
    var l := Leaving(p, x);
    assert Closable(l) == Closable(p);
    if p.sessions[x].board.Some? {
      PhaseAppend(p.log, Release(x, p.sessions[x].board.value), y, Closable(p));
    }
  }

  lemma GiveTracks(s: State, sid: nat, b: nat, y: nat)
    requires sid in s.sessions && b < |s.boards| && s.sessions[sid].listening && Tracks(s, y)
    requires s.sessions[sid].status.AwaitingBoard?
    ensures Tracks(Give(s, sid, b), y)
  {
    assert Closable(Give(s, sid, b)) == Closable(s);
    PhaseAppend(s.log, Acquire(sid, b), y, Closable(s));
  }

  lemma SessionCloseTracks(p: State, x: nat, y: nat)
    requires ReadyToClose(p, x) && TracksLeaving(p, x)
    requires p.sessions[x].board.Some? <==> p.sessions[x].status.HasBoard? || p.sessions[x].status.ClosingBoard?
    requires y != x ==> Tracks(p, y)
    ensures Tracks(SessionClose(p, x), y)
  {
    assert HolderOwns(p, x);
    var r := p.sessions[x];
    var s' := SessionClose(p, x);
    if r.status.HasBoard? && !r.child.NoChild? {
      PhaseAppend(p.log, Kill(x), y, Closable(p));
      assert Closable(s') == Closable(p);
    } else if r.status.HasBoard? && p.boards[r.board.value].closeCommand != "" {
      PhaseAppend(p.log, StartClose(x, r.board.value), y, Closable(p));
      assert Closable(s') == Closable(p);
    } else {
      LeavingTracks(p, x, y);
      var i := DaemonCloseOutcome(p, x);
      var l := Leaving(p, x);
      if i < |l.queue| {
        assert Consistent(p, l.queue[i]);
        assert Tracks(l.(queue := Remove(l.queue, l.queue[i])), y);
        GiveTracks(l.(queue := Remove(l.queue, l.queue[i])), l.queue[i], r.board.value, y);
      }
    }
  }

  /** One more action of session `x`, whose child or watcher changes. */
  lemma LoggedTracks(s: State, p: State, x: nat, a: Action, y: nat)
    requires x in s.sessions && Tracks(s, y) && a.sid == x && y != x
    requires p.boards == s.boards && p.counter == s.counter && p.log == s.log + [a]
    requires y in p.sessions <==> y in s.sessions
    requires y in s.sessions ==> p.sessions[y] == s.sessions[y]
    ensures Tracks(p, y)
  {
    assert Closable(p) == Closable(s);
    PhaseAppend(s.log, a, y, Closable(s));
  }

  lemma PreparedHangUpTracks(s: State, x: nat, y: nat)
    requires Invariant(s) && Enabled(s, ClientHangsUp(x)) && Tracks(s, y) && Tracks(s, x)
    ensures TracksLeaving(HungUp(s, x), x) && (y != x ==> Tracks(HungUp(s, x), y))
  {
    var p := HungUp(s, x);
    assert Closable(p) == Closable(s) && Consistent(s, x);
    PhaseAppend(s.log, Hangup(x), x, Closable(s));
    if y != x { LoggedTracks(s, p, x, Hangup(x), y); }
  }

  lemma PreparedExitTracks(s: State, x: nat, y: nat)
    requires Invariant(s) && Enabled(s, ChildExits(x)) && Tracks(s, y) && Tracks(s, x)
    ensures TracksLeaving(Reaped(s, x), x) && (y != x ==> Tracks(Reaped(s, x), y))
  {
    var p := Reaped(s, x);
    var a := if s.sessions[x].child.CloseChild? then ReapClose(x) else ReapMain(x);
    assert Closable(p) == Closable(s) && Consistent(s, x);
    PhaseAppend(s.log, a, x, Closable(s));
    if y != x { LoggedTracks(s, p, x, a, y); }
  }

  lemma PreparedSetupTracks(s: State, e: Event, y: nat)
    requires Invariant(s) && Enabled(s, e) && FirstSetup(s, e) && Closes(s, e) && e.Setup? && Tracks(s, y) && Tracks(s, e.sid)
    ensures TracksLeaving(Prepared(s, e), e.sid) && (y != e.sid ==> Tracks(Prepared(s, e), y))
  {
    assert Consistent(s, e.sid);
    assert Closable(Prepared(s, e)) == Closable(s);
  }

  lemma PreparedTracks(s: State, e: Event, y: nat)
    requires Invariant(s) && Enabled(s, e) && FirstSetup(s, e) && Closes(s, e) && Tracks(s, y) && Tracks(s, e.sid)
    ensures TracksLeaving(Prepared(s, e), e.sid) && (y != e.sid ==> Tracks(Prepared(s, e), y))
    ensures var x := Prepared(s, e).sessions[e.sid];
            x.board.Some? <==> x.status.HasBoard? || x.status.ClosingBoard?
  {
    assert Consistent(s, e.sid);
    match e
    case ClientHangsUp(x) => PreparedHangUpTracks(s, x, y);
    case ChildExits(x) => PreparedExitTracks(s, x, y);
    case Setup(_, _, _, _, _) => PreparedSetupTracks(s, e, y);
  }

  lemma SetupTracks(s: State, e: Event, y: nat)
    requires Invariant(s) && Enabled(s, e) && FirstSetup(s, e) && e.Setup? && !Closes(s, e) && Tracks(s, y) && Tracks(s, e.sid)
    ensures Tracks(Step(s, e), y)
  {
    assert Consistent(s, e.sid);
    var s1 := Asking(s, e.sid, e.name, e.ppid);
    var found := FindAvailable(s1.boards, User(s1.sessions[e.sid]));
    assert Closable(s1) == Closable(s);
    assert Tracks(s1, y);
    if found.Some? {
      GiveTracks(s1, e.sid, found.value, y);
    } else {
      assert Closable(Step(s, e)) == Closable(s);
    }
  }

  lemma StepTracks(s: State, e: Event, y: nat)
    requires Invariant(s) && Enabled(s, e) && FirstSetup(s, e) && forall sid: nat :: Tracks(s, sid)
    ensures Tracks(Step(s, e), y)
  {
    assert Tracks(s, y);
    if Closes(s, e) {
      assert Tracks(s, e.sid);
      ClosingStep(s, e);
      PreparedTracks(s, e, y);
      SessionCloseTracks(Prepared(s, e), e.sid, y);
    } else if e.Setup? {
      assert Tracks(s, e.sid);
      SetupTracks(s, e, y);
    } else {
      assert Closable(Step(s, e)) == Closable(s);
    }
  }

  lemma {:induction false} RunTracks(s: State, es: seq<Event>, y: nat)
    requires Invariant(s) && Possible(s, es) && OneSetupEach(s, es) && forall sid: nat :: Tracks(s, sid)
    ensures Tracks(Run(s, es), y)
    decreases |es|
  {
    if es == [] {
      assert Tracks(s, y);
    } else {
      StepKeepsInvariant(s, es[0]);
      forall sid: nat ensures Tracks(Step(s, es[0]), sid) {
        StepTracks(s, es[0], sid);
      }
      RunTracks(Step(s, es[0]), es[1..], y);
    }
  }

  // ---------------------------------------------------------------------------
  // What the phases say about the log

  predicate NoneBut(log: seq<Action>, sid: nat, c: int) {
    forall i :: 0 <= i < |log| && log[i].StartClose? && log[i].sid == sid ==> i == c
  }

  predicate NoRelease(log: seq<Action>, sid: nat) {
    forall i :: 0 <= i < |log| ==> !(log[i].Release? && log[i].sid == sid)
  }

  predicate HungUpBefore(log: seq<Action>, sid: nat, m: nat)
    requires m <= |log|
  {
    exists h :: 0 <= h < m && log[h] == Hangup(sid)
  }

  /** Action `a` happens strictly between positions `i` and `j`. */
  predicate Between(log: seq<Action>, a: Action, i: nat, j: nat)
    requires j <= |log|
  {
    exists k :: i < k < j && log[k] == a
  }

  predicate Explained(log: seq<Action>, sid: nat, closable: set<nat>, p: Phase) {
    match p
    case Fresh => NoneBut(log, sid, -1) && NoRelease(log, sid) && !HungUpBefore(log, sid, |log|)
    case NeverHeld => NoneBut(log, sid, -1) && NoRelease(log, sid)
    case Running(b, hung) => NoneBut(log, sid, -1) && NoRelease(log, sid) && hung == HungUpBefore(log, sid, |log|)
    case AfterMain(b, hung, m) =>
      && m < |log| && log[m] == ReapMain(sid)
      && NoneBut(log, sid, -1) && NoRelease(log, sid) && hung == HungUpBefore(log, sid, m)
    case InClose(b, hung, m, c, late) =>
      && b in closable && m < c < |log| && log[m] == ReapMain(sid) && log[c] == StartClose(sid, b)
      && NoneBut(log, sid, c) && NoRelease(log, sid) && hung == HungUpBefore(log, sid, m) && !(hung && late)
      && late == Between(log, Hangup(sid), c, |log|) && !Between(log, ReapClose(sid), c, |log|)
    case AfterClose(b, hung, m, c) =>
      && b in closable && m < c < |log| && log[m] == ReapMain(sid) && log[c] == StartClose(sid, b)
      && NoneBut(log, sid, c) && NoRelease(log, sid) && hung == HungUpBefore(log, sid, m)
      && !Between(log, Hangup(sid), c, |log|) && Between(log, ReapClose(sid), c, |log|)
    case Gone(b, hung, m, c, r) =>
      && m < r < |log| && log[m] == ReapMain(sid) && log[r] == Release(sid, b)
      && hung == HungUpBefore(log, sid, m)
      && (b in closable ==>
            && m < c < r && log[c] == StartClose(sid, b) && NoneBut(log, sid, c)
            && (Between(log, ReapClose(sid), c, r) <==> !Between(log, Hangup(sid), c, r))
            && (hung ==> Between(log, ReapClose(sid), c, r)))
      && (b !in closable ==> NoneBut(log, sid, -1))
      && (forall i :: 0 <= i < |log| && log[i].Release? && log[i].sid == sid ==> i == r)
    case Broken => true
  }

  lemma BetweenAppend(log: seq<Action>, a: Action, x: Action, i: nat, j: nat)
    requires j <= |log| && i < |log|
    ensures Between(log + [a], x, i, j) == Between(log, x, i, j)
    ensures Between(log + [a], x, i, |log| + 1) == (Between(log, x, i, |log|) || a == x)
  {
    var l := log + [a];
    assert l[|log|] == a && forall k :: 0 <= k < |log| ==> l[k] == log[k];
  }

  lemma HungUpAppend(log: seq<Action>, a: Action, sid: nat, m: nat)
    requires m <= |log|
    ensures HungUpBefore(log + [a], sid, m) == HungUpBefore(log, sid, m)
    ensures HungUpBefore(log + [a], sid, |log| + 1) == (HungUpBefore(log, sid, |log|) || a == Hangup(sid))
  {
    var l := log + [a];
    assert l[|log|] == a && forall k :: 0 <= k < |log| ==> l[k] == log[k];
  }

  function Next(p: Phase, a: Action, at: nat, sid: nat, closable: set<nat>): Phase {
    if a.sid == sid then Advance(p, a, at, closable) else p
  }

  lemma EarlyStep(log: seq<Action>, a: Action, sid: nat, closable: set<nat>, p: Phase)
    requires Explained(log, sid, closable, p) && (p.Fresh? || p.NeverHeld? || p.Running?)
    ensures Explained(log + [a], sid, closable, Next(p, a, |log|, sid, closable))
  {
    HungUpAppend(log, a, sid, |log|);
  }

  lemma AfterMainStep(log: seq<Action>, a: Action, sid: nat, closable: set<nat>, p: Phase)
    requires Explained(log, sid, closable, p) && p.AfterMain?
    ensures Explained(log + [a], sid, closable, Next(p, a, |log|, sid, closable))
  {
    HungUpAppend(log, a, sid, p.m);
    assert !Between(log + [a], Hangup(sid), |log|, |log| + 1) && !Between(log + [a], ReapClose(sid), |log|, |log| + 1);
  }

  lemma InCloseStep(log: seq<Action>, a: Action, sid: nat, closable: set<nat>, p: Phase)
    requires Explained(log, sid, closable, p) && p.InClose?
    ensures Explained(log + [a], sid, closable, Next(p, a, |log|, sid, closable))
  {
    HungUpAppend(log, a, sid, p.m);
    BetweenAppend(log, a, Hangup(sid), p.c, |log|);
    BetweenAppend(log, a, ReapClose(sid), p.c, |log|);
  }

  lemma AfterCloseStep(log: seq<Action>, a: Action, sid: nat, closable: set<nat>, p: Phase)
    requires Explained(log, sid, closable, p) && p.AfterClose?
    ensures Explained(log + [a], sid, closable, Next(p, a, |log|, sid, closable))
  {
    HungUpAppend(log, a, sid, p.m);
    BetweenAppend(log, a, Hangup(sid), p.c, |log|);
    BetweenAppend(log, a, ReapClose(sid), p.c, |log|);
  }

  lemma GoneStep(log: seq<Action>, a: Action, sid: nat, closable: set<nat>, p: Phase)
    requires Explained(log, sid, closable, p) && p.Gone?
    ensures Explained(log + [a], sid, closable, Next(p, a, |log|, sid, closable))
  {
    HungUpAppend(log, a, sid, p.m);
    if p.b in closable {
      BetweenAppend(log, a, Hangup(sid), p.c, p.r);
      BetweenAppend(log, a, ReapClose(sid), p.c, p.r);
    }
  }

  lemma ExplainedStep(log: seq<Action>, a: Action, sid: nat, closable: set<nat>, p: Phase)
    requires Explained(log, sid, closable, p)
    ensures Explained(log + [a], sid, closable, Next(p, a, |log|, sid, closable))
  {
    match p
    case AfterMain(_, _, _) => AfterMainStep(log, a, sid, closable, p);
    case InClose(_, _, _, _, _) => InCloseStep(log, a, sid, closable, p);
    case AfterClose(_, _, _, _) => AfterCloseStep(log, a, sid, closable, p);
    case Gone(_, _, _, _, _) => GoneStep(log, a, sid, closable, p);
    case Broken =>
    case _ => EarlyStep(log, a, sid, closable, p);
  }

  lemma {:induction false} PhaseIsExplained(log: seq<Action>, sid: nat, closable: set<nat>)
    ensures Explained(log, sid, closable, PhaseOf(log, sid, closable))
  {
    if log != [] {
      var before := log[..|log| - 1];
      PhaseIsExplained(before, sid, closable);
      assert log == before + [log[|log| - 1]];
      ExplainedStep(before, log[|log| - 1], sid, closable, PhaseOf(before, sid, closable));
    }
  }

  // ---------------------------------------------------------------------------
  // The closing protocol

  lemma ReachableLogExplained(s0: State, es: seq<Event>, sid: nat)
    requires Initial(s0) && Possible(s0, es) && OneSetupEach(s0, es)
    ensures var s := Run(s0, es);
            var p := PhaseOf(s.log, sid, Closable(s));
            Invariant(s) && !p.Broken? && Explained(s.log, sid, Closable(s), p) && Tracks(s, sid)
  {
    RunKeepsInvariant(s0, es);
    RunTracks(s0, es, sid);
    var s := Run(s0, es);
    PhaseIsExplained(s.log, sid, Closable(s));
  }

  /**
    On every run, a board with a close command is released by a session only
    after its main process was reaped and then, exactly once, the close command
    started.  The close command was reaped as well before the release exactly when
    the client did not hang up while it ran, and so in particular when the client
    had hung up before the main process was reaped.
   */
  lemma ReleaseFollowsCloseCommand(s0: State, es: seq<Event>, sid: nat, b: nat, r: nat)
    requires Initial(s0) && Possible(s0, es) && OneSetupEach(s0, es)
    requires var s := Run(s0, es); r < |s.log| && s.log[r] == Release(sid, b) && b in Closable(s)
    ensures var log := Run(s0, es).log;
            exists m: nat, c: nat :: m < c < r
              && log[m] == ReapMain(sid) && log[c] == StartClose(sid, b) && NoneBut(log, sid, c)
              && (Between(log, ReapClose(sid), c, r) <==> !Between(log, Hangup(sid), c, r))
              && (HungUpBefore(log, sid, m) ==> Between(log, ReapClose(sid), c, r))
  {
    ReachableLogExplained(s0, es, sid);
  }

  /** One board with a close command, and the session of its first user after `n` events. */
  function OneBoard(n: nat): State
    requires n <= 3
  {
    var free, taken := Board("off", "", None), Board("off", "", Some(0));
    var x := Session("user", "", 0, Created, None, NoChild, true, 0);
    match n
    case 0 => State([free], map[], [], 0, [])
    case 1 => State([free], map[0 := x], [], 1, [])
    case 2 => State([taken], map[0 := x.(status := HasBoard, board := Some(0), child := MainChild)], [], 1, [Acquire(0, 0)])
    case _ => State([taken], map[0 := x.(status := ClosingBoard, board := Some(0), child := CloseChild)], [], 1,
                    [Acquire(0, 0), ReapMain(0), StartClose(0, 0)])
  }

  function OneBoardEvent(n: nat): Event {
    match n
    case 0 => ClientConnects("user", 0)
    case 1 => Setup(0, Connect, "", 0, false)
    case _ => ChildExits(0)
  }

  lemma FirstConnects()
    ensures WellFormed(OneBoard(0)) && Step(OneBoard(0), OneBoardEvent(0)) == OneBoard(1)
  {
    assert Step(OneBoard(0), OneBoardEvent(0)).sessions == OneBoard(1).sessions;
  }

  lemma FirstIsGivenTheBoard()
    ensures WellFormed(OneBoard(1)) && Enabled(OneBoard(1), OneBoardEvent(1))
    ensures Step(OneBoard(1), OneBoardEvent(1)) == OneBoard(2)
  {
    var t := Step(OneBoard(1), OneBoardEvent(1));
    assert t.boards == OneBoard(2).boards && t.sessions == OneBoard(2).sessions;
  }

  lemma FirstExits()
    ensures WellFormed(OneBoard(2)) && Enabled(OneBoard(2), OneBoardEvent(2))
    ensures Step(OneBoard(2), OneBoardEvent(2)) == OneBoard(3)
  {
    var t := Step(OneBoard(2), OneBoardEvent(2));
    assert t.sessions == OneBoard(3).sessions && t.log == OneBoard(3).log;
  }

  lemma OneBoardStep(n: nat)
    requires n < 3
    ensures WellFormed(OneBoard(n)) && Enabled(OneBoard(n), OneBoardEvent(n)) && FirstSetup(OneBoard(n), OneBoardEvent(n))
    ensures Step(OneBoard(n), OneBoardEvent(n)) == OneBoard(n + 1)
  {
    match n
    case 0 => FirstConnects();
    case 1 => FirstIsGivenTheBoard();
    case 2 => FirstExits();
  }

  lemma LateHangUp()
    ensures WellFormed(OneBoard(3)) && Enabled(OneBoard(3), ClientHangsUp(0))
    ensures Step(OneBoard(3), ClientHangsUp(0)).log ==
      [Acquire(0, 0), ReapMain(0), StartClose(0, 0), Hangup(0), Release(0, 0)]
  {
    OneBoardStep(2);
    StepKeepsWellFormed(OneBoard(2), OneBoardEvent(2));
    var p := HungUp(OneBoard(3), 0);
    assert HolderOwns(OneBoard(3), 0);
    UpdateKeepsWellFormed(OneBoard(3), 0, p.sessions[0], p.log);
    var l := Leaving(p, 0);
    assert l.queue == [];
    assert SessionClose(p, 0) == l;
  }

  lemma PossibleWithOneSetup(s: State, e: Event, es: seq<Event>)
    requires WellFormed(s) && Enabled(s, e) && FirstSetup(s, e) && WellFormed(Step(s, e))
    requires Possible(Step(s, e), es) && OneSetupEach(Step(s, e), es)
    ensures Possible(s, [e] + es) && OneSetupEach(s, [e] + es) && Run(s, [e] + es) == Run(Step(s, e), es)
  {
    assert ([e] + es)[1..] == es;
  }

  const EARLY := [Acquire(0, 0), ReapMain(0), StartClose(0, 0), Hangup(0), Release(0, 0)]

  lemma {:induction false} OneBoardRun(n: nat) returns (es: seq<Event>)
    requires n <= 3
    ensures WellFormed(OneBoard(n)) && Possible(OneBoard(n), es) && OneSetupEach(OneBoard(n), es)
    ensures Run(OneBoard(n), es).log == EARLY
    decreases 3 - n
  {
    if n == 3 {
      LateHangUp();
      StepKeepsWellFormed(OneBoard(3), ClientHangsUp(0));
      PossibleWithOneSetup(OneBoard(3), ClientHangsUp(0), []);
      es := [ClientHangsUp(0)] + [];
    } else {
      var rest := OneBoardRun(n + 1);
      OneBoardStep(n);
      PossibleWithOneSetup(OneBoard(n), OneBoardEvent(n), rest);
      es := [OneBoardEvent(n)] + rest;
    }
  }

  /** A client that hangs up while the close command runs: the board is released and nobody has reaped the command. */
  lemma HangUpReleasesEarly() returns (s0: State, es: seq<Event>)
    ensures Initial(s0) && Possible(s0, es) && OneSetupEach(s0, es) && Run(s0, es).log == EARLY
  {
    s0 := OneBoard(0);
    es := OneBoardRun(0);
  }

  /** No session starts more than one close command, and never before its main process is reaped. */
  lemma CloseCommandStartsOnce(s0: State, es: seq<Event>, sid: nat, b: nat, c: nat)
    requires Initial(s0) && Possible(s0, es) && OneSetupEach(s0, es)
    requires c < |Run(s0, es).log| && Run(s0, es).log[c] == StartClose(sid, b)
    ensures var log := Run(s0, es).log;
            NoneBut(log, sid, c) && exists m :: 0 <= m < c && log[m] == ReapMain(sid)
  {
    ReachableLogExplained(s0, es, sid);
  }

  /** A session gives back a board at most once, and it is gone from then on. */
  lemma ReleaseIsFinal(s0: State, es: seq<Event>, sid: nat, b: nat, r: nat)
    requires Initial(s0) && Possible(s0, es) && OneSetupEach(s0, es)
    requires r < |Run(s0, es).log| && Run(s0, es).log[r] == Release(sid, b)
    ensures var s := Run(s0, es);
            sid !in s.sessions
            && forall i :: 0 <= i < |s.log| && s.log[i].Release? && s.log[i].sid == sid ==> i == r
  {
    ReachableLogExplained(s0, es, sid);
  }

  // ---------------------------------------------------------------------------
  // Two exits are enough

  function Exits(es: seq<Event>, sid: nat): nat {
    if es == [] then 0 else (if es[0] == ChildExits(sid) then 1 else 0) + Exits(es[1..], sid)
  }

  /** How many children of a session with a board have still to be reaped. */
  function Remaining(s: State, sid: nat): nat
    requires WellFormed(s) && sid in s.sessions && DoneWaiting(s, sid)
  {
    assert HolderOwns(s, sid);
    if s.sessions[sid].status.HasBoard? && s.boards[s.sessions[sid].board.value].closeCommand != "" then 2 else 1
  }

  /** Only the session's own status and board count. */
  lemma SameRemaining(s: State, t: State, sid: nat)
    requires WellFormed(s) && WellFormed(t) && SameBoards(s, t) && sid in s.sessions && sid in t.sessions
    requires DoneWaiting(s, sid) && s.counter <= t.counter
    requires t.sessions[sid].status == s.sessions[sid].status && t.sessions[sid].board == s.sessions[sid].board
    ensures DoneWaiting(t, sid) && Remaining(t, sid) == Remaining(s, sid)
  {
    assert HolderOwns(s, sid);
  }

  lemma CloseKeepsOtherHolder(p: State, x: nat, sid: nat)
    requires ReadyToClose(p, x) && sid in p.sessions && DoneWaiting(p, sid) && sid != x
    ensures sid in SessionClose(p, x).sessions && SessionClose(p, x).sessions[sid] == p.sessions[sid]
  {
    assert HolderOwns(p, x);
    if SessionClose(p, x) == DaemonClose(p, x) {
      var i := DaemonCloseOutcome(p, x);
      if i < |Leaving(p, x).queue| {
        assert Consistent(p, p.queue[i]);
      }
    }
  }

  lemma CloseCountsItself(p: State, x: nat)
    requires ReadyToClose(p, x) && DoneWaiting(p, x) && x in SessionClose(p, x).sessions
    ensures DoneWaiting(SessionClose(p, x), x) && WellFormed(SessionClose(p, x))
    ensures Remaining(SessionClose(p, x), x) == Remaining(p, x) - if p.sessions[x].child.NoChild? then 1 else 0
  {
    assert HolderOwns(p, x);
    SessionCloseKeepsWellFormed(p, x);
    if SessionClose(p, x) == DaemonClose(p, x) {
      var i := DaemonCloseOutcome(p, x);
    }
  }

  lemma SessionCloseCountsDown(p: State, x: nat, sid: nat)
    requires ReadyToClose(p, x) && sid in p.sessions && DoneWaiting(p, sid)
    requires sid in SessionClose(p, x).sessions
    ensures DoneWaiting(SessionClose(p, x), sid) && WellFormed(SessionClose(p, x))
    ensures Remaining(SessionClose(p, x), sid) ==
            Remaining(p, sid) - if sid == x && p.sessions[x].child.NoChild? then 1 else 0
  {
    if sid == x {
      CloseCountsItself(p, x);
    } else {
      SessionCloseKeepsWellFormed(p, x);
      SessionCloseFrame(p, x);
      CloseKeepsOtherHolder(p, x, sid);
      SameRemaining(p, SessionClose(p, x), sid);
    }
  }

  lemma PreparedRemaining(s: State, e: Event, sid: nat)
    requires Invariant(s) && Enabled(s, e) && FirstSetup(s, e) && Closes(s, e)
    requires sid in s.sessions && DoneWaiting(s, sid)
    ensures var p := Prepared(s, e);
            && WellFormed(p) && sid in p.sessions && DoneWaiting(p, sid) && Remaining(p, sid) == Remaining(s, sid)
            && (sid == e.sid ==> (p.sessions[sid].child.NoChild? <==> e == ChildExits(sid)))
  {
    ClosingStep(s, e);
    assert HolderOwns(s, sid) && Consistent(s, sid) && HolderOwns(Prepared(s, e), sid);
  }

  lemma QuietStepKeepsHolder(s: State, e: Event, sid: nat)
    requires Invariant(s) && Enabled(s, e) && FirstSetup(s, e) && !Closes(s, e)
    requires sid in s.sessions && DoneWaiting(s, sid)
    ensures sid in Step(s, e).sessions
    ensures Step(s, e).sessions[sid].status == s.sessions[sid].status && Step(s, e).sessions[sid].board == s.sessions[sid].board
  {
  }

  lemma QuietStepCountsNothing(s: State, e: Event, sid: nat)
    requires Invariant(s) && Enabled(s, e) && FirstSetup(s, e) && !Closes(s, e)
    requires sid in s.sessions && DoneWaiting(s, sid)
    ensures var s' := Step(s, e);
            sid in s'.sessions && DoneWaiting(s', sid) && WellFormed(s') && Remaining(s', sid) == Remaining(s, sid)
  {
    QuietStepKeepsHolder(s, e, sid);
    StepKeepsWellFormed(s, e);
    StepFrame(s, e);
    SameRemaining(s, Step(s, e), sid);
  }

  lemma StepCountsDown(s: State, e: Event, sid: nat)
    requires Invariant(s) && Enabled(s, e) && FirstSetup(s, e)
    requires sid in s.sessions && DoneWaiting(s, sid) && sid in Step(s, e).sessions
    ensures DoneWaiting(Step(s, e), sid) && WellFormed(Step(s, e))
    ensures Remaining(Step(s, e), sid) == Remaining(s, sid) - if e == ChildExits(sid) then 1 else 0
  {
    if Closes(s, e) {
      ClosingStep(s, e);
      PreparedRemaining(s, e, sid);
      SessionCloseCountsDown(Prepared(s, e), e.sid, sid);
    } else {
      QuietStepCountsNothing(s, e, sid);
    }
  }

  /**
    A session that was given a board is gone after at most two exits of its
    children, or one when its board has no close command.
   */
  lemma {:induction false} GoneWithinTwoExits(s: State, es: seq<Event>, sid: nat)
    requires Invariant(s) && Possible(s, es) && OneSetupEach(s, es)
    requires sid in s.sessions && DoneWaiting(s, sid) && sid in Run(s, es).sessions
    ensures Exits(es, sid) < Remaining(s, sid) <= 2
    decreases |es|
  {
    if es != [] {
      StepKeepsInvariant(s, es[0]);
      var s1 := Step(s, es[0]);
      if sid in s1.sessions {
        StepCountsDown(s, es[0], sid);
        GoneWithinTwoExits(s1, es[1..], sid);
      } else {
        StepStaysDone(s, es[0], sid);
        GoneStaysGone(s1, es[1..], sid);
        assert false;
      }
    }
  }

  lemma StepStaysGone(s: State, e: Event, sid: nat)
    requires WellFormed(s) && Enabled(s, e) && sid !in s.sessions && sid < s.counter
    ensures sid !in Step(s, e).sessions && sid < Step(s, e).counter
  {
    StepFrame(s, e);
  }

  lemma {:induction false} GoneStaysGone(s: State, es: seq<Event>, sid: nat)
    requires WellFormed(s) && Possible(s, es) && sid !in s.sessions && sid < s.counter
    ensures sid !in Run(s, es).sessions
    decreases |es|
  {
    if es != [] {
      StepKeepsWellFormed(s, es[0]);
      StepStaysGone(s, es[0], sid);
      GoneStaysGone(Step(s, es[0]), es[1..], sid);
    }
  }
}
