/**
  Hanging up kills: over every run, a client that hangs up while its process runs has that
  process killed at once, and nothing else is ever killed.
 */
module AllocatorKills {
  import opened Basics
  import opened Allocator
  import opened AllocatorInvariant
  import opened AllocatorFairness
  import opened AllocatorClosing
  import opened AllocatorOutcomes

  predicate AcquiredBefore(log: seq<Action>, sid: nat, h: nat)
    requires h <= |log|
  {
    exists i :: 0 <= i < h && log[i].Acquire? && log[i].sid == sid
  }

  predicate ReapedBefore(log: seq<Action>, sid: nat, h: nat)
    requires h <= |log|
  {
    exists i :: 0 <= i < h && log[i] == ReapMain(sid)
  }

  /** At position `h` the session has a board whose main process is not reaped yet. */
  predicate Runs(log: seq<Action>, sid: nat, h: nat)
    requires h <= |log|
  {
    AcquiredBefore(log, sid, h) && !ReapedBefore(log, sid, h)
  }

  /** Every hang-up of a session whose process runs is followed by the kill, and every kill is such a one. */
  predicate KillsOnHangup(log: seq<Action>, sid: nat) {
    && (forall h :: 0 <= h < |log| && log[h] == Hangup(sid) && Runs(log, sid, h) ==> h + 1 < |log| && log[h + 1] == Kill(sid))
    && (forall k :: 0 <= k < |log| && log[k] == Kill(sid) ==> k > 0 && log[k - 1] == Hangup(sid) && Runs(log, sid, k - 1))
  }

  // ---------------------------------------------------------------------------
  // Longer logs

  lemma RunsInLongerLog(log: seq<Action>, more: seq<Action>, sid: nat, h: nat)
    requires h <= |log|
    ensures Runs(log + more, sid, h) == Runs(log, sid, h)
  {
    var l := log + more;
    assert forall i :: 0 <= i < |log| ==> l[i] == log[i];
  }

  lemma RunsNext(log: seq<Action>, a: Action, sid: nat)
    ensures AcquiredBefore(log + [a], sid, |log| + 1) <==> AcquiredBefore(log, sid, |log|) || (a.Acquire? && a.sid == sid)
    ensures ReapedBefore(log + [a], sid, |log| + 1) <==> ReapedBefore(log, sid, |log|) || a == ReapMain(sid)
  {
    var l := log + [a];
    assert l[|log|] == a && forall i :: 0 <= i < |log| ==> l[i] == log[i];
  }

  /** The phase of a session tells whether its process runs. */
  lemma {:induction false} PhaseTellsRuns(log: seq<Action>, sid: nat, closable: set<nat>)
    ensures var p := PhaseOf(log, sid, closable);
      && (p.Fresh? || p.NeverHeld? ==> !AcquiredBefore(log, sid, |log|) && !ReapedBefore(log, sid, |log|))
      && (p.Running? ==> AcquiredBefore(log, sid, |log|) && !ReapedBefore(log, sid, |log|))
      && (p.AfterMain? || p.InClose? || p.AfterClose? || p.Gone? ==> ReapedBefore(log, sid, |log|))
    decreases log
  {
    if log != [] {
      var init, a := log[..|log| - 1], log[|log| - 1];
      assert log == init + [a];
      PhaseTellsRuns(init, sid, closable);
      RunsNext(init, a, sid);
    }
  }

  lemma RunsIffHasBoard(s: State, sid: nat)
    requires Tracks(s, sid)
    ensures Runs(s.log, sid, |s.log|) <==> sid in s.sessions && s.sessions[sid].status.HasBoard?
  {
    PhaseTellsRuns(s.log, sid, Closable(s));
  }

  /** What is appended keeps to the law by itself. */
  predicate MoreKills(log: seq<Action>, more: seq<Action>, sid: nat) {
    && (forall h :: 0 <= h < |more| && more[h] == Hangup(sid) && Runs(log + more, sid, |log| + h) ==>
          h + 1 < |more| && more[h + 1] == Kill(sid))
    && (forall k :: 0 <= k < |more| && more[k] == Kill(sid) ==>
          k > 0 && more[k - 1] == Hangup(sid) && Runs(log + more, sid, |log| + k - 1))
  }

  lemma AppendKeepsLaw(log: seq<Action>, more: seq<Action>, sid: nat)
    requires KillsOnHangup(log, sid) && MoreKills(log, more, sid)
    ensures KillsOnHangup(log + more, sid)
  {
    var l := log + more;
    forall h | 0 <= h < |l| && l[h] == Hangup(sid) && Runs(l, sid, h) ensures h + 1 < |l| && l[h + 1] == Kill(sid) {
      if h < |log| {
        RunsInLongerLog(log, more, sid, h);
      } else {
        assert more[h - |log|] == l[h];
      }
    }
    forall k | 0 <= k < |l| && l[k] == Kill(sid) ensures k > 0 && l[k - 1] == Hangup(sid) && Runs(l, sid, k - 1) {
      if k < |log| {
        RunsInLongerLog(log, more, sid, k - 1);
      } else {
        assert more[k - |log|] == l[k];
      }
    }
  }

  // ---------------------------------------------------------------------------
  // What events append

  predicate Quiet(more: seq<Action>) {
    forall i :: 0 <= i < |more| ==> !more[i].Hangup? && !more[i].Kill?
  }

  /** A setup, a new client and a proxy log no hang-up and no kill. */
  lemma SetupIsQuiet(s: State, e: Event) returns (more: seq<Action>)
    requires Invariant(s) && Enabled(s, e) && FirstSetup(s, e) && e.Setup?
    ensures Step(s, e).log == s.log + more && Quiet(more)
  {
    more := [];
    if e.cmd.ListSessions? {
      ListEndsTheSession(s, e.sid, e.name, e.ppid, e.noWait);
    } else if !NoneSuits(s.boards, NameOf(s.sessions[e.sid], e.name)) {
      var b := ConnectIsServed(s, e.sid, e.name, e.ppid, e.noWait);
      more := [Acquire(e.sid, b)];
    } else if e.noWait {
      ConnectIsRefused(s, e.sid, e.name, e.ppid);
    } else {
      ConnectWaits(s, e.sid, e.name, e.ppid);
    }
  }

  lemma GivenBackLogs(s: State, t: State, sid: nat, b: nat, i: nat, log: seq<Action>, a: Action) returns (more: seq<Action>)
    requires GivenBack(s, t, sid, b, i, log + [a])
    ensures t.log == log + ([a] + more) && Quiet(more)
  {
    more := if i == |s.queue| then [Release(sid, b)] else [Release(sid, b), Acquire(s.queue[i], b)];
    assert log + [a] + more == log + ([a] + more);
  }

  lemma QuietAfter(a: Action, more: seq<Action>)
    requires Quiet(more) && !a.Hangup? && !a.Kill?
    ensures Quiet([a] + more)
  {
  }

  lemma ClosedExitIsQuiet(s: State, sid: nat, b: nat) returns (more: seq<Action>)
    requires Invariant(s) && Enabled(s, ChildExits(sid)) && s.sessions[sid].status == ClosingBoard && s.sessions[sid].board == Some(b)
    ensures Step(s, ChildExits(sid)).log == s.log + more && Quiet(more)
  {
    var i := CloseCommandGivesBack(s, sid, b);
    var rest := GivenBackLogs(s, Step(s, ChildExits(sid)), sid, b, i, s.log, ReapClose(sid));
    more := [ReapClose(sid)] + rest;
    QuietAfter(ReapClose(sid), rest);
  }

  lemma MainExitIsQuiet(s: State, sid: nat, b: nat) returns (more: seq<Action>)
    requires Invariant(s) && Enabled(s, ChildExits(sid)) && s.sessions[sid].status == HasBoard && s.sessions[sid].board == Some(b)
    requires b < |s.boards|
    ensures Step(s, ChildExits(sid)).log == s.log + more && Quiet(more)
  {
    if s.boards[b].closeCommand != "" {
      ExitStartsCloseCommand(s, sid, b);
      more := [ReapMain(sid), StartClose(sid, b)];
    } else {
      var i := ExitGivesBack(s, sid, b);
      var rest := GivenBackLogs(s, Step(s, ChildExits(sid)), sid, b, i, s.log, ReapMain(sid));
      more := [ReapMain(sid)] + rest;
      QuietAfter(ReapMain(sid), rest);
    }
  }

  lemma ExitIsQuiet(s: State, sid: nat) returns (more: seq<Action>)
    requires Invariant(s) && Enabled(s, ChildExits(sid))
    ensures Step(s, ChildExits(sid)).log == s.log + more && Quiet(more)
  {
    assert Consistent(s, sid) && HolderOwns(s, sid);
    if s.sessions[sid].status == ClosingBoard {
      more := ClosedExitIsQuiet(s, sid, s.sessions[sid].board.value);
    } else {
      more := MainExitIsQuiet(s, sid, s.sessions[sid].board.value);
    }
  }

  /** A hang-up is logged first, and no kill with it unless the process runs. */
  lemma OtherHangUpLogs(s: State, sid: nat) returns (more: seq<Action>)
    requires Invariant(s) && Enabled(s, ClientHangsUp(sid)) && s.sessions[sid].status != HasBoard
    ensures Step(s, ClientHangsUp(sid)).log == s.log + ([Hangup(sid)] + more) && Quiet(more)
  {
    assert Consistent(s, sid) && HolderOwns(s, sid);
    if s.sessions[sid].status == ClosingBoard {
      more := ClosingHangUpLogs(s, sid, s.sessions[sid].board.value);
    } else {
      HangUpWithoutBoard(s, sid);
      more := [];
    }
  }

  lemma ClosingHangUpLogs(s: State, sid: nat, b: nat) returns (more: seq<Action>)
    requires Invariant(s) && Enabled(s, ClientHangsUp(sid)) && s.sessions[sid].status == ClosingBoard && s.sessions[sid].board == Some(b)
    ensures Step(s, ClientHangsUp(sid)).log == s.log + ([Hangup(sid)] + more) && Quiet(more)
  {
    var i := HangUpGivesBack(s, sid, b);
    more := GivenBackLogs(s, Step(s, ClientHangsUp(sid)), sid, b, i, s.log, Hangup(sid));
  }

  // ---------------------------------------------------------------------------
  // The law

  lemma KillAppended(log: seq<Action>, x: nat, sid: nat)
    requires KillsOnHangup(log, sid) && Runs(log, x, |log|)
    ensures KillsOnHangup(log + [Hangup(x), Kill(x)], sid)
  {
    RunsInLongerLog(log, [Hangup(x), Kill(x)], x, |log|);
    AppendKeepsLaw(log, [Hangup(x), Kill(x)], sid);
  }

  lemma HangupAppended(log: seq<Action>, x: nat, more: seq<Action>, sid: nat)
    requires KillsOnHangup(log, sid) && !Runs(log, x, |log|) && Quiet(more)
    ensures KillsOnHangup(log + ([Hangup(x)] + more), sid)
  {
    var all := [Hangup(x)] + more;
    RunsInLongerLog(log, all, x, |log|);
    assert forall h :: 0 < h < |all| ==> all[h] == more[h - 1];
    AppendKeepsLaw(log, all, sid);
  }

  lemma HangUpKeepsLaw(s: State, x: nat, sid: nat)
    requires Invariant(s) && Enabled(s, ClientHangsUp(x)) && Tracks(s, x) && KillsOnHangup(s.log, sid)
    ensures KillsOnHangup(Step(s, ClientHangsUp(x)).log, sid)
  {
    RunsIffHasBoard(s, x);
    if s.sessions[x].status == HasBoard {
      HangUpKills(s, x);
      KillAppended(s.log, x, sid);
    } else {
      var more := OtherHangUpLogs(s, x);
      HangupAppended(s.log, x, more, sid);
    }
  }

  lemma StepKeepsLaw(s: State, e: Event, sid: nat)
    requires Invariant(s) && Enabled(s, e) && FirstSetup(s, e) && (forall y: nat :: Tracks(s, y)) && KillsOnHangup(s.log, sid)
    ensures KillsOnHangup(Step(s, e).log, sid)
  {
    match e
    case ClientHangsUp(x) =>
      assert Tracks(s, x);
      HangUpKeepsLaw(s, x, sid);
    case ChildExits(x) =>
      var more := ExitIsQuiet(s, x);
      AppendKeepsLaw(s.log, more, sid);
    case Setup(_, _, _, _, _) =>
      var more := SetupIsQuiet(s, e);
      AppendKeepsLaw(s.log, more, sid);
    case _ =>
  }

  lemma {:induction false} RunKeepsLaw(s: State, es: seq<Event>, sid: nat)
    requires Invariant(s) && Possible(s, es) && OneSetupEach(s, es) && (forall y: nat :: Tracks(s, y)) && KillsOnHangup(s.log, sid)
    ensures KillsOnHangup(Run(s, es).log, sid)
    decreases |es|
  {
    if es != [] {
      StepKeepsInvariant(s, es[0]);
      forall y: nat ensures Tracks(Step(s, es[0]), y) {
        StepTracks(s, es[0], y);
      }
      StepKeepsLaw(s, es[0], sid);
      RunKeepsLaw(Step(s, es[0]), es[1..], sid);
    }
  }

  /**
    Over every run from the start: a hang-up that comes after the session acquired a board and
    before its main process was reaped is followed at once by the kill, and there are no other kills.
   */
  lemma HangingUpKills(s0: State, es: seq<Event>, sid: nat)
    requires Initial(s0) && Possible(s0, es) && OneSetupEach(s0, es)
    ensures KillsOnHangup(Run(s0, es).log, sid)
  {
    RunKeepsLaw(s0, es, sid);
  }

  // ---------------------------------------------------------------------------
  // A run in which a session waits

  const ALICE := Session("alice", "", 0, Created, None, NoChild, true, 0)
  const BOB := Session("bob", "", 0, Created, None, NoChild, true, 0)

  function Holding(x: Session): Session {
    x.(status := HasBoard, board := Some(0), child := MainChild)
  }

  /** One board and two users after `n` events. */
  function TwoUsers(n: nat): State
    requires n <= 6
  {
    var free, first, second := Board("", "", None), Board("", "", Some(0)), Board("", "", Some(1));
    match n
    case 0 => State([free], map[], [], 0, [])
    case 1 => State([free], map[0 := ALICE], [], 1, [])
    case 2 => State([first], map[0 := Holding(ALICE)], [], 1, [Acquire(0, 0)])
    case 3 => State([first], map[0 := Holding(ALICE), 1 := BOB], [], 2, [Acquire(0, 0)])
    case 4 => State([first], map[0 := Holding(ALICE), 1 := BOB.(status := AwaitingBoard)], [1], 2, [Acquire(0, 0)])
    case 5 => State([first], map[0 := Holding(ALICE).(listening := false), 1 := BOB.(status := AwaitingBoard)], [1], 2,
                    [Acquire(0, 0), Hangup(0), Kill(0)])
    case _ => State([second], map[1 := Holding(BOB)], [], 2,
                    [Acquire(0, 0), Hangup(0), Kill(0), ReapMain(0), Release(0, 0), Acquire(1, 0)])
  }

  function TwoUsersEvent(n: nat): Event {
    match n
    case 0 => ClientConnects("alice", 0)
    case 1 => Setup(0, Connect, "", 0, false)
    case 2 => ClientConnects("bob", 0)
    case 3 => Setup(1, Connect, "", 0, false)
    case 4 => ClientHangsUp(0)
    case _ => ChildExits(0)
  }

  lemma TwoUsersArrive(n: nat)
    requires n in {0, 1, 2} && Invariant(TwoUsers(n))
    ensures Enabled(TwoUsers(n), TwoUsersEvent(n)) && FirstSetup(TwoUsers(n), TwoUsersEvent(n))
    ensures Step(TwoUsers(n), TwoUsersEvent(n)) == TwoUsers(n + 1)
  {
    var t := Step(TwoUsers(n), TwoUsersEvent(n));
    assert t.sessions == TwoUsers(n + 1).sessions;
    assert t.boards == TwoUsers(n + 1).boards;
  }

  lemma BobWaits()
    requires Invariant(TwoUsers(3))
    ensures Enabled(TwoUsers(3), TwoUsersEvent(3)) && FirstSetup(TwoUsers(3), TwoUsersEvent(3))
    ensures Step(TwoUsers(3), TwoUsersEvent(3)) == TwoUsers(4)
  {
    ConnectWaits(TwoUsers(3), 1, "", 0);
    assert Step(TwoUsers(3), TwoUsersEvent(3)).sessions == TwoUsers(4).sessions;
  }

  lemma AliceHangsUp()
    requires Invariant(TwoUsers(4))
    ensures Enabled(TwoUsers(4), TwoUsersEvent(4)) && Step(TwoUsers(4), TwoUsersEvent(4)) == TwoUsers(5)
  {
    HangUpKills(TwoUsers(4), 0);
    assert Step(TwoUsers(4), TwoUsersEvent(4)).sessions == TwoUsers(5).sessions;
  }

  lemma BobIsNext(s: State) returns (t: State)
    requires s == TwoUsers(5) && Invariant(s)
    ensures Enabled(s, ChildExits(0)) && t == Step(s, ChildExits(0))
    ensures GivenBack(TwoUsers(5), t, 0, 0, 0, TwoUsers(5).log + [ReapMain(0)])
  {
    t := Step(s, ChildExits(0));
    var i := ExitGivesBack(s, 0, 0);
    assert s.queue[0] == 1 && MayUse(s.boards[0], s.sessions[1]);
    assert i == 0;
  }

  lemma BobIsServed(s: State)
    requires s == TwoUsers(5) && Invariant(s)
    ensures Enabled(s, ChildExits(0)) && Step(s, ChildExits(0)) == TwoUsers(6)
  {
    var t := BobIsNext(s);
    PassedToBob(t);
  }

  lemma PassedToBob(t: State)
    requires GivenBack(TwoUsers(5), t, 0, 0, 0, TwoUsers(5).log + [ReapMain(0)])
    ensures t == TwoUsers(6)
  {
    var s := TwoUsers(5);
    assert s.queue[0] == 1 && s.queue[..0] + s.queue[1..] == [];
    assert t.boards == TwoUsers(6).boards;
    assert t.sessions == TwoUsers(6).sessions;
  }

  lemma TwoUsersStep(n: nat)
    requires n < 6 && Invariant(TwoUsers(n))
    ensures Enabled(TwoUsers(n), TwoUsersEvent(n)) && FirstSetup(TwoUsers(n), TwoUsersEvent(n))
    ensures Step(TwoUsers(n), TwoUsersEvent(n)) == TwoUsers(n + 1)
  {
    if n < 3 {
      TwoUsersArrive(n);
    } else if n == 3 {
      BobWaits();
    } else if n == 4 {
      AliceHangsUp();
    } else {
      BobIsServed(TwoUsers(5));
    }
  }

  lemma {:induction false} TwoUsersRun(n: nat, m: nat) returns (es: seq<Event>)
    requires n <= m <= 6 && Invariant(TwoUsers(n))
    ensures Possible(TwoUsers(n), es) && OneSetupEach(TwoUsers(n), es) && Run(TwoUsers(n), es) == TwoUsers(m)
    decreases m - n
  {
    if n == m {
      es := [];
    } else {
      TwoUsersStep(n);
      StepKeepsInvariant(TwoUsers(n), TwoUsersEvent(n));
      var rest := TwoUsersRun(n + 1, m);
      PossibleWithOneSetup(TwoUsers(n), TwoUsersEvent(n), rest);
      es := [TwoUsersEvent(n)] + rest;
    }
  }

  /** Two users and one board: the second one waits. */
  lemma SecondUserWaits() returns (s0: State, es: seq<Event>)
    ensures Initial(s0) && Possible(s0, es) && OneSetupEach(s0, es)
    ensures var t := Run(s0, es); t.queue == [1] && 1 in t.sessions && t.sessions[1].status == AwaitingBoard
  {
    s0 := TwoUsers(0);
    es := TwoUsersRun(0, 4);
  }

  /** Then the first one hangs up, its process is killed and reaped, and the second one has the board. */
  lemma SecondUserIsServed() returns (s0: State, es: seq<Event>)
    ensures Initial(s0) && Possible(s0, es) && OneSetupEach(s0, es)
    ensures Run(s0, es).log == [Acquire(0, 0), Hangup(0), Kill(0), ReapMain(0), Release(0, 0), Acquire(1, 0)]
  {
    s0 := TwoUsers(0);
    es := TwoUsersRun(0, 6);
  }
}
