/**
  What every event leaves behind, as a client or an administrator sees it: who has a board,
  who waits, who is gone, and what is in the log.
 */
module AllocatorOutcomes {
  import opened Basics
  import opened Allocator
  import opened AllocatorInvariant
  import opened AllocatorFairness

  // ---------------------------------------------------------------------------
  // The words of the outcomes

  /** A board that the user could be given now. */
  predicate Suits(board: Board, user: string) {
    board.owner == None && board.reservedFor in {"", user}
  }

  predicate NoneSuits(boards: seq<Board>, user: string) {
    forall b :: 0 <= b < |boards| ==> !Suits(boards[b], user)
  }

  /** Boards reserved for the user come first, and then those listed earlier. */
  predicate Better(boards: seq<Board>, b: nat, c: nat)
    requires b < |boards| && c < |boards|
  {
    if (boards[b].reservedFor == "") == (boards[c].reservedFor == "") then b < c else boards[b].reservedFor != ""
  }

  predicate Best(boards: seq<Board>, user: string, b: nat) {
    && b < |boards| && Suits(boards[b], user)
    && forall c :: 0 <= c < |boards| && c != b && Suits(boards[c], user) ==> Better(boards, b, c)
  }

  /** The sessions are those of `s`, but for `sid`. */
  predicate OthersStay(s: State, t: State, sid: nat) {
    && (forall y :: y in s.sessions && y != sid ==> y in t.sessions && t.sessions[y] == s.sessions[y])
    && (forall y :: y in t.sessions && y != sid ==> y in s.sessions)
  }

  /** The board of `t` is owned by `owner`, and otherwise the boards are those of `s`. */
  predicate Owned(s: State, t: State, b: nat, owner: Option<nat>) {
    && |t.boards| == |s.boards| && b < |s.boards|
    && t.boards[b] == Board(s.boards[b].closeCommand, s.boards[b].reservedFor, owner)
    && forall c :: 0 <= c < |s.boards| && c != b ==> t.boards[c] == s.boards[c]
  }

  lemma FindAvailableIsBest(boards: seq<Board>, user: string)
    ensures FindAvailable(boards, user).None? <==> NoneSuits(boards, user)
    ensures FindAvailable(boards, user).Some? ==> Best(boards, user, FindAvailable(boards, user).value)
  {
    var r := FindAvailable(boards, user);
    if r.None? {
      forall b | 0 <= b < |boards| ensures !Suits(boards[b], user) { assert !Eligible(boards[b], user); }
    } else {
      assert Suits(boards[r.value], user);
      forall c | 0 <= c < |boards| && c != r.value && Suits(boards[c], user) ensures Better(boards, r.value, c) {
        assert Eligible(boards[c], user);
        assert boards[c].reservedFor != "" ==> ReservedFree(boards[c], user);
      }
    }
  }

  // ---------------------------------------------------------------------------
  // Setup

  function NameOf(x: Session, name: string): string {
    if name != "" then name else x.usernameCred
  }

  /** The session has the board, and its main process is started. */
  predicate Started(x: Session, was: Session, b: nat) {
    x.status == HasBoard && x.board == Some(b) && x.child == MainChild &&
    x == was.(status := x.status, board := x.board, child := x.child)
  }

  /** A first `connect` for which some board is free: the best one is given at once. */
  lemma ConnectIsServed(s: State, sid: nat, name: string, ppid: int, noWait: bool) returns (b: nat)
    requires Invariant(s) && Enabled(s, Setup(sid, Connect, name, ppid, noWait)) && s.sessions[sid].status == Created
    requires !NoneSuits(s.boards, NameOf(s.sessions[sid], name))
    ensures var t, x := Step(s, Setup(sid, Connect, name, ppid, noWait)), s.sessions[sid];
      && Best(s.boards, NameOf(x, name), b) && Owned(s, t, b, Some(sid))
      && sid in t.sessions && Started(t.sessions[sid], x.(username := name, ppid := ppid), b)
      && OthersStay(s, t, sid) && t.queue == s.queue && t.counter == s.counter && t.log == s.log + [Acquire(sid, b)]
  {
    FindAvailableIsBest(s.boards, NameOf(s.sessions[sid], name));
    b := FindAvailable(s.boards, NameOf(s.sessions[sid], name)).value;
  }

  /** A first `connect` that finds no board and may wait: it is the last of the queue, and that is all. */
  lemma ConnectWaits(s: State, sid: nat, name: string, ppid: int)
    requires Invariant(s) && Enabled(s, Setup(sid, Connect, name, ppid, false)) && s.sessions[sid].status == Created
    requires NoneSuits(s.boards, NameOf(s.sessions[sid], name))
    ensures var t, x := Step(s, Setup(sid, Connect, name, ppid, false)), s.sessions[sid];
      && t.queue == s.queue + [sid]
      && sid in t.sessions && t.sessions[sid] == x.(username := name, ppid := ppid, status := AwaitingBoard)
      && OthersStay(s, t, sid) && t.boards == s.boards && t.counter == s.counter && t.log == s.log
  {
    FindAvailableIsBest(s.boards, NameOf(s.sessions[sid], name));
  }

  /** The session is gone, and nothing else happened. */
  predicate JustGone(s: State, t: State, sid: nat) {
    sid !in t.sessions && OthersStay(s, t, sid) && t.boards == s.boards && t.queue == s.queue && t.counter == s.counter && t.log == s.log
  }

  lemma BoardlessLeaves(p: State, x: nat)
    requires ReadyToClose(p, x) && p.sessions[x].board == None && !p.sessions[x].status.HasBoard?
    ensures var t := SessionClose(p, x);
      && x !in t.sessions && OthersStay(p, t, x) && t.boards == p.boards && t.queue == Remove(p.queue, x)
      && t.counter == p.counter && t.log == p.log
  {
    var i := DaemonCloseOutcome(p, x);
  }

  /** A first `connect` that finds no board and may not wait. */
  lemma ConnectIsRefused(s: State, sid: nat, name: string, ppid: int)
    requires Invariant(s) && Enabled(s, Setup(sid, Connect, name, ppid, true)) && s.sessions[sid].status == Created
    requires NoneSuits(s.boards, NameOf(s.sessions[sid], name))
    ensures JustGone(s, Step(s, Setup(sid, Connect, name, ppid, true)), sid)
  {
    var e := Setup(sid, Connect, name, ppid, true);
    FindAvailableIsBest(s.boards, NameOf(s.sessions[sid], name));
    assert Consistent(s, sid);
    ClosingStep(s, e);
    BoardlessLeaves(Prepared(s, e), sid);
    RemoveAbsent(s.queue, sid);
  }

  /** A first `list` ends the session. */
  lemma ListEndsTheSession(s: State, sid: nat, name: string, ppid: int, noWait: bool)
    requires Invariant(s) && Enabled(s, Setup(sid, ListSessions, name, ppid, noWait)) && s.sessions[sid].status == Created
    ensures JustGone(s, Step(s, Setup(sid, ListSessions, name, ppid, noWait)), sid)
  {
    var e := Setup(sid, ListSessions, name, ppid, noWait);
    assert Consistent(s, sid);
    ClosingStep(s, e);
    BoardlessLeaves(Prepared(s, e), sid);
    RemoveAbsent(s.queue, sid);
  }

  // ---------------------------------------------------------------------------
  // Hang-ups and exits of a child

  /** The queue without `sid`, the others in their order. */
  predicate Dropped(q: seq<nat>, r: seq<nat>, sid: nat) {
    if sid in q then exists i :: 0 <= i < |q| && q[i] == sid && r == q[..i] + q[i + 1..] else r == q
  }

  lemma RemoveDrops(q: seq<nat>, sid: nat)
    requires NoDuplicates(q)
    ensures Dropped(q, Remove(q, sid), sid)
  {
    if sid in q {
      var i :| 0 <= i < |q| && q[i] == sid;
      RemoveAt(q, i);
    } else {
      RemoveAbsent(q, sid);
    }
  }

  /** A client without a board hangs up: it is gone, and whoever waits behind it moves up. */
  lemma HangUpWithoutBoard(s: State, sid: nat)
    requires Invariant(s) && Enabled(s, ClientHangsUp(sid)) && s.sessions[sid].status in {Created, AwaitingBoard}
    ensures var t := Step(s, ClientHangsUp(sid));
      && sid !in t.sessions && OthersStay(s, t, sid) && t.boards == s.boards && t.counter == s.counter
      && Dropped(s.queue, t.queue, sid) && t.log == s.log + [Hangup(sid)]
  {
    assert Consistent(s, sid);
    ClosingStep(s, ClientHangsUp(sid));
    BoardlessLeaves(HungUp(s, sid), sid);
    RemoveDrops(s.queue, sid);
  }

  /** A client whose process runs hangs up: the process is killed, and everything else waits for its exit. */
  lemma HangUpKills(s: State, sid: nat)
    requires Invariant(s) && Enabled(s, ClientHangsUp(sid)) && s.sessions[sid].status == HasBoard
    ensures var t := Step(s, ClientHangsUp(sid));
      && sid in t.sessions && t.sessions[sid] == s.sessions[sid].(listening := false) && OthersStay(s, t, sid)
      && t.boards == s.boards && t.queue == s.queue && t.counter == s.counter
      && t.log == s.log + [Hangup(sid), Kill(sid)]
  {
    assert Consistent(s, sid);
  }

  /** The main process exits on a board with a close command: the command is started and the board kept. */
  lemma ExitStartsCloseCommand(s: State, sid: nat, b: nat)
    requires Invariant(s) && Enabled(s, ChildExits(sid)) && s.sessions[sid].status == HasBoard
    requires s.sessions[sid].board == Some(b) && b < |s.boards| && s.boards[b].closeCommand != ""
    ensures var t := Step(s, ChildExits(sid));
      && sid in t.sessions && t.sessions[sid] == s.sessions[sid].(status := ClosingBoard, child := CloseChild)
      && OthersStay(s, t, sid) && t.boards == s.boards && t.queue == s.queue && t.counter == s.counter
      && t.log == s.log + [ReapMain(sid), StartClose(sid, b)]
  {
    assert Consistent(s, sid);
  }

  predicate MayUse(board: Board, x: Session) {
    board.reservedFor in {"", if x.username != "" then x.username else x.usernameCred}
  }

  /** Nobody waits who may use the board: it is free. */
  predicate LeftFree(s: State, t: State, sid: nat, b: nat) {
    Owned(s, t, b, None) && t.queue == s.queue && OthersStay(s, t, sid)
  }

  /** The board goes to the session at place `i` of the queue, the first that may use it. */
  predicate PassedOn(s: State, t: State, sid: nat, b: nat, i: nat) {
    && i < |s.queue| && s.queue[i] in s.sessions && s.queue[i] in t.sessions && s.queue[i] != sid
    && b < |s.boards| && MayUse(s.boards[b], s.sessions[s.queue[i]])
    && Owned(s, t, b, Some(s.queue[i])) && Started(t.sessions[s.queue[i]], s.sessions[s.queue[i]], b)
    && t.queue == s.queue[..i] + s.queue[i + 1..]
    && (forall y :: y in s.sessions && y != sid && y != s.queue[i] ==> y in t.sessions && t.sessions[y] == s.sessions[y])
    && (forall y :: y in t.sessions ==> y in s.sessions && y != sid)
  }

  /** The session is gone and its board is free or passed on; `log` is the log up to the release. */
  predicate GivenBack(s: State, t: State, sid: nat, b: nat, i: nat, log: seq<Action>) {
    && sid !in t.sessions && t.counter == s.counter && i <= |s.queue| && b < |s.boards|
    && (forall j :: 0 <= j < i ==> s.queue[j] in s.sessions && !MayUse(s.boards[b], s.sessions[s.queue[j]]))
    && (if i == |s.queue| then LeftFree(s, t, sid, b) && t.log == log + [Release(sid, b)]
        else PassedOn(s, t, sid, b, i) && t.log == log + [Release(sid, b), Acquire(s.queue[i], b)])
  }

  lemma MayUseIff(board: Board, x: Session)
    requires board.owner == None
    ensures Eligible(board, User(x)) <==> MayUse(board, x)
  {
  }

  /** The session `x` of `p` has left, and `w` was then given its board. */
  lemma GivenAfterLeaving(p: State, x: nat, w: nat, b: nat, q: seq<nat>)
    requires x in p.sessions && HolderOwns(p, x) && p.sessions[x].board == Some(b) && w in p.sessions && w != x
    ensures var t := Give(Leaving(p, x).(queue := q), w, b);
      && Owned(p, t, b, Some(w)) && Started(t.sessions[w], p.sessions[w], b) && t.queue == q && t.counter == p.counter
      && t.log == p.log + [Release(x, b), Acquire(w, b)]
      && (forall y :: y in p.sessions && y != x && y != w ==> y in t.sessions && t.sessions[y] == p.sessions[y])
      && (forall y :: y in t.sessions ==> y in p.sessions && y != x)
  {
  }

  lemma PassedOnAt(p: State, x: nat, b: nat, i: nat)
    requires ReadyToClose(p, x) && HolderOwns(p, x) && p.sessions[x].board == Some(b) && i < |p.queue| && p.queue[i] in p.sessions
    requires var l := Leaving(p, x);
      && l.queue == p.queue && p.queue[i] in l.sessions && FindAvailable(l.boards, User(l.sessions[p.queue[i]])) == Some(b)
      && DaemonClose(p, x) == Give(l.(queue := Remove(p.queue, p.queue[i])), p.queue[i], b)
    ensures PassedOn(p, DaemonClose(p, x), x, b, i)
    ensures DaemonClose(p, x).log == p.log + [Release(x, b), Acquire(p.queue[i], b)] && DaemonClose(p, x).counter == p.counter
  {
    var l := Leaving(p, x);
    MayUseIff(l.boards[b], l.sessions[p.queue[i]]);
    RemoveAbsent(p.queue, x);
    RemoveAt(p.queue, i);
    GivenAfterLeaving(p, x, p.queue[i], b, Remove(p.queue, p.queue[i]));
  }

  lemma MayNotUse(p: State, x: nat, b: nat, j: nat)
    requires ReadyToClose(p, x) && HolderOwns(p, x) && p.sessions[x].board == Some(b) && j < |p.queue|
    requires var l := Leaving(p, x);
      l.queue == p.queue && p.queue[j] in l.sessions && FindAvailable(l.boards, User(l.sessions[p.queue[j]])).None?
    ensures p.queue[j] in p.sessions && !MayUse(p.boards[b], p.sessions[p.queue[j]])
  {
    var l := Leaving(p, x);
    assert !Eligible(l.boards[b], User(l.sessions[p.queue[j]]));
    MayUseIff(l.boards[b], l.sessions[p.queue[j]]);
  }

  lemma BoardIsGivenBack(p: State, x: nat, b: nat) returns (i: nat)
    requires ReadyToClose(p, x) && p.sessions[x].board == Some(b) && b < |p.boards|
    ensures GivenBack(p, DaemonClose(p, x), x, b, i, p.log)
  {
    i := DaemonCloseOutcome(p, x);
    RemoveAbsent(p.queue, x);
    forall j | 0 <= j < i ensures p.queue[j] in p.sessions && !MayUse(p.boards[b], p.sessions[p.queue[j]]) {
      MayNotUse(p, x, b, j);
    }
    if i < |p.queue| {
      PassedOnAt(p, x, b, i);
    }
  }

  /** The same, seen from before the event that closes the session. */
  lemma GivenBackFrom(s: State, p: State, t: State, x: nat, b: nat, i: nat)
    requires GivenBack(p, t, x, b, i, p.log) && p.boards == s.boards && p.queue == s.queue && p.counter == s.counter
    requires x in s.sessions && OthersStay(s, p, x) && x !in s.queue
    ensures GivenBack(s, t, x, b, i, p.log)
  {
  }

  /** The main process exits on a board without a close command. */
  lemma ExitGivesBack(s: State, sid: nat, b: nat) returns (i: nat)
    requires Invariant(s) && Enabled(s, ChildExits(sid)) && s.sessions[sid].status == HasBoard
    requires s.sessions[sid].board == Some(b) && b < |s.boards| && s.boards[b].closeCommand == ""
    ensures GivenBack(s, Step(s, ChildExits(sid)), sid, b, i, s.log + [ReapMain(sid)])
  {
    assert Consistent(s, sid);
    ClosingStep(s, ChildExits(sid));
    i := BoardIsGivenBack(Reaped(s, sid), sid, b);
    GivenBackFrom(s, Reaped(s, sid), Step(s, ChildExits(sid)), sid, b, i);
  }

  /** The close command exits. */
  lemma CloseCommandGivesBack(s: State, sid: nat, b: nat) returns (i: nat)
    requires Invariant(s) && Enabled(s, ChildExits(sid)) && s.sessions[sid].status == ClosingBoard
    requires s.sessions[sid].board == Some(b)
    ensures GivenBack(s, Step(s, ChildExits(sid)), sid, b, i, s.log + [ReapClose(sid)])
  {
    assert Consistent(s, sid);
    ClosingStep(s, ChildExits(sid));
    i := BoardIsGivenBack(Reaped(s, sid), sid, b);
    GivenBackFrom(s, Reaped(s, sid), Step(s, ChildExits(sid)), sid, b, i);
  }

  /** The client hangs up while the close command runs. */
  lemma HangUpGivesBack(s: State, sid: nat, b: nat) returns (i: nat)
    requires Invariant(s) && Enabled(s, ClientHangsUp(sid)) && s.sessions[sid].status == ClosingBoard
    requires s.sessions[sid].board == Some(b)
    ensures GivenBack(s, Step(s, ClientHangsUp(sid)), sid, b, i, s.log + [Hangup(sid)])
  {
    assert Consistent(s, sid);
    ClosingStep(s, ClientHangsUp(sid));
    i := BoardIsGivenBack(HungUp(s, sid), sid, b);
    GivenBackFrom(s, HungUp(s, sid), Step(s, ClientHangsUp(sid)), sid, b, i);
  }

  // ---------------------------------------------------------------------------
  // Clients and proxy connections

  /** A client connects: it has the next number, its account name and nothing else, and everything else stays. */
  lemma ClientArrives(s: State, cred: string, garbage: int)
    requires WellFormed(s)
    ensures var t, sid := Step(s, ClientConnects(cred, garbage)), s.counter;
      && sid !in s.sessions && sid in t.sessions && OthersStay(s, t, sid)
      && var x := t.sessions[sid];
      && x.status == Created && NameOf(x, x.username) == cred && x.board == None && x.child == NoChild
      && x.listening && x.proxies == 0
      && t.boards == s.boards && t.queue == s.queue && t.counter == s.counter + 1 && t.log == s.log
  {
    assert forall y :: y in s.sessions ==> HolderOwns(s, y);
  }

  /** A connection from process `pid` belongs to the oldest session that `pid` started, and counts if that one has a board. */
  lemma SocketGoesToTheOldest(s: State, pid: int, sid: nat)
    requires WellFormed(s) && sid in s.sessions && s.sessions[sid].ppid == pid
    requires forall y :: y in s.sessions && s.sessions[y].ppid == pid ==> sid <= y
    ensures var t, x := Step(s, SocketConnects(pid)), s.sessions[sid];
      && sid in t.sessions && t.sessions[sid] == x.(proxies := if x.status == HasBoard then x.proxies + 1 else x.proxies)
      && OthersStay(s, t, sid) && t.boards == s.boards && t.queue == s.queue && t.counter == s.counter && t.log == s.log
  {
    assert HolderOwns(s, sid);
    assert FirstByPpid(s, pid, s.counter) == Some(sid);
  }

  lemma SocketOfNobody(s: State, pid: int)
    requires WellFormed(s) && forall y :: y in s.sessions ==> s.sessions[y].ppid != pid
    ensures Step(s, SocketConnects(pid)) == s
  {
  }
}
