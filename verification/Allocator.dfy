/**
  The board allocator of the boardproxy daemon as a state machine over values.

  A state holds the boards, the live sessions, the wait queue and the log of
  everything the daemon did to processes and boards, in order.  `Step` says what
  one event of the event loop does to a state.  The classes in Daemon.dfy are
  proved to compute exactly these functions.
 */
module Allocator {
  import opened Basics

  datatype Status = Created | AwaitingBoard | HasBoard | ClosingBoard

  /** Which process the session's child watcher is waiting for, if any. */
  datatype Child = NoChild | MainChild | CloseChild

  datatype Board = Board(closeCommand: string, reservedFor: string, owner: Option<nat>)

  /** `listening`: the watcher of the client's socket is still running. */
  datatype Session = Session(usernameCred: string, username: string, ppid: int, status: Status,
                             board: Option<nat>, child: Child, listening: bool, proxies: nat)

  /** What the daemon did, with the session it did it for and the board's index. */
  datatype Action =
    | Acquire(sid: nat, b: nat)
    | Hangup(sid: nat)
    | Kill(sid: nat)
    | ReapMain(sid: nat)
    | StartClose(sid: nat, b: nat)
    | ReapClose(sid: nat)
    | Release(sid: nat, b: nat)

  /** Sessions are keyed by their number, which `Session::counter` hands out in order. */
  datatype State = State(boards: seq<Board>, sessions: map<nat, Session>, queue: seq<nat>,
                         counter: nat, log: seq<Action>)

  datatype Command = Connect | ListSessions

  datatype Event =
    | ClientConnects(cred: string, garbagePpid: int)
    | Setup(sid: nat, cmd: Command, name: string, ppid: int, noWait: bool)
    | ClientHangsUp(sid: nat)
    | ChildExits(sid: nat)
    | SocketConnects(pid: int)
    | ProxyCloses(sid: nat)

  /** The name given with the setup message wins over the account name. */
  function User(x: Session): string {
    if x.username == "" then x.usernameCred else x.username
  }

  // ---------------------------------------------------------------------------
  // Choosing a board

  predicate Eligible(board: Board, user: string) {
    board.owner.None? && (board.reservedFor == "" || board.reservedFor == user)
  }

  predicate ReservedFree(board: Board, user: string) {
    board.owner.None? && board.reservedFor != "" && board.reservedFor == user
  }

  predicate UnreservedFree(board: Board) {
    board.owner.None? && board.reservedFor == ""
  }

  function FirstReserved(boards: seq<Board>, user: string, i: nat): (r: Option<nat>)
    requires i <= |boards|
    ensures r.None? ==> forall j :: i <= j < |boards| ==> !ReservedFree(boards[j], user)
    ensures r.Some? ==> i <= r.value < |boards| && ReservedFree(boards[r.value], user)
    ensures r.Some? ==> forall j :: i <= j < r.value ==> !ReservedFree(boards[j], user)
    decreases |boards| - i
  {
    if i == |boards| then None
    else if ReservedFree(boards[i], user) then Some(i)
    else FirstReserved(boards, user, i + 1)
  }

  function FirstUnreserved(boards: seq<Board>, i: nat): (r: Option<nat>)
    requires i <= |boards|
    ensures r.None? ==> forall j :: i <= j < |boards| ==> !UnreservedFree(boards[j])
    ensures r.Some? ==> i <= r.value < |boards| && UnreservedFree(boards[r.value])
    ensures r.Some? ==> forall j :: i <= j < r.value ==> !UnreservedFree(boards[j])
    decreases |boards| - i
  {
    if i == |boards| then None
    else if UnreservedFree(boards[i]) then Some(i)
    else FirstUnreserved(boards, i + 1)
  }

  /**
    The board a user would get now: none exactly when no board is eligible, and
    an unreserved one only when no free board is reserved for the user.
   */
  function FindAvailable(boards: seq<Board>, user: string): (r: Option<nat>)
    ensures r.None? <==> forall j :: 0 <= j < |boards| ==> !Eligible(boards[j], user)
    ensures r.Some? ==> r.value < |boards| && Eligible(boards[r.value], user)
    ensures r.Some? && boards[r.value].reservedFor == "" ==>
              forall j :: 0 <= j < |boards| ==> !ReservedFree(boards[j], user)
    ensures r.Some? ==> forall j :: 0 <= j < r.value && Eligible(boards[j], user) ==>
                          boards[j].reservedFor == "" && boards[r.value].reservedFor != ""
  {
    var reserved := FirstReserved(boards, user, 0);
    if reserved.Some? then reserved else FirstUnreserved(boards, 0)
  }

  // ---------------------------------------------------------------------------
  // What holds however clients behave

  predicate HolderOwns(s: State, sid: nat)
    requires sid in s.sessions
  {
    var x := s.sessions[sid];
    && (x.board.Some? ==> x.board.value < |s.boards| && s.boards[x.board.value].owner == Some(sid))
    && (x.status.HasBoard? || x.status.ClosingBoard? ==> x.board.Some?)
    && (x.proxies > 0 ==> x.board.Some?)
    && sid < s.counter
  }

  /** Facts the daemon keeps for any sequence of messages, even repeated setups. */
  predicate WellFormed(s: State) {
    && (forall sid :: sid in s.sessions ==> HolderOwns(s, sid))
    && (forall sid :: sid in s.queue ==> sid in s.sessions)
    && (forall b :: 0 <= b < |s.boards| && s.boards[b].owner.Some? ==> s.boards[b].owner.value < s.counter)
  }

  // ---------------------------------------------------------------------------
  // The operations of Session and Daemon

  /** `Session::assign_board`: take the board and start its main process. */
  function Give(s: State, sid: nat, b: nat): State
    requires sid in s.sessions && b < |s.boards|
  {
    s.(boards := s.boards[b := s.boards[b].(owner := Some(sid))],
    sessions := s.sessions[sid := s.sessions[sid].(status := HasBoard, board := Some(b), child := MainChild)],
    log := s.log + [Acquire(sid, b)])
  }

  /** `Daemon::assign_board`. */
  function Assign(s: State, sid: nat): State
    requires sid in s.sessions
  {
    match FindAvailable(s.boards, User(s.sessions[sid]))
    case Some(b) => Give(s, sid, b)
    case None => s.(queue := s.queue + [sid])
  }

  /** `std::list::remove`: drops every occurrence and keeps the order of the rest. */
  function Remove(q: seq<nat>, x: nat): (r: seq<nat>)
    ensures forall y :: y in r <==> y in q && y != x
  {
    if q == [] then []
    else if q[0] == x then Remove(q[1..], x)
    else [q[0]] + Remove(q[1..], x)
  }

  /** `Session::~Session` and its removal from the session list. */
  function Destroy(s: State, sid: nat): State
    requires sid in s.sessions
    requires s.sessions[sid].board.Some? ==> s.sessions[sid].board.value < |s.boards|
  {
    var s' := s.(sessions := s.sessions - {sid});
    match s.sessions[sid].board
    case None => s'
    case Some(b) => s'.(boards := s.boards[b := s.boards[b].(owner := None)],
    log := s.log + [Release(sid, b)])
  }

  /** The first position of the queue, from `i` on, whose session some board fits. */
  function FirstServable(s: State, i: nat): (r: nat)
    requires i <= |s.queue|
    requires forall sid :: sid in s.queue ==> sid in s.sessions
    ensures i <= r <= |s.queue|
    ensures forall j :: i <= j < r ==> FindAvailable(s.boards, User(s.sessions[s.queue[j]])).None?
    ensures r < |s.queue| ==> FindAvailable(s.boards, User(s.sessions[s.queue[r]])).Some?
    decreases |s.queue| - i
  {
    if i == |s.queue| || FindAvailable(s.boards, User(s.sessions[s.queue[i]])).Some? then i
    else FirstServable(s, i + 1)
  }

  /** The loop of `Daemon::close_session`: at most one waiting session is served. */
  function ServeOne(s: State): State
    requires forall sid :: sid in s.queue ==> sid in s.sessions
  {
    var i := FirstServable(s, 0);
    if i == |s.queue| then s
    else
      var sid := s.queue[i];
      Give(s.(queue := Remove(s.queue, sid)), sid, FindAvailable(s.boards, User(s.sessions[sid])).value)
  }

  function DaemonClose(s: State, sid: nat): State
    requires WellFormed(s) && sid in s.sessions
  {
    ServeOne(Destroy(s.(queue := Remove(s.queue, sid)), sid))
  }

  /** `Session::close_session`, the board closing state machine. */
  function SessionClose(s: State, sid: nat): State
    requires WellFormed(s) && sid in s.sessions
  {
    var x := s.sessions[sid];
    if x.status.HasBoard? && !x.child.NoChild? then
      s.(log := s.log + [Kill(sid)])
    else if x.status.HasBoard? && s.boards[x.board.value].closeCommand != "" then
      s.(sessions := s.sessions[sid := x.(status := ClosingBoard, child := CloseChild)],
      log := s.log + [StartClose(sid, x.board.value)])
    else
      DaemonClose(s, sid)
  }

  /** The smallest number below `n` of a live session started by `pid`. */
  function FirstByPpid(s: State, pid: int, n: nat): (r: Option<nat>)
    ensures r.None? ==> forall sid :: sid in s.sessions && sid < n ==> s.sessions[sid].ppid != pid
    ensures r.Some? ==> r.value in s.sessions && r.value < n && s.sessions[r.value].ppid == pid
    ensures r.Some? ==> forall sid :: sid in s.sessions && sid < r.value ==> s.sessions[sid].ppid != pid
  {
    if n == 0 then None
    else
      var r := FirstByPpid(s, pid, n - 1);
      if r.Some? then r
      else if (n - 1) in s.sessions && s.sessions[n - 1].ppid == pid then Some(n - 1) else None
  }

  // ---------------------------------------------------------------------------
  // Events

  predicate Enabled(s: State, e: Event) {
    match e
    case ClientConnects(_, _) => true
    case Setup(sid, _, _, _, _) => sid in s.sessions && s.sessions[sid].listening
    case ClientHangsUp(sid) => sid in s.sessions && s.sessions[sid].listening
    case ChildExits(sid) => sid in s.sessions && !s.sessions[sid].child.NoChild?
    case SocketConnects(_) => true
    case ProxyCloses(sid) => sid in s.sessions && s.sessions[sid].proxies > 0
  }

  function Named(x: Session, name: string, ppid: int): Session {
    x.(username := name, ppid := ppid)
  }

  /** The state just before `Session::on_setup_msg` asks the daemon for a board. */
  function Asking(s: State, sid: nat, name: string, ppid: int): State
    requires sid in s.sessions
  {
    s.(sessions := s.sessions[sid := Named(s.sessions[sid], name, ppid).(status := AwaitingBoard)])
  }

  function OnSetup(s: State, sid: nat, cmd: Command, name: string, ppid: int, noWait: bool): State
    requires WellFormed(s) && sid in s.sessions
  {
    match cmd
    case Connect =>
      var s1 := Asking(s, sid, name, ppid);
      var s2 := Assign(s1, sid);
      if s2.sessions[sid].status.AwaitingBoard? && noWait then SessionClose(s2, sid) else s2
    case ListSessions =>
      SessionClose(s.(sessions := s.sessions[sid := Named(s.sessions[sid], name, ppid)]), sid)
  }

  /** The state once the exited child has been reaped and its watcher stopped. */
  function Reaped(s: State, sid: nat): State
    requires sid in s.sessions
  {
    var x := s.sessions[sid];
    s.(sessions := s.sessions[sid := x.(child := NoChild)],
    log := s.log + [if x.child.CloseChild? then ReapClose(sid) else ReapMain(sid)])
  }

  function HungUp(s: State, sid: nat): State
    requires sid in s.sessions
  {
    s.(sessions := s.sessions[sid := s.sessions[sid].(listening := false)], log := s.log + [Hangup(sid)])
  }

  /** A proxy connection from process `pid` goes to the session that started it, if that has a board. */
  function Attached(s: State, pid: int): State {
    match FirstByPpid(s, pid, s.counter)
    case None => s
    case Some(sid) =>
      var x := s.sessions[sid];
      if x.status.HasBoard? then s.(sessions := s.sessions[sid := x.(proxies := x.proxies + 1)]) else s
  }

  /** A proxy of the session is closed and leaves its list. */
  function Detached(s: State, sid: nat): State
    requires sid in s.sessions && s.sessions[sid].proxies > 0
  {
    s.(sessions := s.sessions[sid := s.sessions[sid].(proxies := s.sessions[sid].proxies - 1)])
  }

  function Step(s: State, e: Event): State
    requires WellFormed(s) && Enabled(s, e)
  {
    match e
    case ClientConnects(cred, garbage) =>
      s.(sessions := s.sessions[s.counter := Session(cred, "", garbage, Created, None, NoChild, true, 0)],
      counter := s.counter + 1)
    case Setup(sid, cmd, name, ppid, noWait) => OnSetup(s, sid, cmd, name, ppid, noWait)
    case ClientHangsUp(sid) => SessionClose(HungUp(s, sid), sid)
    case ChildExits(sid) => SessionClose(Reaped(s, sid), sid)
    case SocketConnects(pid) => Attached(s, pid)
    case ProxyCloses(sid) => Detached(s, sid)
  }

  // ---------------------------------------------------------------------------
  // Every event keeps the state well formed

  lemma GiveKeepsWellFormed(s: State, sid: nat, b: nat)
    requires WellFormed(s) && sid in s.sessions && b < |s.boards| && s.boards[b].owner.None?
    ensures WellFormed(Give(s, sid, b))
  {
    var s' := Give(s, sid, b);
    forall x | x in s'.sessions ensures HolderOwns(s', x) {
      assert HolderOwns(s, x) && HolderOwns(s, sid);
    }
  }

  lemma DestroyKeepsWellFormed(s: State, sid: nat)
    requires WellFormed(s) && sid in s.sessions && sid !in s.queue
    ensures WellFormed(Destroy(s, sid))
  {
    var s' := Destroy(s, sid);
    assert HolderOwns(s, sid);
    forall x | x in s'.sessions ensures HolderOwns(s', x) {
      assert HolderOwns(s, x);
    }
  }

  lemma ServeOneKeepsWellFormed(s: State)
    requires WellFormed(s)
    ensures WellFormed(ServeOne(s))
  {
    var i := FirstServable(s, 0);
    if i < |s.queue| {
      var sid := s.queue[i];
      var s1 := s.(queue := Remove(s.queue, sid));
      assert forall x :: x in s1.sessions ==> HolderOwns(s, x) ==> HolderOwns(s1, x);
      GiveKeepsWellFormed(s1, sid, FindAvailable(s.boards, User(s.sessions[sid])).value);
    }
  }

  lemma DaemonCloseKeepsWellFormed(s: State, sid: nat)
    requires WellFormed(s) && sid in s.sessions
    ensures WellFormed(DaemonClose(s, sid))
  {
    var s1 := s.(queue := Remove(s.queue, sid));
    assert forall x :: x in s1.sessions ==> HolderOwns(s, x) ==> HolderOwns(s1, x);
    DestroyKeepsWellFormed(s1, sid);
    ServeOneKeepsWellFormed(Destroy(s1, sid));
  }

  lemma SessionCloseKeepsWellFormed(s: State, sid: nat)
    requires WellFormed(s) && sid in s.sessions
    ensures WellFormed(SessionClose(s, sid))
  {
    DaemonCloseKeepsWellFormed(s, sid);
    var s' := SessionClose(s, sid);
    if s' != DaemonClose(s, sid) {
      assert forall x :: x in s'.sessions ==> HolderOwns(s, x) ==> HolderOwns(s', x);
    }
  }

  /** Replacing a session by one with the same board and no new claim changes nothing else. */
  lemma UpdateKeepsWellFormed(s: State, sid: nat, x: Session, log: seq<Action>)
    requires WellFormed(s) && sid in s.sessions
    requires x.board == s.sessions[sid].board
    requires x.proxies > 0 || x.status.HasBoard? || x.status.ClosingBoard? ==> x.board.Some?
    ensures WellFormed(s.(sessions := s.sessions[sid := x], log := log))
  {
    var s' := s.(sessions := s.sessions[sid := x], log := log);
    forall y | y in s'.sessions ensures HolderOwns(s', y) {
      assert HolderOwns(s, y);
    }
  }

  lemma OnSetupKeepsWellFormed(s: State, sid: nat, cmd: Command, name: string, ppid: int, noWait: bool)
    requires WellFormed(s) && sid in s.sessions
    ensures WellFormed(OnSetup(s, sid, cmd, name, ppid, noWait))
  {
    assert HolderOwns(s, sid);
    var x := Named(s.sessions[sid], name, ppid);
    if cmd.Connect? {
      UpdateKeepsWellFormed(s, sid, x.(status := AwaitingBoard), s.log);
      var s1 := Asking(s, sid, name, ppid);
      var s2 := Assign(s1, sid);
      var found := FindAvailable(s1.boards, User(s1.sessions[sid]));
      if found.Some? {
        GiveKeepsWellFormed(s1, sid, found.value);
      } else {
        assert forall y :: y in s2.sessions ==> HolderOwns(s1, y) ==> HolderOwns(s2, y);
        SessionCloseKeepsWellFormed(s2, sid);
      }
    } else {
      UpdateKeepsWellFormed(s, sid, x, s.log);
      SessionCloseKeepsWellFormed(s.(sessions := s.sessions[sid := x]), sid);
    }
  }

  lemma StepKeepsWellFormed(s: State, e: Event)
    requires WellFormed(s) && Enabled(s, e)
    ensures WellFormed(Step(s, e))
  {
    match e
    case ClientConnects(cred, garbage) =>
      var s' := Step(s, e);
      forall y | y in s'.sessions ensures HolderOwns(s', y) {
        assert y in s.sessions ==> HolderOwns(s, y);
      }
    case Setup(sid, cmd, name, ppid, noWait) =>
      OnSetupKeepsWellFormed(s, sid, cmd, name, ppid, noWait);
    case ClientHangsUp(sid) =>
      assert HolderOwns(s, sid);
      UpdateKeepsWellFormed(s, sid, s.sessions[sid].(listening := false), s.log + [Hangup(sid)]);
      SessionCloseKeepsWellFormed(HungUp(s, sid), sid);
    case ChildExits(sid) =>
      assert HolderOwns(s, sid);
      UpdateKeepsWellFormed(s, sid, s.sessions[sid].(child := NoChild), Reaped(s, sid).log);
      SessionCloseKeepsWellFormed(Reaped(s, sid), sid);
    case SocketConnects(pid) =>
      var found := FirstByPpid(s, pid, s.counter);
      if found.Some? {
        var x := s.sessions[found.value];
        assert HolderOwns(s, found.value);
        if x.status.HasBoard? {
          UpdateKeepsWellFormed(s, found.value, x.(proxies := x.proxies + 1), s.log);
        }
      }
    case ProxyCloses(sid) =>
      assert HolderOwns(s, sid);
      UpdateKeepsWellFormed(s, sid, s.sessions[sid].(proxies := s.sessions[sid].proxies - 1), s.log);
  }

  // ---------------------------------------------------------------------------
  // Runs

  predicate Initial(s: State) {
    && (forall b :: 0 <= b < |s.boards| ==> s.boards[b].owner.None?)
    && s.sessions == map[] && s.queue == [] && s.counter == 0 && s.log == []
  }

  /** Every event of `es` is possible when its turn comes. */
  predicate Possible(s: State, es: seq<Event>)
    requires WellFormed(s)
    decreases |es|
  {
    es != [] ==>
      Enabled(s, es[0]) && (StepKeepsWellFormed(s, es[0]); Possible(Step(s, es[0]), es[1..]))
  }

  function Run(s: State, es: seq<Event>): State
    requires WellFormed(s) && Possible(s, es)
    decreases |es|
  {
    if es == [] then s else StepKeepsWellFormed(s, es[0]); Run(Step(s, es[0]), es[1..])
  }

  // ---------------------------------------------------------------------------
  // What holds when every client sends one setup message

  /** The clients of this repository send one setup message per connection. */
  predicate FirstSetup(s: State, e: Event)
    requires Enabled(s, e)
  {
    e.Setup? ==> s.sessions[e.sid].status.Created?
  }

  predicate OneSetupEach(s: State, es: seq<Event>)
    requires WellFormed(s) && Possible(s, es)
    decreases |es|
  {
    es != [] ==>
      FirstSetup(s, es[0]) && (StepKeepsWellFormed(s, es[0]); OneSetupEach(Step(s, es[0]), es[1..]))
  }

  predicate NoDuplicates(q: seq<nat>) {
    forall i, j :: 0 <= i < j < |q| ==> q[i] != q[j]
  }

  /** A board's owner is live and points back at it. */
  predicate OwnerHolds(s: State, b: nat)
    requires b < |s.boards|
  {
    s.boards[b].owner.Some? ==>
      && s.boards[b].owner.value in s.sessions
      && s.sessions[s.boards[b].owner.value].board == Some(b)
  }

  /** How status, board, child, client and queue of one session go together. */
  predicate Consistent(s: State, sid: nat)
    requires sid in s.sessions
  {
    var x := s.sessions[sid];
    match x.status
    case Created => x.board.None? && x.child.NoChild? && x.listening && sid !in s.queue
    case AwaitingBoard => x.board.None? && x.child.NoChild? && x.listening && sid in s.queue
    case HasBoard => x.board.Some? && x.child.MainChild? && sid !in s.queue
    case ClosingBoard =>
      && x.board.Some? && x.child.CloseChild? && sid !in s.queue
      && x.board.value < |s.boards| && s.boards[x.board.value].closeCommand != ""
  }

  /** No free board fits a waiting session. */
  predicate NoIdleBoard(s: State)
    requires forall sid :: sid in s.queue ==> sid in s.sessions
  {
    forall sid, b :: sid in s.queue && 0 <= b < |s.boards| ==> !Eligible(s.boards[b], User(s.sessions[sid]))
  }

  /** Everything but `NoIdleBoard`. */
  predicate Settled(s: State) {
    && WellFormed(s)
    && (forall b :: 0 <= b < |s.boards| ==> OwnerHolds(s, b))
    && (forall sid :: sid in s.sessions ==> Consistent(s, sid))
    && NoDuplicates(s.queue)
  }

  predicate Invariant(s: State) {
    Settled(s) && NoIdleBoard(s)
  }
}
