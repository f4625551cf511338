/**
  The daemon's objects and event handlers.  Every handler is proved to change the
  objects exactly as the state machine of Allocator.dfy says; `View` reads off
  the state the objects stand for.
 */
module BoardproxyDaemon {
  import opened Basics
  import A = Allocator

  class Board {
    const id: string
    const command: string
    const ipAddress: string
    const closeCommand: string
    const reservedFor: string
    /** The board's place in the daemon's list, which never changes. */
    ghost const slot: nat
    var owner: Session?

    constructor (id: string, command: string, ipAddress: string, closeCommand: string, reservedFor: string, ghost slot: nat)
      ensures this.id == id && this.command == command && this.ipAddress == ipAddress
      ensures this.closeCommand == closeCommand && this.reservedFor == reservedFor && this.slot == slot
      ensures owner == null
    {
      this.id, this.command, this.ipAddress := id, command, ipAddress;
      this.closeCommand, this.reservedFor, this.slot := closeCommand, reservedFor, slot;
      owner := null;
    }

    predicate IsAvailable()
      reads this
    {
      owner == null
    }

    method Acquire(session: Session)
      modifies this
      ensures owner == session
    {
      owner := session;
    }

    method Release()
      modifies this
      ensures owner == null
    {
      owner := null;
    }

    ghost function View(): A.Board
      reads this
    {
      A.Board(closeCommand, reservedFor, if owner == null then None else Some(owner.id))
    }
  }

  class Session {
    const id: nat
    const usernameCred: string
    const daemon: Daemon
    var username: string
    var ppid: int
    var status: A.Status
    var board: Board?
    var child: A.Child
    var listening: bool
    var proxies: nat

    constructor (id: nat, usernameCred: string, garbagePpid: int, daemon: Daemon)
      ensures this.id == id && this.usernameCred == usernameCred && this.daemon == daemon
      ensures board == null
      ensures View() == A.Session(usernameCred, "", garbagePpid, A.Created, None, A.NoChild, true, 0)
    {
      this.id, this.usernameCred, this.daemon := id, usernameCred, daemon;
      username, ppid := "", garbagePpid;
      status, board, child, listening, proxies := A.Created, null, A.NoChild, true, 0;
    }

    function GetUsername(): string
      reads this
    {
      if username == "" then usernameCred else username
    }

    ghost function View(): A.Session
      reads this
    {
      A.Session(usernameCred, username, ppid, status,
                if board == null then None else Some(board.slot), child, listening, proxies)
    }

    /** Take the board and start its main process; the daemon's lists are not involved. */
    method Attach(brd: Board)
      modifies this, brd
      ensures board == brd
      ensures View() == old(View()).(status := A.HasBoard, board := Some(brd.slot), child := A.MainChild)
      ensures brd.View() == old(brd.View()).(owner := Some(id))
    {
      status := A.HasBoard;
      board := brd;
      brd.Acquire(this);
      child := A.MainChild;
    }

    method AssignBoard(brd: Board)
      requires daemon.Shape() && In(daemon.live, this) && On(daemon.boards, brd)
      modifies this, brd, daemon`log
      ensures daemon.Shape() && daemon.View() == A.Give(old(daemon.View()), id, brd.slot)
    {
      ghost var before := daemon.View();
      assert before.sessions[id] == View() && before.boards[brd.slot] == brd.View();
      daemon.log := daemon.log + [A.Acquire(id, brd.slot)];
      Attach(brd);
      assert daemon.View().boards == A.Give(before, id, brd.slot).boards;
      assert daemon.View().sessions == A.Give(before, id, brd.slot).sessions;
    }

    /** Kill the child, start the close command or leave the daemon. */
    method CloseSession()
      requires daemon.Valid() && In(daemon.live, this)
      modifies daemon, daemon.live.Values, daemon.boards
      ensures daemon.Valid() && daemon.boards == old(daemon.boards)
      ensures daemon.View() == A.SessionClose(old(daemon.View()), id)
    {
      ghost var before := daemon.View();
      assert before.sessions[id] == View();
      assert A.HolderOwns(before, id);
      if status.HasBoard? && !child.NoChild? {
        daemon.log := daemon.log + [A.Kill(id)];
      } else if status.HasBoard? && board.closeCommand != "" {
        StartCloseCommand();
      } else {
        daemon.CloseSession(this);
      }
      A.SessionCloseKeepsWellFormed(before, id);
    }

    method StartCloseCommand()
      requires daemon.Shape() && In(daemon.live, this) && board != null
      modifies this`status, this`child, daemon`log
      ensures daemon.Shape() && daemon.live == old(daemon.live)
      ensures daemon.View() == old(daemon.View()).(
                sessions := old(daemon.View()).sessions[id := old(View()).(status := A.ClosingBoard, child := A.CloseChild)],
                log := old(daemon.log) + [A.StartClose(id, board.slot)])
    {
      daemon.log := daemon.log + [A.StartClose(id, board.slot)];
      status := A.ClosingBoard;
      child := A.CloseChild;
      assert SessionViews(daemon.live) == old(SessionViews(daemon.live))[id := View()];
    }

    method ForgetChild()
      requires daemon.Shape() && In(daemon.live, this)
      modifies this`child
      ensures daemon.Shape()
      ensures daemon.View() == old(daemon.View()).(sessions := old(daemon.View()).sessions[id := old(View()).(child := A.NoChild)])
    {
      child := A.NoChild;
      assert SessionViews(daemon.live) == old(SessionViews(daemon.live))[id := View()];
    }

    method Reap()
      requires daemon.Shape() && In(daemon.live, this)
      modifies this`child, daemon`log
      ensures daemon.Shape() && daemon.live == old(daemon.live) && daemon.View() == A.Reaped(old(daemon.View()), id)
    {
      assert daemon.View().sessions[id] == View();
      daemon.log := daemon.log + [if child.CloseChild? then A.ReapClose(id) else A.ReapMain(id)];
      ForgetChild();
    }

    method ReapAndClose()
      requires daemon.Valid() && In(daemon.live, this)
      modifies daemon, daemon.live.Values, daemon.boards
      ensures daemon.Valid() && daemon.boards == old(daemon.boards)
      ensures daemon.View() == A.SessionClose(A.Reaped(old(daemon.View()), id), id)
    {
      ReapedKeepsWellFormed(daemon.View(), id);
      Reap();
      CloseSession();
    }

    /** The watched child exited: both the main process and the close command end here. */
    method OnChildExit()
      requires daemon.Valid() && In(daemon.live, this) && !child.NoChild?
      modifies daemon, daemon.live.Values, daemon.boards
      ensures daemon.Valid() && daemon.boards == old(daemon.boards)
      ensures daemon.View() == A.Step(old(daemon.View()), A.ChildExits(id))
    {
      assert daemon.View().sessions[id] == View();
      ReapAndClose();
    }

    method StopListening()
      requires daemon.Shape() && In(daemon.live, this)
      modifies this`listening, daemon`log
      ensures daemon.Shape() && daemon.live == old(daemon.live) && daemon.View() == A.HungUp(old(daemon.View()), id)
    {
      assert daemon.View().sessions[id] == View();
      daemon.log := daemon.log + [A.Hangup(id)];
      StopWatcher();
    }

    method StopWatcher()
      requires daemon.Shape() && In(daemon.live, this)
      modifies this`listening
      ensures daemon.Shape()
      ensures daemon.View() == old(daemon.View()).(sessions := old(daemon.View()).sessions[id := old(View()).(listening := false)])
    {
      listening := false;
      assert SessionViews(daemon.live) == old(SessionViews(daemon.live))[id := View()];
    }

    /** The client closed its end of the socket, or reading from it failed. */
    method OnClientHangsUp()
      requires daemon.Valid() && In(daemon.live, this) && listening
      modifies daemon, daemon.live.Values, daemon.boards
      ensures daemon.Valid() && daemon.boards == old(daemon.boards)
      ensures daemon.View() == A.Step(old(daemon.View()), A.ClientHangsUp(id))
    {
      assert daemon.View().sessions[id] == View();
      HungUpKeepsWellFormed(daemon.View(), id);
      StopListening();
      CloseSession();
    }

    /** Keep what the setup message says about the client. */
    method Introduce(name: string, ppid: int)
      requires daemon.Shape() && In(daemon.live, this)
      modifies this`username, this`ppid
      ensures daemon.Shape()
      ensures daemon.View() == old(daemon.View()).(sessions := old(daemon.View()).sessions[id := A.Named(old(View()), name, ppid)])
    {
      this.ppid := ppid;
      username := name;
      assert SessionViews(daemon.live) == old(SessionViews(daemon.live))[id := View()];
    }

    method Await()
      requires daemon.Shape() && In(daemon.live, this)
      modifies this`status
      ensures daemon.Shape()
      ensures daemon.View() == old(daemon.View()).(sessions := old(daemon.View()).sessions[id := old(View()).(status := A.AwaitingBoard)])
    {
      status := A.AwaitingBoard;
      assert SessionViews(daemon.live) == old(SessionViews(daemon.live))[id := View()];
    }

    method AskForBoard(name: string, ppid: int)
      requires daemon.Shape() && In(daemon.live, this)
      modifies this`username, this`ppid, this`status
      ensures daemon.Shape() && daemon.View() == A.Asking(old(daemon.View()), id, name, ppid)
    {
      ghost var before := daemon.View();
      assert before.sessions[id] == View();
      Introduce(name, ppid);
      ghost var named := daemon.View();
      assert named.sessions[id] == View();
      Await();
      UpdatedTwice(before, named, daemon.View(), id, name, ppid);
    }

    method OnConnect(name: string, ppid: int, noWait: bool)
      requires daemon.Valid() && In(daemon.live, this)
      modifies daemon, daemon.live.Values, daemon.boards
      ensures daemon.Valid() && daemon.boards == old(daemon.boards)
      ensures daemon.View() == A.OnSetup(old(daemon.View()), id, A.Connect, name, ppid, noWait)
    {
      AskingKeepsWellFormed(daemon.View(), id, name, ppid);
      AskForBoard(name, ppid);
      daemon.AssignBoard(this);
      assert daemon.View().sessions[id] == View();
      if status.AwaitingBoard? && noWait {
        CloseSession();
      }
    }

    method OnList(name: string, ppid: int)
      requires daemon.Valid() && In(daemon.live, this)
      modifies daemon, daemon.live.Values, daemon.boards
      ensures daemon.Valid() && daemon.boards == old(daemon.boards)
      ensures forall noWait :: daemon.View() == A.OnSetup(old(daemon.View()), id, A.ListSessions, name, ppid, noWait)
    {
      assert daemon.View().sessions[id] == View();
      NamedKeepsWellFormed(daemon.View(), id, name, ppid);
      Introduce(name, ppid);
      CloseSession();
    }

    method OnSetupMsg(cmd: A.Command, name: string, ppid: int, noWait: bool)
      requires daemon.Valid() && In(daemon.live, this) && listening
      modifies daemon, daemon.live.Values, daemon.boards
      ensures daemon.Valid() && daemon.boards == old(daemon.boards)
      ensures daemon.View() == A.Step(old(daemon.View()), A.Setup(id, cmd, name, ppid, noWait))
    {
      assert daemon.View().sessions[id] == View();
      match cmd {
        case Connect => OnConnect(name, ppid, noWait);
        case ListSessions => OnList(name, ppid);
      }
    }

    method NewSocketConnection()
      requires daemon.Shape() && In(daemon.live, this)
      modifies this`proxies
      ensures daemon.Shape()
      ensures daemon.View() ==
              if status.HasBoard?
              then old(daemon.View()).(sessions := old(daemon.View()).sessions[id := old(View()).(proxies := old(proxies) + 1)])
              else old(daemon.View())
    {
      if !status.HasBoard? {
        return;
      }
      proxies := proxies + 1;
      assert SessionViews(daemon.live) == old(SessionViews(daemon.live))[id := View()];
    }

    /** A proxy takes itself off the session's list. */
    method DropProxy()
      requires daemon.Shape() && In(daemon.live, this) && proxies > 0
      modifies this`proxies
      ensures daemon.Shape() && daemon.View() == A.Detached(old(daemon.View()), id)
    {
      assert daemon.View().sessions[id] == View();
      proxies := proxies - 1;
      assert SessionViews(daemon.live) == old(SessionViews(daemon.live))[id := View()];
    }

    /** A proxy was closed. */
    method OnProxyClose()
      requires daemon.Valid() && In(daemon.live, this) && proxies > 0
      modifies this`proxies
      ensures daemon.Valid() && daemon.View() == A.Step(old(daemon.View()), A.ProxyCloses(id))
    {
      assert daemon.View().sessions[id] == View();
      A.StepKeepsWellFormed(daemon.View(), A.ProxyCloses(id));
      DropProxy();
    }
  }

  lemma UpdatedTwice(s: A.State, named: A.State, t: A.State, id: nat, name: string, ppid: int)
    requires id in s.sessions && named == s.(sessions := s.sessions[id := A.Named(s.sessions[id], name, ppid)])
    requires t == named.(sessions := named.sessions[id := named.sessions[id].(status := A.AwaitingBoard)])
    ensures t == A.Asking(s, id, name, ppid)
  {
    assert t.sessions == A.Asking(s, id, name, ppid).sessions;
  }

  lemma ReapedKeepsWellFormed(s: A.State, sid: nat)
    requires A.WellFormed(s) && sid in s.sessions
    ensures A.WellFormed(A.Reaped(s, sid))
  {
    assert A.HolderOwns(s, sid);
    A.UpdateKeepsWellFormed(s, sid, s.sessions[sid].(child := A.NoChild), A.Reaped(s, sid).log);
  }

  lemma HungUpKeepsWellFormed(s: A.State, sid: nat)
    requires A.WellFormed(s) && sid in s.sessions
    ensures A.WellFormed(A.HungUp(s, sid))
  {
    assert A.HolderOwns(s, sid);
    A.UpdateKeepsWellFormed(s, sid, s.sessions[sid].(listening := false), A.HungUp(s, sid).log);
  }

  lemma NamedKeepsWellFormed(s: A.State, sid: nat, name: string, ppid: int)
    requires A.WellFormed(s) && sid in s.sessions
    ensures A.WellFormed(s.(sessions := s.sessions[sid := A.Named(s.sessions[sid], name, ppid)]))
  {
    assert A.HolderOwns(s, sid);
    A.UpdateKeepsWellFormed(s, sid, A.Named(s.sessions[sid], name, ppid), s.log);
  }

  lemma AskingKeepsWellFormed(s: A.State, sid: nat, name: string, ppid: int)
    requires A.WellFormed(s) && sid in s.sessions
    ensures A.WellFormed(A.Assign(A.Asking(s, sid, name, ppid), sid))
  {
    assert A.HolderOwns(s, sid);
    var x := A.Named(s.sessions[sid], name, ppid).(status := A.AwaitingBoard);
    A.UpdateKeepsWellFormed(s, sid, x, s.log);
    var s1 := A.Asking(s, sid, name, ppid);
    var found := A.FindAvailable(s1.boards, A.User(x));
    if found.Some? {
      A.GiveKeepsWellFormed(s1, sid, found.value);
    } else {
      var s2 := A.Assign(s1, sid);
      assert forall y :: y in s2.sessions ==> A.HolderOwns(s1, y) ==> A.HolderOwns(s2, y);
    }
  }

  ghost predicate Increasing(ss: seq<Session>) {
    forall i, j :: 0 <= i < j < |ss| ==> ss[i].id < ss[j].id
  }

  ghost predicate On(bs: seq<Board>, b: Board) {
    b.slot < |bs| && bs[b.slot] == b
  }

  ghost predicate Placed(bs: seq<Board>) {
    forall i :: 0 <= i < |bs| ==> bs[i].slot == i
  }

  ghost function BoardViews(bs: seq<Board>): (r: seq<A.Board>)
    reads bs
    ensures |r| == |bs| && forall i :: 0 <= i < |bs| ==> r[i] == bs[i].View()
  {
    seq(|bs|, i requires 0 <= i < |bs| reads bs => bs[i].View())
  }

  ghost function Ids(ss: seq<Session>): (r: seq<nat>)
    ensures |r| == |ss| && forall i :: 0 <= i < |ss| ==> r[i] == ss[i].id
  {
    seq<nat>(|ss|, i requires 0 <= i < |ss| => ss[i].id)
  }

  ghost function SessionViews(live: map<nat, Session>): map<nat, A.Session>
    reads live.Values
  {
    map k | k in live :: live[k].View()
  }

  lemma OneMoreView(live: map<nat, Session>, s: Session)
    requires forall k :: k in live ==> live[k].id == k
    ensures SessionViews(live[s.id := s]) == SessionViews(live)[s.id := s.View()]
  {
  }

  ghost predicate In(live: map<nat, Session>, s: Session) {
    s.id in live && live[s.id] == s
  }

  /** `std::list::remove` and `remove_if` on lists of sessions. */
  function Without(ss: seq<Session>, x: Session): (r: seq<Session>)
    ensures forall s :: s in r ==> s in ss && s != x
    ensures forall s :: s in ss && s != x ==> s in r
  {
    if ss == [] then []
    else if ss[0] == x then Without(ss[1..], x)
    else [ss[0]] + Without(ss[1..], x)
  }

  lemma {:induction false} WithoutIds(ss: seq<Session>, x: Session)
    requires forall i :: 0 <= i < |ss| ==> (ss[i] == x <==> ss[i].id == x.id)
    ensures Ids(Without(ss, x)) == A.Remove(Ids(ss), x.id)
  {
    if ss != [] {
      WithoutIds(ss[1..], x);
      assert Ids(ss)[1..] == Ids(ss[1..]);
      if ss[0] != x {
        assert Ids(Without(ss, x)) == [ss[0].id] + Ids(Without(ss[1..], x));
      }
    }
  }

  lemma FirstIsLowest(ss: seq<Session>, x: Session)
    requires Increasing(ss) && ss != []
    ensures forall s :: s in ss[1..] ==> ss[0].id < s.id
    ensures forall s :: s in Without(ss[1..], x) ==> ss[0].id < s.id
  {
    forall s | s in ss[1..] ensures ss[0].id < s.id {
      var i :| 0 <= i < |ss[1..]| && ss[1..][i] == s;
      assert ss[i + 1] == s;
    }
  }

  lemma {:induction false} WithoutIncreasing(ss: seq<Session>, x: Session)
    requires Increasing(ss)
    ensures Increasing(Without(ss, x)) && |Without(ss, x)| == |ss| - if x in ss then 1 else 0
  {
    if ss != [] {
      var rest := ss[1..];
      assert ss == [ss[0]] + rest;
      WithoutIncreasing(rest, x);
      FirstIsLowest(ss, x);
      if ss[0] == x {
        assert x !in rest;
      }
    }
  }

  /** The list of sessions, the queue and the numbers agree. */
  ghost predicate Registered(d: Daemon, sessions: seq<Session>, queue: seq<Session>, live: map<nat, Session>, counter: nat) {
    && Increasing(sessions)
    && (forall k :: k in live ==> live[k].id == k && k < counter && live[k].daemon == d)
    && (forall i :: 0 <= i < |sessions| ==> In(live, sessions[i]))
    && |sessions| == |live|
    && (forall i :: 0 <= i < |queue| ==> In(live, queue[i]))
  }

  /** As many listed sessions as live ones: every live session is on the list. */
  lemma {:induction false} AllListed(ss: seq<Session>, live: map<nat, Session>, k: nat)
    requires Increasing(ss) && (forall i :: 0 <= i < |ss| ==> In(live, ss[i])) && |ss| == |live| && k in live
    ensures live[k] in ss
  {
    assert ss != [] by { assert k in live.Keys && |live.Keys| == |live|; }
    var last := ss[|ss| - 1];
    if last != live[k] {
      var live' := live - {last.id};
      assert live'.Keys == live.Keys - {last.id};
      AllListed(ss[..|ss| - 1], live', k);
    }
  }

  lemma RegisteredAfterDrop(d: Daemon, sessions: seq<Session>, queue: seq<Session>, live: map<nat, Session>, counter: nat,
                            x: Session)
    requires Registered(d, sessions, queue, live, counter) && In(live, x) && x !in queue
    ensures Registered(d, Without(sessions, x), queue, live - {x.id}, counter)
  {
    WithoutIncreasing(sessions, x);
    forall i | 0 <= i < |Without(sessions, x)| ensures In(live - {x.id}, Without(sessions, x)[i]) {
      var s := Without(sessions, x)[i];
      assert s in sessions && s != x;
    }
    AllListed(sessions, live, x.id);
    assert (live - {x.id}).Keys == live.Keys - {x.id};
  }

  lemma RegisteredAfterDequeue(d: Daemon, sessions: seq<Session>, queue: seq<Session>, live: map<nat, Session>, counter: nat,
                               x: Session)
    requires Registered(d, sessions, queue, live, counter) && In(live, x)
    ensures Registered(d, sessions, Without(queue, x), live, counter)
    ensures Ids(Without(queue, x)) == A.Remove(Ids(queue), x.id)
  {
    WithoutIds(queue, x);
    forall i | 0 <= i < |Without(queue, x)| ensures In(live, Without(queue, x)[i]) {
      assert Without(queue, x)[i] in queue;
    }
  }

  lemma RegisteredAfterEnqueue(d: Daemon, sessions: seq<Session>, queue: seq<Session>, live: map<nat, Session>, counter: nat,
                               x: Session)
    requires Registered(d, sessions, queue, live, counter) && In(live, x)
    ensures Registered(d, sessions, queue + [x], live, counter) && Ids(queue + [x]) == Ids(queue) + [x.id]
  {
  }

  class Daemon {
    var boards: seq<Board>
    var sessions: seq<Session>
    var waitQueue: seq<Session>
    /** The static counter of the Session class. */
    var counter: nat
    /** The sessions of the list by number. */
    ghost var live: map<nat, Session>
    /** What was done to processes and boards, in order. */
    ghost var log: seq<A.Action>

    ghost predicate Shape()
      reads this, live.Values
    {
      && Placed(boards)
      && Registered(this, sessions, waitQueue, live, counter)
      && (forall k :: k in live && live[k].board != null ==> On(boards, live[k].board))
    }

    ghost predicate Valid()
      reads this, boards, live.Values
    {
      Shape() && A.WellFormed(View())
    }

    ghost function View(): A.State
      reads this, boards, live.Values
    {
      A.State(BoardViews(boards), SessionViews(live), Ids(waitQueue), counter, log)
    }

    method FindAvailableBoard(username: string) returns (found: Board?)
      requires Shape()
      ensures found == null ==> A.FindAvailable(View().boards, username).None?
      ensures found != null ==> On(boards, found) && A.FindAvailable(View().boards, username) == Some(found.slot)
    {
      ghost var view := View().boards;
      for i := 0 to |boards|
        invariant A.FirstReserved(view, username, 0) == A.FirstReserved(view, username, i)
      {
        var board := boards[i];
        assert view[i] == board.View();
        if board.IsAvailable() && board.reservedFor != "" && board.reservedFor == username {
          return board;
        }
      }
      for i := 0 to |boards|
        invariant A.FirstUnreserved(view, 0) == A.FirstUnreserved(view, i)
      {
        var board := boards[i];
        assert view[i] == board.View();
        if board.IsAvailable() && board.reservedFor == "" {
          return board;
        }
      }
      return null;
    }

    method AssignBoard(session: Session)
      requires Shape() && In(live, session)
      modifies this`waitQueue, this`log, session, boards
      ensures Shape() && View() == A.Assign(old(View()), session.id)
      ensures live == old(live) && boards == old(boards) && sessions == old(sessions)
    {
      assert session.daemon == this && View().sessions[session.id] == session.View();
      var brd := FindAvailableBoard(session.GetUsername());
      if brd != null {
        session.AssignBoard(brd);
      } else {
        Enqueue(session);
      }
    }

    method Enqueue(session: Session)
      requires Shape() && In(live, session)
      modifies this`waitQueue
      ensures Shape() && View() == old(View()).(queue := old(View()).queue + [session.id])
    {
      RegisteredAfterEnqueue(this, sessions, waitQueue, live, counter, session);
      waitQueue := waitQueue + [session];
    }

    method Dequeue(session: Session)
      requires Shape() && In(live, session)
      modifies this`waitQueue
      ensures Shape() && session !in waitQueue
      ensures View() == old(View()).(queue := A.Remove(old(View()).queue, session.id))
    {
      RegisteredAfterDequeue(this, sessions, waitQueue, live, counter, session);
      waitQueue := Without(waitQueue, session);
    }

    method Unlist(session: Session)
      requires Shape() && In(live, session) && session !in waitQueue
      modifies this`sessions, this`live
      ensures Shape() && live == old(live) - {session.id}
      ensures View() == old(View()).(sessions := old(View()).sessions - {session.id})
    {
      RegisteredAfterDrop(this, sessions, waitQueue, live, counter, session);
      sessions := Without(sessions, session);
      live := live - {session.id};
      assert SessionViews(live) == old(SessionViews(live)) - {session.id};
    }

    /** The destructor of a session that is on no list any more. */
    method Destruct(session: Session)
      requires Shape() && (session.board != null ==> On(boards, session.board))
      modifies this`log, session.board
      ensures Shape()
      ensures session.board == null ==> View() == old(View())
      ensures session.board != null ==>
                View() == old(View()).(boards := old(View()).boards[session.board.slot := old(session.board.View()).(owner := None)],
                                       log := old(log) + [A.Release(session.id, session.board.slot)])
    {
      if session.board != null {
        log := log + [A.Release(session.id, session.board.slot)];
        session.board.Release();
        assert BoardViews(boards) == old(BoardViews(boards))[session.board.slot := session.board.View()];
      }
    }

    /** The session leaves the list and its destructor releases its board. */
    method Drop(session: Session)
      requires Shape() && In(live, session) && session !in waitQueue
      modifies this, session.board
      ensures Shape() && View() == A.Destroy(old(View()), session.id)
      ensures boards == old(boards) && live == old(live) - {session.id}
    {
      assert View().sessions[session.id] == session.View();
      assert session.board != null ==> View().boards[session.board.slot] == session.board.View();
      Unlist(session);
      Destruct(session);
    }

    /** The first place in the queue that some board fits, with that board. */
    method FirstServable() returns (i: nat, board: Board?)
      requires Shape()
      ensures i == A.FirstServable(View(), 0) <= |waitQueue| && (board == null <==> i == |waitQueue|)
      ensures board != null ==> On(boards, board) && View().queue[i] == waitQueue[i].id
      ensures board != null ==> A.FindAvailable(View().boards, A.User(View().sessions[View().queue[i]])) == Some(board.slot)
    {
      i := 0;
      while i < |waitQueue|
        invariant i <= |waitQueue| && A.FirstServable(View(), 0) == A.FirstServable(View(), i)
      {
        board := BoardFor(i);
        if board != null {
          return;
        }
        i := i + 1;
      }
      board := null;
    }

    /** The first waiting session that some board fits, with that board. */
    method FindServable() returns (waiting: Session?, board: Board?)
      requires Shape()
      ensures var v := View();
              var i := A.FirstServable(v, 0);
              if i == |v.queue| then waiting == null && board == null
              else waiting != null && board != null && In(live, waiting) && On(boards, board) && v.queue[i] == waiting.id
                   && A.FindAvailable(v.boards, A.User(v.sessions[waiting.id])) == Some(board.slot)
    {
      var i;
      i, board := FirstServable();
      waiting := if board == null then null else waitQueue[i];
    }

    /** The board that fits the i-th waiting session. */
    method BoardFor(i: nat) returns (board: Board?)
      requires Shape() && i < |waitQueue|
      ensures var v := View();
              && v.queue[i] == waitQueue[i].id && v.queue[i] in v.sessions
              && A.FindAvailable(v.boards, A.User(v.sessions[v.queue[i]])) == if board == null then None else Some(board.slot)
      ensures board != null ==> On(boards, board)
    {
      assert View().sessions[waitQueue[i].id] == waitQueue[i].View();
      board := FindAvailableBoard(waitQueue[i].GetUsername());
    }

    method Serve(waiting: Session, board: Board)
      requires Shape() && In(live, waiting) && On(boards, board)
      modifies this`waitQueue, this`log, waiting, board
      ensures Shape() && live == old(live) && boards == old(boards) && sessions == old(sessions)
      ensures View() == A.Give(old(View()).(queue := A.Remove(old(View()).queue, waiting.id)), waiting.id, board.slot)
    {
      Dequeue(waiting);
      waiting.AssignBoard(board);
    }

    method ServeOne()
      requires Shape()
      modifies this`waitQueue, this`log, live.Values, boards
      ensures Shape() && View() == A.ServeOne(old(View()))
      ensures live == old(live) && boards == old(boards) && sessions == old(sessions)
    {
      var waiting, board := FindServable();
      if waiting != null {
        Serve(waiting, board);
      }
    }

    method CloseSession(session: Session)
      requires Valid() && In(live, session)
      modifies this, live.Values, boards
      ensures Valid() && boards == old(boards) && live == old(live) - {session.id}
      ensures View() == A.DaemonClose(old(View()), session.id)
    {
      A.DaemonCloseKeepsWellFormed(View(), session.id);
      Dequeue(session);
      Drop(session);
      ServeOne();
    }

    constructor (boards: seq<Board>)
      requires Placed(boards) && forall i :: 0 <= i < |boards| ==> boards[i].owner == null
      ensures Valid() && A.Initial(View()) && this.boards == boards
    {
      this.boards := boards;
      sessions, waitQueue, counter, live, log := [], [], 0, map[], [];
    }

    method OnClientConnecting(cred: string, garbagePpid: int) returns (s: Session)
      requires Valid()
      modifies this
      ensures Valid() && fresh(s) && boards == old(boards) && live == old(live)[old(counter) := s]
      ensures View() == A.Step(old(View()), A.ClientConnects(cred, garbagePpid))
    {
      A.StepKeepsWellFormed(View(), A.ClientConnects(cred, garbagePpid));
      s := new Session(counter, cred, garbagePpid, this);
      RegisteredAfterConnect(this, sessions, waitQueue, live, counter, s);
      Enlist(s);
    }

    method Enlist(s: Session)
      requires Shape() && s.id == counter && s.daemon == this && s.board == null
      requires Registered(this, sessions + [s], waitQueue, live[s.id := s], counter + 1)
      modifies this`sessions, this`live, this`counter
      ensures Shape() && live == old(live)[s.id := s]
      ensures View() == old(View()).(sessions := old(View()).sessions[s.id := s.View()], counter := old(counter) + 1)
    {
      OneMoreView(live, s);
      sessions := sessions + [s];
      live := live[s.id := s];
      counter := counter + 1;
    }

    method FindSessionByPpid(ppid: int) returns (found: Session?)
      requires Shape()
      ensures found == null ==> A.FirstByPpid(View(), ppid, counter).None?
      ensures found != null ==> In(live, found) && A.FirstByPpid(View(), ppid, counter) == Some(found.id)
    {
      for i := 0 to |sessions|
        invariant forall j :: 0 <= j < i ==> sessions[j].ppid != ppid
      {
        if sessions[i].ppid == ppid {
          found := sessions[i];
          FirstListedIsFirst(this, i, ppid);
          return;
        }
      }
      NoneListedIsNone(this, ppid);
      return null;
    }

    method ConnectSocket(pid: int)
      requires Shape()
      modifies live.Values
      ensures Shape() && View() == A.Attached(old(View()), pid)
    {
      var s := FindSessionByPpid(pid);
      if s != null {
        assert View().sessions[s.id] == s.View();
        s.NewSocketConnection();
      }
    }

    /** A proxy connection is attached to the session that started its process, if that has a board. */
    method OnSocketConnecting(pid: int)
      requires Valid()
      modifies live.Values
      ensures Valid()
      ensures View() == A.Step(old(View()), A.SocketConnects(pid))
    {
      A.StepKeepsWellFormed(View(), A.SocketConnects(pid));
      ConnectSocket(pid);
    }
  }

  lemma RegisteredAfterConnect(d: Daemon, sessions: seq<Session>, queue: seq<Session>, live: map<nat, Session>, counter: nat,
                               x: Session)
    requires Registered(d, sessions, queue, live, counter) && x.id == counter && x.daemon == d
    ensures Registered(d, sessions + [x], queue, live[x.id := x], counter + 1)
  {
    assert live[x.id := x].Keys == live.Keys + {x.id};
  }

  lemma FirstListedIsFirst(d: Daemon, i: nat, ppid: int)
    requires d.Shape() && i < |d.sessions| && d.sessions[i].ppid == ppid
    requires forall j :: 0 <= j < i ==> d.sessions[j].ppid != ppid
    ensures A.FirstByPpid(d.View(), ppid, d.counter) == Some(d.sessions[i].id)
  {
    var r := A.FirstByPpid(d.View(), ppid, d.counter);
    assert d.View().sessions[d.sessions[i].id] == d.sessions[i].View();
    assert r.Some?;
    AllListed(d.sessions, d.live, r.value);
    var j :| 0 <= j < |d.sessions| && d.sessions[j] == d.live[r.value];
  }

  lemma NoneListedIsNone(d: Daemon, ppid: int)
    requires d.Shape()
    requires forall j :: 0 <= j < |d.sessions| ==> d.sessions[j].ppid != ppid
    ensures A.FirstByPpid(d.View(), ppid, d.counter).None?
  {
    var r := A.FirstByPpid(d.View(), ppid, d.counter);
    if r.Some? {
      assert d.View().sessions[r.value] == d.live[r.value].View();
      AllListed(d.sessions, d.live, r.value);
      assert false;
    }
  }
}
