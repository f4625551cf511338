/**
  The framing proxy between a client's byte stream and a board's datagrams.

  What the operating system answers to read and write is a parameter of the event
  handlers; `datagrams` records what was sent to the board.
 */
module Framing {
  import opened Basics
  import opened TcpRelay
  import opened ConnectCommand

  // ---------------------------------------------------------------------------
  // Frames

  /** Four bytes, most significant first. */
  function Be32(n: nat): (r: seq<byte>)
    requires n < 0x1_0000_0000
    ensures |r| == 4 && FromBe32(r) == n
  {
    var n1 := n / 256;
    var n2 := n1 / 256;
    [n2 / 256, n2 % 256, n1 % 256, n % 256]
  }

  function FromBe32(b: seq<byte>): (n: nat)
    requires |b| >= 4
    ensures n < 0x1_0000_0000
  {
    ((b[0] as int * 256 + b[1] as int) * 256 + b[2] as int) * 256 + b[3] as int
  }

  /** A payload as `WrProxy::on_target_data` sends it to the client. */
  function Frame(payload: seq<byte>): (r: seq<byte>)
    requires |payload| < 0x1_0000_0000
    ensures |r| == 4 + |payload| && r[..4] == Be32(|payload|) && r[4..] == payload
  {
    Be32(|payload|) + payload
  }

  predicate Sendable(ps: seq<seq<byte>>, limit: nat) {
    forall i :: 0 <= i < |ps| ==> |ps[i]| <= limit
  }

  function Frames(ps: seq<seq<byte>>): seq<byte>
    requires Sendable(ps, 0xFFFF_FFFF)
  {
    if ps == [] then [] else Frame(ps[0]) + Frames(ps[1..])
  }

  lemma FramesCons(ps: seq<seq<byte>>, p: seq<byte>)
    requires Sendable(ps, 0xFFFF_FFFF) && |p| <= 0xFFFF_FFFF && ps != []
    ensures Sendable(ps + [p], 0xFFFF_FFFF) && Frames(ps + [p]) == Frame(ps[0]) + Frames(ps[1..] + [p])
  {
    assert (ps + [p])[0] == ps[0] && (ps + [p])[1..] == ps[1..] + [p];
  }

  lemma {:induction false} FramesAppend(ps: seq<seq<byte>>, p: seq<byte>)
    requires Sendable(ps, 0xFFFF_FFFF) && |p| <= 0xFFFF_FFFF
    ensures Sendable(ps + [p], 0xFFFF_FFFF) && Frames(ps + [p]) == Frames(ps) + Frame(p)
  {
    if ps == [] {
      assert ps + [p] == [p] && [p][1..] == [];
      assert Frames([p]) == Frame(p) + [];
    } else {
      FramesAppend(ps[1..], p);
      FramesCons(ps, p);
      Associative(Frame(ps[0]), Frames(ps[1..]), Frame(p));
    }
  }

  lemma FirstFrameDetermines(a: seq<byte>, restA: seq<byte>, p: seq<byte>, restP: seq<byte>)
    requires |a| <= 0xFFFF_FFFF && |p| <= 0xFFFF_FFFF
    requires Frame(a) + restA <= Frame(p) + restP
    ensures a == p && restA <= restP
  {
    var l, r := Frame(a) + restA, Frame(p) + restP;
    assert Be32(|a|) == l[..4] == r[..4] == Be32(|p|);
    assert |a| == FromBe32(Be32(|a|)) == FromBe32(Be32(|p|)) == |p|;
    assert a == l[4..][..|a|] == r[4..][..|a|] == p;
    assert restA == l[4 + |a|..] <= r[4 + |a|..] == restP;
  }

  /** A stream starting with whole frames determines them. */
  lemma {:induction false} FramesDetermine(sent: seq<seq<byte>>, rest: seq<byte>, ps: seq<seq<byte>>)
    requires Sendable(sent, 0xFFFF_FFFF) && Sendable(ps, 0xFFFF_FFFF)
    requires Frames(sent) + rest <= Frames(ps)
    ensures sent <= ps && rest <= Frames(ps[|sent|..])
  {
    if sent == [] {
      assert Frames(sent) + rest == rest && ps[0..] == ps;
    } else {
      assert Frames(sent) + rest == Frame(sent[0]) + (Frames(sent[1..]) + rest);
      FirstFrameDetermines(sent[0], Frames(sent[1..]) + rest, ps[0], Frames(ps[1..]));
      FramesDetermine(sent[1..], rest, ps[1..]);
      assert ps[1..][|sent[1..]|..] == ps[|sent|..];
    }
  }

  // ---------------------------------------------------------------------------
  // Command and data mode

  datatype Mode = COMMAND | DATA

  datatype Wr = Wr(mode: Mode, buf: seq<byte>, open: bool, datagrams: seq<seq<byte>>)

  /** Whether converting the port, finding the board, its address, connecting, replying and writing succeed. */
  datatype World = World(portOk: bool, hasBoard: bool, addressOk: bool, dialOk: bool, replyOk: bool, writeOk: bool)

  datatype Input = Input(read: Read, world: World)

  predicate CanTake(w: Wr, x: Input) {
    w.open && |w.buf| <= CAPACITY && CanRead(x.read, CAPACITY - |w.buf|)
  }

  /** The data mode of `WrProxy::on_client_data`: at most one complete frame is sent on. */
  function OneFrame(w: Wr, writeOk: bool): Wr {
    if |w.buf| < 4 || |w.buf| < 4 + FromBe32(w.buf) then w
    else if !writeOk then w.(open := false)
    else
      var len := FromBe32(w.buf);
      w.(buf := w.buf[4 + len..], datagrams := w.datagrams + [w.buf[4..4 + len]])
  }

  function OnCommand(w: Wr, world: World): Wr {
    match ParseCommand(w.buf)
    case Incomplete => w
    case Refused => w.(open := false)
    case Wanted(_) =>
      if world.portOk && world.hasBoard && world.addressOk && world.dialOk
      then Wr(DATA, [], world.replyOk, w.datagrams)
      else w.(open := false)
  }

  function ClientData(w: Wr, x: Input): Wr
    requires CanTake(w, x)
  {
    if !x.read.Bytes? then w.(open := false)
    else
      var w' := w.(buf := w.buf + x.read.data);
      if w.mode.COMMAND? then OnCommand(w', x.world) else OneFrame(w', x.world.writeOk)
  }

  class WrProxy {
    var mode: Mode
    var buf: seq<byte>
    var open: bool
    ghost var datagrams: seq<seq<byte>>

    ghost function View(): Wr
      reads this
    {
      Wr(mode, buf, open, datagrams)
    }

    constructor ()
      ensures View() == Wr(COMMAND, [], true, [])
    {
      mode, buf, open, datagrams := COMMAND, [], true, [];
    }

    method OnClientData(read: Read, world: World)
      requires CanTake(View(), Input(read, world))
      modifies this
      ensures View() == ClientData(old(View()), Input(read, world))
    {
      if read.ReadError? || read.Eof? {
        open := false;
        return;
      }
      buf := buf + read.data;
      match mode {
        case COMMAND => HandleCommand(world);
        case DATA =>
          if |buf| < 4 {
            return;
          }
          var len := FromBe32(buf);
          if |buf| < 4 + len {
            return;
          }
          if !world.writeOk {
            open := false;
            return;
          }
          datagrams := datagrams + [buf[4..4 + len]];
          buf := buf[4 + len..];
      }
    }

    method HandleCommand(world: World)
      requires open
      modifies this
      ensures View() == OnCommand(old(View()), world)
    {
      var parsed := ReadCommand(buf);
      if parsed.Incomplete? {
        return;
      }
      if parsed.Refused? || !world.portOk || !world.hasBoard || !world.addressOk || !world.dialOk {
        open := false;
        return;
      }
      mode := DATA;
      buf := [];
      if !world.replyOk {
        open := false;
      }
    }

    /** A datagram of the target: its length and its bytes are written to the client one after the other. */
    method OnTargetData(read: Read, head: Send, body: Send) returns (out: seq<byte>)
      requires open && CanForward(Outbound(read, head, body))
      modifies this`open
      ensures out == Forwarded(Outbound(read, head, body)) && open == StaysOpen(Outbound(read, head, body))
    {
      if read.ReadError? || read.Eof? {
        open := false;
        return [];
      }
      out := Written(Be32(|read.data|), head) + Written(read.data, body);
      if body.SendError? {
        open := false;
      }
    }
  }

  // ---------------------------------------------------------------------------
  // From the target to the client

  /** A datagram read from the target, and what the two writes to the client answer. */
  datatype Outbound = Outbound(read: Read, head: Send, body: Send)

  function Written(data: seq<byte>, send: Send): seq<byte>
    requires CanSend(send, |data|)
  {
    if send.Sent? then data[..send.count] else []
  }

  predicate CanForward(x: Outbound) {
    x.read.Bytes? ==> 0 < |x.read.data| <= 65535 && CanSend(x.head, 4) && CanSend(x.body, |x.read.data|)
  }

  /** What reaches the client. */
  function Forwarded(x: Outbound): seq<byte>
    requires CanForward(x)
  {
    if x.read.Bytes? then Written(Be32(|x.read.data|), x.head) + Written(x.read.data, x.body) else []
  }

  /** Only the second write is looked at. */
  predicate StaysOpen(x: Outbound) {
    x.read.Bytes? && x.body.Sent?
  }

  predicate Complete(x: Outbound) {
    x.read.Bytes? && x.head == Sent(4) && x.body == Sent(|x.read.data|)
  }

  /** The client gets a whole frame exactly when both writes are complete. */
  lemma FrameForwardedIff(x: Outbound)
    requires CanForward(x) && x.read.Bytes?
    ensures Forwarded(x) == Frame(x.read.data) <==> Complete(x)
  {
    var h, b := Written(Be32(|x.read.data|), x.head), Written(x.read.data, x.body);
    if h + b == Frame(x.read.data) {
      assert |h| + |b| == 4 + |x.read.data|;
    }
  }

  /** A length that was not written goes unnoticed: the client gets the datagram without it. */
  lemma LengthWriteIsNotChecked() returns (x: Outbound)
    ensures CanForward(x) && x.read == Bytes([1]) && StaysOpen(x) && Forwarded(x) != Frame([1])
  {
    x := Outbound(Bytes([1]), SendError, Sent(1));
    FrameForwardedIff(x);
  }

  function ForwardedAll(xs: seq<Outbound>): seq<byte>
    requires forall i :: 0 <= i < |xs| ==> CanForward(xs[i])
  {
    if xs == [] then [] else Forwarded(xs[0]) + ForwardedAll(xs[1..])
  }

  function Payloads(xs: seq<Outbound>): seq<seq<byte>>
    requires forall i :: 0 <= i < |xs| ==> Complete(xs[i])
  {
    if xs == [] then [] else
    assert Complete(xs[0]);
    [xs[0].read.data] + Payloads(xs[1..])
  }

  /** With complete writes the client gets the frames of the target's datagrams, in order. */
  lemma {:induction false} DatagramsReachTheClient(xs: seq<Outbound>)
    requires forall i :: 0 <= i < |xs| ==> CanForward(xs[i]) && Complete(xs[i])
    ensures Sendable(Payloads(xs), 65535) && ForwardedAll(xs) == Frames(Payloads(xs))
  {
    if xs != [] {
      DatagramsReachTheClient(xs[1..]);
      FrameForwardedIff(xs[0]);
      assert Payloads(xs)[1..] == Payloads(xs[1..]);
    }
  }

  predicate CanRun(w: Wr, xs: seq<Input>)
    decreases |xs|
  {
    xs != [] ==> CanTake(w, xs[0]) && CanRun(ClientData(w, xs[0]), xs[1..])
  }

  function RunWr(w: Wr, xs: seq<Input>): Wr
    requires CanRun(w, xs)
    decreases |xs|
  {
    if xs == [] then w else RunWr(ClientData(w, xs[0]), xs[1..])
  }

  /** The bytes read after the switch to data mode; what came with the command line is dropped. */
  function SinceData(w: Wr, xs: seq<Input>): seq<byte>
    requires CanRun(w, xs)
    decreases |xs|
  {
    if xs == [] then []
    else (if w.mode.DATA? && xs[0].read.Bytes? then xs[0].read.data else []) + SinceData(ClientData(w, xs[0]), xs[1..])
  }

  /** The longest payload whose frame fits the buffer. */
  const LIMIT: nat := 65532

  /** The bytes a data-mode proxy has taken in: datagrams sent, framed, and the rest. */
  ghost predicate Holds(w: Wr, stream: seq<byte>) {
    && |w.buf| <= CAPACITY && Sendable(w.datagrams, LIMIT)
    && if w.mode.DATA? then Frames(w.datagrams) + w.buf == stream else w.datagrams == [] && stream == []
  }

  lemma OneFrameHolds(w: Wr, writeOk: bool, stream: seq<byte>)
    requires w.mode.DATA? && Holds(w, stream)
    ensures Holds(OneFrame(w, writeOk), stream)
  {
    var w' := OneFrame(w, writeOk);
    if w'.buf != w.buf {
      var p := w.buf[4..4 + FromBe32(w.buf)];
      FramesAppend(w.datagrams, p);
      HeaderIsBe32(w.buf);
      assert w.buf == Frame(p) + w'.buf;
      assert Frames(w.datagrams) + (Frame(p) + w'.buf) == Frames(w.datagrams) + Frame(p) + w'.buf;
    }
  }

  lemma HeaderIsBe32(b: seq<byte>)
    requires |b| >= 4
    ensures b[..4] == Be32(FromBe32(b))
  {
    var n := FromBe32(b);
    assert n / 256 == (b[0] as int * 256 + b[1] as int) * 256 + b[2] as int;
  }

  lemma StepHolds(w: Wr, x: Input, stream: seq<byte>)
    requires Holds(w, stream) && CanTake(w, x)
    ensures Holds(ClientData(w, x), stream + if w.mode.DATA? && x.read.Bytes? then x.read.data else [])
  {
    if x.read.Bytes? {
      var w' := w.(buf := w.buf + x.read.data);
      if w.mode.DATA? {
        assert Frames(w.datagrams) + (w.buf + x.read.data) == Frames(w.datagrams) + w.buf + x.read.data;
        OneFrameHolds(w', x.world.writeOk, stream + x.read.data);
      }
    } else {
      assert stream + [] == stream;
    }
  }

  /**
    For any chunking of the input, the bytes read since entering data mode are
    the datagrams sent so far, framed, followed by the buffer.
   */
  lemma {:induction false} RunHolds(w: Wr, xs: seq<Input>, stream: seq<byte>)
    requires Holds(w, stream) && CanRun(w, xs)
    ensures Holds(RunWr(w, xs), stream + SinceData(w, xs))
    decreases |xs|
  {
    if xs == [] {
      assert stream + [] == stream;
    } else {
      StepHolds(w, xs[0], stream);
      var here := if w.mode.DATA? && xs[0].read.Bytes? then xs[0].read.data else [];
      RunHolds(ClientData(w, xs[0]), xs[1..], stream + here);
      assert stream + here + SinceData(ClientData(w, xs[0]), xs[1..]) == stream + SinceData(w, xs);
    }
  }

  const FRESH := Wr(COMMAND, [], true, [])

  /**
    A client that, once in data mode, sends a prefix of the frames of `ps` gets
    datagrams delivered to the target unchanged and in order.
   */
  lemma DatagramsArriveInOrder(xs: seq<Input>, ps: seq<seq<byte>>)
    requires CanRun(FRESH, xs) && Sendable(ps, 0xFFFF_FFFF) && SinceData(FRESH, xs) <= Frames(ps)
    ensures RunWr(FRESH, xs).datagrams <= ps && Sendable(RunWr(FRESH, xs).datagrams, LIMIT)
  {
    RunHolds(FRESH, xs, []);
    assert [] + SinceData(FRESH, xs) == SinceData(FRESH, xs);
    var w := RunWr(FRESH, xs);
    if w.mode.DATA? {
      FramesDetermine(w.datagrams, w.buf, ps);
    }
  }

  // ---------------------------------------------------------------------------
  // Which datagrams fit

  lemma HeadOfFrames(buf: seq<byte>, ps: seq<seq<byte>>)
    requires Sendable(ps, 0xFFFF_FFFF) && buf <= Frames(ps) && |buf| >= 4
    ensures ps != [] && FromBe32(buf) == |ps[0]|
  {
    assert Frames(ps)[..4] == Frame(ps[0])[..4] == Be32(|ps[0]|);
    assert buf[..4] == Frames(ps)[..4];
  }

  /** One event of a client that frames payloads within the limit: a full buffer never stays full. */
  lemma StepLeavesRoom(w: Wr, x: Input, ps: seq<seq<byte>>)
    requires w.mode.DATA? && CanTake(w, x) && x.read.Bytes? && x.world.writeOk
    requires Sendable(ps, LIMIT) && w.buf + x.read.data <= Frames(ps)
    ensures |ClientData(w, x).buf| < CAPACITY
  {
    var buf := w.buf + x.read.data;
    if |buf| >= 4 {
      HeadOfFrames(buf, ps);
    }
  }

  /**
    As long as the client frames payloads within the limit, every event of every
    run leaves room in the buffer, so a read of nothing does mean that the client left.
   */
  lemma EveryRunLeavesRoom(xs: seq<Input>, x: Input, ps: seq<seq<byte>>)
    requires CanRun(FRESH, xs) && RunWr(FRESH, xs).mode.DATA? && CanTake(RunWr(FRESH, xs), x)
    requires x.read.Bytes? && x.world.writeOk
    requires Sendable(ps, LIMIT) && SinceData(FRESH, xs) + x.read.data <= Frames(ps)
    ensures |ClientData(RunWr(FRESH, xs), x).buf| < CAPACITY
  {
    var w := RunWr(FRESH, xs);
    RunHolds(FRESH, xs, []);
    assert [] + SinceData(FRESH, xs) == SinceData(FRESH, xs);
    assert Frames(w.datagrams) + w.buf + x.read.data == Frames(w.datagrams) + (w.buf + x.read.data);
    FramesDetermine(w.datagrams, w.buf + x.read.data, ps);
    StepLeavesRoom(w, x, ps[|w.datagrams|..]);
  }

  // ---------------------------------------------------------------------------
  // How soon datagrams are delivered

  predicate StartsWithFrame(s: seq<byte>) {
    |s| >= 4 && |s| >= 4 + FromBe32(s)
  }

  /** The payloads of the complete frames a stream starts with. */
  function Deframe(s: seq<byte>): seq<seq<byte>>
    decreases |s|
  {
    if StartsWithFrame(s) then [s[4..4 + FromBe32(s)]] + Deframe(s[4 + FromBe32(s)..]) else []
  }

  function CompleteFrames(s: seq<byte>): nat {
    |Deframe(s)|
  }

  lemma HeadFrame(p: seq<byte>, rest: seq<byte>)
    requires |p| <= 0xFFFF_FFFF
    ensures var s := Frame(p) + rest;
      FromBe32(s) == |p| && s[4..4 + |p|] == p && s[4 + |p|..] == rest
  {
    var s := Frame(p) + rest;
    assert s[..4] == Be32(|p|);
    assert FromBe32(s) == FromBe32(s[..4]);
  }

  lemma FrameStarts(p: seq<byte>, rest: seq<byte>)
    requires |p| <= 0xFFFF_FFFF
    ensures Deframe(Frame(p) + rest) == [p] + Deframe(rest)
  {
    HeadFrame(p, rest);
  }

  lemma FrameBefore(p: seq<byte>, t: seq<byte>, s: seq<byte>, ps: seq<seq<byte>>, qs: seq<seq<byte>>)
    requires |p| <= 0xFFFF_FFFF && s == Frame(p) + t && ps != [] && ps[0] == p && Deframe(t) == ps[1..] + qs
    ensures Deframe(s) == ps + qs
  {
    FrameStarts(p, t);
    PutBack(ps, qs);
  }

  lemma FramesSplit(ps: seq<seq<byte>>, rest: seq<byte>) returns (t: seq<byte>)
    requires Sendable(ps, 0xFFFF_FFFF) && ps != []
    ensures t == Frames(ps[1..]) + rest && Frames(ps) + rest == Frame(ps[0]) + t
  {
    t := Frames(ps[1..]) + rest;
    Associative(Frame(ps[0]), Frames(ps[1..]), rest);
  }

  /** Deframing undoes framing. */
  lemma {:induction false} DeframeFrames(ps: seq<seq<byte>>, rest: seq<byte>, s: seq<byte>)
    requires Sendable(ps, 0xFFFF_FFFF) && s == Frames(ps) + rest
    ensures Deframe(s) == ps + Deframe(rest)
  {
    if ps == [] {
      assert s == rest;
    } else {
      var t := FramesSplit(ps, rest);
      DeframeFrames(ps[1..], rest, t);
      FrameBefore(ps[0], t, s, ps, Deframe(rest));
    }
  }

  lemma PutBack(ps: seq<seq<byte>>, qs: seq<seq<byte>>)
    requires ps != []
    ensures [ps[0]] + (ps[1..] + qs) == ps + qs
  {
  }

  /** What comes in later does not change the frames that were complete. */
  lemma {:induction false} DeframeGrows(s: seq<byte>, more: seq<byte>)
    ensures Deframe(s) <= Deframe(s + more)
    decreases |s|
  {
    if StartsWithFrame(s) {
      var n := 4 + FromBe32(s);
      DeframeGrows(s[n..], more);
      assert FromBe32(s + more) == FromBe32(s) && (s + more)[n..] == s[n..] + more;
      assert (s + more)[4..n] == s[4..n];
    }
  }

  /** Complete frames still in the buffer. */
  function Backlog(w: Wr): nat {
    CompleteFrames(w.buf)
  }

  lemma StreamIsDeliveredAndBacklog(w: Wr, stream: seq<byte>)
    requires w.mode.DATA? && Holds(w, stream)
    ensures Deframe(stream) == w.datagrams + Deframe(w.buf) && CompleteFrames(stream) == |w.datagrams| + Backlog(w)
  {
    DeframeFrames(w.datagrams, w.buf, stream);
  }

  /** A read that leaves the proxy open forwards one datagram exactly when a frame is complete by then. */
  lemma OneReadForwards(w: Wr, x: Input)
    requires w.mode.DATA? && CanTake(w, x) && ClientData(w, x).open
    ensures x.read.Bytes? && ClientData(w, x).mode.DATA?
    ensures var frames := CompleteFrames(w.buf + x.read.data);
      var forwarded := if frames > 0 then 1 else 0;
      && |ClientData(w, x).datagrams| == |w.datagrams| + forwarded && w.datagrams <= ClientData(w, x).datagrams
      && Backlog(ClientData(w, x)) == frames - forwarded
  {
  }

  lemma AtLeastSoMany(d: nat, waiting: nat, frames: nat, events: nat, out: nat)
    requires frames >= waiting && events > 0
    requires var f := if frames > 0 then 1 else 0; out >= Min(d + f + events - 1, d + frames)
    ensures out >= Min(d + events, d + waiting)
  {
  }

  function Min(a: nat, b: nat): nat {
    if a < b then a else b
  }

  /**
    Delivery is not only in order but also in time: after any `n` further reads, in any chunks,
    all the complete frames received before are forwarded, or `n` more of them.
   */
  lemma {:induction false} DeliveredInTime(w: Wr, xs: seq<Input>)
    requires w.mode.DATA? && CanRun(w, xs) && RunWr(w, xs).open
    ensures w.datagrams <= RunWr(w, xs).datagrams
    ensures |RunWr(w, xs).datagrams| >= Min(|w.datagrams| + |xs|, |w.datagrams| + Backlog(w))
    ensures |RunWr(w, xs).datagrams| <= |w.datagrams| + |xs|
    decreases |xs|
  {
    if xs != [] {
      var w1 := ClientData(w, xs[0]);
      assert w1.open by {
        assert xs[1..] != [] ==> CanTake(w1, xs[1..][0]);
      }
      OneReadForwards(w, xs[0]);
      DeframeGrows(w.buf, xs[0].read.data);
      DeliveredInTime(w1, xs[1..]);
      AtLeastSoMany(|w.datagrams|, Backlog(w), CompleteFrames(w.buf + xs[0].read.data), |xs|, |RunWr(w, xs).datagrams|);
    }
  }

  lemma LaterState(w: Wr, stream: seq<byte>, ys: seq<Input>) returns (v: Wr, later: seq<byte>)
    requires w.mode.DATA? && Holds(w, stream) && CanRun(w, ys) && RunWr(w, ys).open
    ensures v == RunWr(w, ys) && v.mode.DATA? && Holds(v, stream + later)
    ensures Min(|w.datagrams| + |ys|, CompleteFrames(stream)) <= |v.datagrams| <= |w.datagrams| + |ys|
  {
    v, later := RunWr(w, ys), SinceData(w, ys);
    StreamIsDeliveredAndBacklog(w, stream);
    DeliveredInTime(w, ys);
    StaysInData(w, ys);
    RunHolds(w, ys, stream);
  }

  lemma {:induction false} StaysInData(w: Wr, ys: seq<Input>)
    requires w.mode.DATA? && CanRun(w, ys)
    ensures RunWr(w, ys).mode.DATA?
    decreases |ys|
  {
    if ys != [] {
      StaysInData(ClientData(w, ys[0]), ys[1..]);
    }
  }

  lemma FreshHolds(xs: seq<Input>)
    requires CanRun(FRESH, xs)
    ensures Holds(RunWr(FRESH, xs), SinceData(FRESH, xs))
  {
    RunHolds(FRESH, xs, []);
    assert [] + SinceData(FRESH, xs) == SinceData(FRESH, xs);
  }

  lemma OutIsDeframed(v: Wr, stream: seq<byte>, later: seq<byte>)
    requires v.mode.DATA? && Holds(v, stream + later)
    ensures |v.datagrams| >= CompleteFrames(stream) ==> Deframe(stream) <= v.datagrams
    ensures |v.datagrams| <= CompleteFrames(stream) ==> v.datagrams <= Deframe(stream)
  {
    StreamIsDeliveredAndBacklog(v, stream + later);
    DeframeGrows(stream, later);
  }

  /**
    Over whole runs, cut anywhere at a state `w`: once as many more reads have come as complete
    frames were still waiting at the cut, the datagrams of all of them are out, unchanged.
    Before that each read has brought one more of them out.
   */
  lemma FramesAreDelivered(xs: seq<Input>, w: Wr, stream: seq<byte>, ys: seq<Input>)
    requires CanRun(FRESH, xs) && w == RunWr(FRESH, xs) && stream == SinceData(FRESH, xs)
    requires w.mode.DATA? && CanRun(w, ys) && RunWr(w, ys).open
    ensures |w.datagrams| + |ys| >= CompleteFrames(stream) ==> Deframe(stream) <= RunWr(w, ys).datagrams
    ensures |w.datagrams| + |ys| <= CompleteFrames(stream) ==>
      |RunWr(w, ys).datagrams| == |w.datagrams| + |ys| && RunWr(w, ys).datagrams <= Deframe(stream)
  {
    FreshHolds(xs);
    var v, later := LaterState(w, stream, ys);
    OutIsDeframed(v, stream, later);
  }

  // ---------------------------------------------------------------------------
  // When nothing waits

  /** After every read everything that is complete has been forwarded. */
  predicate Prompt(w: Wr, stream: seq<byte>, xs: seq<Input>)
    requires CanRun(w, xs)
    decreases |xs|
  {
    && |w.datagrams| == CompleteFrames(stream)
    && (xs != [] && xs[0].read.Bytes? ==> Prompt(ClientData(w, xs[0]), stream + xs[0].read.data, xs[1..]))
  }

  /** No read completes more than one frame. */
  predicate Spaced(stream: seq<byte>, xs: seq<Input>)
    decreases |xs|
  {
    xs != [] && xs[0].read.Bytes? ==>
      && CompleteFrames(stream + xs[0].read.data) <= CompleteFrames(stream) + 1
      && Spaced(stream + xs[0].read.data, xs[1..])
  }

  lemma NextIsPromptIff(w: Wr, x: Input, stream: seq<byte>)
    requires w.mode.DATA? && Holds(w, stream) && |w.datagrams| == CompleteFrames(stream)
    requires CanTake(w, x) && ClientData(w, x).open
    ensures x.read.Bytes? && ClientData(w, x).mode.DATA? && Holds(ClientData(w, x), stream + x.read.data)
    ensures |ClientData(w, x).datagrams| == CompleteFrames(stream + x.read.data) <==>
      CompleteFrames(stream + x.read.data) <= CompleteFrames(stream) + 1
  {
    OneReadForwards(w, x);
    StepHolds(w, x, stream);
    StreamIsDeliveredAndBacklog(ClientData(w, x), stream + x.read.data);
  }

  /** Nothing ever waits exactly when the client never completes two frames in one read. */
  lemma {:induction false} PromptIff(w: Wr, stream: seq<byte>, xs: seq<Input>)
    requires w.mode.DATA? && Holds(w, stream) && |w.datagrams| == CompleteFrames(stream)
    requires CanRun(w, xs) && RunWr(w, xs).open
    ensures Prompt(w, stream, xs) <==> Spaced(stream, xs)
    decreases |xs|
  {
    if xs != [] {
      var w1 := ClientData(w, xs[0]);
      assert w1.open by {
        assert xs[1..] != [] ==> CanTake(w1, xs[1..][0]);
      }
      NextIsPromptIff(w, xs[0], stream);
      var more := stream + xs[0].read.data;
      if |w1.datagrams| == CompleteFrames(more) {
        PromptIff(w1, more, xs[1..]);
      }
    }
  }

  lemma FirstFrameForwarded(p: seq<byte>, rest: seq<byte>)
    requires |p| <= LIMIT
    ensures OneFrame(Wr(DATA, Frame(p) + rest, true, []), true) == Wr(DATA, rest, true, [p])
  {
    HeadFrame(p, rest);
  }

  lemma TwoFramesRead(p: seq<byte>, q: seq<byte>, x: Input)
    requires 0 < |p| <= 1000 && 0 < |q| <= 1000 && x == Input(Bytes(Frame(p) + Frame(q)), CONNECTED)
    ensures var w := Wr(DATA, [], true, []);
      CanTake(w, x) && ClientData(w, x) == Wr(DATA, Frame(q), true, [p])
  {
    assert [] + (Frame(p) + Frame(q)) == Frame(p) + Frame(q);
    FirstFrameForwarded(p, Frame(q));
  }

  lemma FramesOfTwo(p: seq<byte>, q: seq<byte>)
    requires |p| <= 1000 && |q| <= 1000
    ensures Frames([p, q]) == Frame(p) + Frame(q)
  {
    assert [p, q][1..] == [q] && [q][1..] == [];
    assert Frames([q]) == Frame(q) + [];
  }

  lemma SinceDataOfTwo(w: Wr, x: Input, y: Input)
    requires CanRun(w, [x, y]) && w.mode.COMMAND? && ClientData(w, x).mode.DATA? && y.read.Bytes?
    ensures SinceData(w, [x, y]) == y.read.data
  {
    assert [x, y][1..] == [y] && [y][1..] == [];
    assert SinceData(ClientData(w, x), [y]) == y.read.data + [];
  }

  /** Two frames in one read: the second one waits until something else is read. */
  lemma SecondFrameWaits() returns (xs: seq<Input>)
    ensures CanRun(FRESH, xs) && RunWr(FRESH, xs).open
    ensures SinceData(FRESH, xs) == Frames([[1], [2]]) && RunWr(FRESH, xs).datagrams == [[1]]
  {
    var p: seq<byte>, q: seq<byte> := [1], [2];
    var connect := DataModeReached();
    var both := Input(Bytes(Frame(p) + Frame(q)), CONNECTED);
    TwoFramesRead(p, q, both);
    TwoInputs(FRESH, connect, both);
    FramesOfTwo(p, q);
    SinceDataOfTwo(FRESH, connect, both);
    xs := [connect, both];
  }

  /** A frame beyond the limit blocks the proxy: nothing is sent any more, and a full buffer ends it. */
  predicate Blocked(w: Wr) {
    w.mode.DATA? && |w.buf| >= 4 && FromBe32(w.buf) > LIMIT
  }

  lemma {:induction false} BlockedForGood(w: Wr, xs: seq<Input>)
    requires Blocked(w) && CanRun(w, xs) && |w.buf| <= CAPACITY
    ensures Blocked(RunWr(w, xs)) && RunWr(w, xs).datagrams == w.datagrams
    decreases |xs|
  {
    if xs != [] {
      BlockedForGood(ClientData(w, xs[0]), xs[1..]);
    }
  }

  const CONNECTED := World(true, true, true, true, true, true)

  function Param(key: seq<byte>, val: seq<byte>): seq<byte> {
    key + [EQUALS] + val
  }

  lemma ParamParts(key: seq<byte>, val: seq<byte>)
    requires IsWord(key) && IsWord(val)
    ensures var p := Param(key, val);
      Key(p) == key && Val(p) == val && EQUALS in p && SEMICOLON !in p && NoneOf(p, ENDS)
  {
    IndexOfFirst(key, EQUALS, val, {EQUALS});
    assert Param(key, val)[|key|] == EQUALS;
  }

  /** The shortest parameters that are wanted. */
  lemma WantedParams() returns (params: seq<seq<byte>>)
    ensures params != [] && NoneOf(Join(params), ENDS) && |Join(params)| < 100
    ensures forall i :: 0 <= i < |params| ==> Supported(params[i]) && SEMICOLON !in params[i]
    ensures LastValue(params, TYPE) == UDPSOCK && LastValue(params, MODE) == PACKET
  {
    WordsOfTheProtocol();
    ParamParts(TYPE, UDPSOCK);
    ParamParts(MODE, PACKET);
    var a, b := Param(TYPE, UDPSOCK), Param(MODE, PACKET);
    params := [a, b];
    assert params[1..] == [b] && Join(params) == a + [SEMICOLON] + b;
    assert params[..1] == [a];
    assert LastValue([a], TYPE) == UDPSOCK;
  }

  /** A connect command that is accepted. */
  lemma DataModeReached() returns (x: Input)
    ensures CanTake(FRESH, x) && ClientData(FRESH, x) == Wr(DATA, [], true, [])
  {
    var params := WantedParams();
    ConnectIsRead(params, NUL, []);
    WordsOfTheProtocol();
    var buf := CONNECT + [SPACE] + Join(params) + [NUL] + [];
    assert [] + buf == buf;
    x := Input(Bytes(buf), CONNECTED);
  }

  /** A connect command and the header of a frame of 65533 bytes block a new proxy. */
  lemma BlockingRun() returns (xs: seq<Input>)
    ensures CanRun(FRESH, xs) && RunWr(FRESH, xs).open && Blocked(RunWr(FRESH, xs))
  {
    var connect := DataModeReached();
    var header := Input(Bytes(Be32(LIMIT + 1)), CONNECTED);
    HeaderBlocks(header);
    TwoInputs(FRESH, connect, header);
    xs := [connect, header];
  }

  lemma HeaderBlocks(header: Input)
    requires header == Input(Bytes(Be32(LIMIT + 1)), CONNECTED)
    ensures var w := Wr(DATA, [], true, []);
      CanTake(w, header) && ClientData(w, header).open && Blocked(ClientData(w, header))
  {
    assert [] + Be32(LIMIT + 1) == Be32(LIMIT + 1);
  }

  lemma TwoInputs(w: Wr, x: Input, y: Input)
    requires CanTake(w, x) && CanTake(ClientData(w, x), y)
    ensures CanRun(w, [x, y]) && RunWr(w, [x, y]) == ClientData(ClientData(w, x), y)
  {
    var v := ClientData(w, x);
    assert [y][1..] == [] && CanRun(v, [y]) && RunWr(v, [y]) == ClientData(v, y);
    assert [x, y][0] == x && [x, y][1..] == [y];
  }
}
