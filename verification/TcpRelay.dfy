/**
  The TCP proxy between a client and its board: two buffers that survive short sends.

  What the operating system answers to read and send is a parameter of the event handlers;
  `sent` records what went out.
 */
module TcpRelay {
  import opened Basics

  /** The capacity both proxies reserve for their buffers. */
  const CAPACITY: nat := 65536

  datatype Read = ReadError | Eof | Bytes(data: seq<byte>)

  datatype Send = SendError | Sent(count: nat)

  /** What `read` can answer when asked for `room` bytes: asked for none, it never delivers any. */
  predicate CanRead(read: Read, room: nat) {
    read.Bytes? ==> 0 < |read.data| <= room
  }

  predicate CanSend(send: Send, offered: nat) {
    send.Sent? ==> send.count <= offered
  }

  // ---------------------------------------------------------------------------
  // TcpProxy

  /** One direction: what waits to be sent, and what was. */
  datatype Pipe = Pipe(buf: seq<byte>, sent: seq<byte>)

  datatype Exchange = Exchange(read: Read, send: Send)

  /** The operating system can answer like this. */
  predicate CanExchange(p: Pipe, x: Exchange) {
    && |p.buf| <= CAPACITY && CanRead(x.read, CAPACITY - |p.buf|)
    && (x.read.Bytes? ==> CanSend(x.send, |p.buf| + |x.read.data|))
  }

  /** `TcpProxy::on_data`: append what was read, offer everything, keep what was not taken. */
  function Relayed(p: Pipe, x: Exchange): Pipe
    requires CanExchange(p, x)
  {
    if !x.read.Bytes? then p
    else
      var buf := p.buf + x.read.data;
      if x.send.SendError? then p.(buf := buf) else Pipe(buf[x.send.count..], p.sent + buf[..x.send.count])
  }

  /** Anything else closes the proxy, and with it both directions. */
  predicate Succeeds(x: Exchange) {
    x.read.Bytes? && x.send.Sent?
  }

  datatype Side = Client | Target

  datatype Event = Event(from: Side, x: Exchange)

  datatype Tcp = Tcp(fromClient: Pipe, fromTarget: Pipe, open: bool)

  function PipeOf(t: Tcp, side: Side): Pipe {
    if side.Client? then t.fromClient else t.fromTarget
  }

  predicate CanHandle(t: Tcp, e: Event) {
    t.open && CanExchange(PipeOf(t, e.from), e.x)
  }

  function Handled(t: Tcp, e: Event): Tcp
    requires CanHandle(t, e)
  {
    var p := Relayed(PipeOf(t, e.from), e.x);
    Tcp(if e.from.Client? then p else t.fromClient, if e.from.Target? then p else t.fromTarget, Succeeds(e.x))
  }

  /** One direction's buffer. */
  class Relay {
    var buf: seq<byte>
    ghost var sent: seq<byte>

    ghost function View(): Pipe
      reads this
    {
      Pipe(buf, sent)
    }

    constructor ()
      ensures View() == Pipe([], [])
    {
      buf, sent := [], [];
    }

    method OnData(read: Read, send: Send) returns (ok: bool)
      requires CanExchange(View(), Exchange(read, send))
      modifies this
      ensures View() == Relayed(old(View()), Exchange(read, send)) && ok == Succeeds(Exchange(read, send))
    {
      if read.ReadError? || read.Eof? {
        return false;
      }
      buf := buf + read.data;
      if send.SendError? {
        return false;
      }
      sent := sent + buf[..send.count];
      buf := buf[send.count..];
      ok := true;
    }
  }

  /** A TCP proxy relays both ways over separate buffers until one way fails. */
  class TcpProxy {
    const fromClient: Relay
    const fromTarget: Relay
    var open: bool

    ghost function View(): Tcp
      reads this, fromClient, fromTarget
    {
      Tcp(fromClient.View(), fromTarget.View(), open)
    }

    constructor ()
      ensures fromClient != fromTarget && View() == NEW_TCP
    {
      fromClient := new Relay();
      fromTarget := new Relay();
      open := true;
    }

    method OnClientData(read: Read, send: Send)
      requires fromClient != fromTarget && CanHandle(View(), Event(Client, Exchange(read, send)))
      modifies this`open, fromClient
      ensures View() == Handled(old(View()), Event(Client, Exchange(read, send)))
    {
      open := fromClient.OnData(read, send);
    }

    method OnTargetData(read: Read, send: Send)
      requires fromClient != fromTarget && CanHandle(View(), Event(Target, Exchange(read, send)))
      modifies this`open, fromTarget
      ensures View() == Handled(old(View()), Event(Target, Exchange(read, send)))
    {
      open := fromTarget.OnData(read, send);
    }
  }

  const NEW_TCP := Tcp(Pipe([], []), Pipe([], []), true)

  predicate CanRelay(t: Tcp, es: seq<Event>)
    decreases |es|
  {
    es != [] ==> CanHandle(t, es[0]) && CanRelay(Handled(t, es[0]), es[1..])
  }

  function RelayAll(t: Tcp, es: seq<Event>): Tcp
    requires CanRelay(t, es)
    decreases |es|
  {
    if es == [] then t else RelayAll(Handled(t, es[0]), es[1..])
  }

  /** All bytes read from one side, in order. */
  function BytesIn(es: seq<Event>, side: Side): seq<byte> {
    if es == [] then []
    else (if es[0].from == side && es[0].x.read.Bytes? then es[0].x.read.data else []) + BytesIn(es[1..], side)
  }

  /** How many bytes the other side took. */
  function CountOut(es: seq<Event>, side: Side): nat {
    if es == [] then 0
    else (if es[0].from == side && Succeeds(es[0].x) then es[0].x.send.count else 0) + CountOut(es[1..], side)
  }

  lemma InOneByOne(es: seq<Event>, side: Side)
    requires es != []
    ensures BytesIn(es, side) == BytesIn([es[0]], side) + BytesIn(es[1..], side)
    ensures CountOut(es, side) == CountOut([es[0]], side) + CountOut(es[1..], side)
  {
    assert [es[0]][1..] == [];
  }

  lemma HandledConserves(t: Tcp, e: Event, side: Side)
    requires CanHandle(t, e) && |PipeOf(t, side).buf| <= CAPACITY
    ensures var p, q := PipeOf(t, side), PipeOf(Handled(t, e), side);
      && q.sent + q.buf == p.sent + p.buf + BytesIn([e], side)
      && |q.sent| == |p.sent| + CountOut([e], side) && |q.buf| <= CAPACITY
  {
    assert [e][1..] == [];
  }

  /**
    For every interleaving of reads and short sends in both directions, the bytes received
    from a side are the bytes sent on followed by the buffer, which stays within its capacity.
   */
  lemma {:induction false} RelayConserves(t: Tcp, es: seq<Event>, side: Side)
    requires |PipeOf(t, side).buf| <= CAPACITY && CanRelay(t, es)
    ensures var p, q := PipeOf(t, side), PipeOf(RelayAll(t, es), side);
            && q.sent + q.buf == p.sent + p.buf + BytesIn(es, side)
            && |q.sent| == |p.sent| + CountOut(es, side)
            && |q.buf| <= CAPACITY
    decreases |es|
  {
    if es != [] {
      HandledConserves(t, es[0], side);
      RelayConserves(Handled(t, es[0]), es[1..], side);
      InOneByOne(es, side);
      Associative(PipeOf(t, side).sent + PipeOf(t, side).buf, BytesIn([es[0]], side), BytesIn(es[1..], side));
    }
  }

  // ---------------------------------------------------------------------------
  // When a buffer is full

  predicate IsFull(t: Tcp, side: Side) {
    |PipeOf(t, side).buf| == CAPACITY
  }

  /** The event reads to capacity, and the send takes nothing. */
  predicate Fills(t: Tcp, e: Event, side: Side) {
    && e.from == side && e.x.read.Bytes? && e.x.send == Sent(0)
    && |PipeOf(t, side).buf| + |e.x.read.data| == CAPACITY
  }

  lemma FullAfterIff(t: Tcp, e: Event, side: Side)
    requires CanHandle(t, e) && Handled(t, e).open
    ensures IsFull(Handled(t, e), side) <==> Fills(t, e, side) || (e.from != side && IsFull(t, side))
  {
  }

  lemma {:induction false} PrefixCanRelay(t: Tcp, es: seq<Event>, k: nat)
    requires CanRelay(t, es) && k <= |es|
    ensures CanRelay(t, es[..k])
    ensures k < |es| ==>
      && CanHandle(RelayAll(t, es[..k]), es[k]) && CanRelay(t, es[..k + 1])
      && RelayAll(t, es[..k + 1]) == Handled(RelayAll(t, es[..k]), es[k])
    decreases |es|
  {
    if k > 0 {
      PrefixCanRelay(Handled(t, es[0]), es[1..], k - 1);
      assert es[..k][1..] == es[1..][..k - 1];
      if k < |es| {
        assert es[..k + 1][1..] == es[1..][..k];
      }
    } else if es != [] {
      assert es[..1][1..] == [];
    }
  }

  /** Event `k` fills the buffer of a side, and nothing is read from that side afterwards. */
  predicate FilledAt(t: Tcp, es: seq<Event>, side: Side, k: nat)
    requires CanRelay(t, es)
  {
    && k < |es| && CanRelay(t, es[..k]) && Fills(RelayAll(t, es[..k]), es[k], side)
    && forall j :: k < j < |es| ==> es[j].from != side
  }

  /** A run leaves an open proxy with a full buffer exactly when the last send of that side took nothing of a full buffer. */
  lemma {:induction false} FullIff(t: Tcp, es: seq<Event>, side: Side)
    requires CanRelay(t, es) && !IsFull(t, side) && RelayAll(t, es).open
    ensures IsFull(RelayAll(t, es), side) <==> exists k: nat :: FilledAt(t, es, side, k)
    decreases |es|
  {
    if es != [] {
      var n := |es| - 1;
      PrefixCanRelay(t, es, n);
      assert es[..n + 1] == es;
      var u := RelayAll(t, es[..n]);
      FullIff(t, es[..n], side);
      FullAfterIff(u, es[n], side);
      if Fills(u, es[n], side) {
        assert FilledAt(t, es, side, n);
      }
      forall k: nat | FilledAt(t, es, side, k) && k < n ensures FilledAt(t, es[..n], side, k) {
        assert es[..n][..k] == es[..k];
      }
      forall k: nat | FilledAt(t, es[..n], side, k) && es[n].from != side ensures FilledAt(t, es, side, k) {
        assert es[..n][..k] == es[..k];
      }
    }
  }

  /** As long as every send takes something, no buffer is ever full, so a read of nothing does mean the end. */
  lemma SendsKeepRoom(t: Tcp, es: seq<Event>, side: Side)
    requires CanRelay(t, es) && !IsFull(t, side) && RelayAll(t, es).open
    requires forall k :: 0 <= k < |es| ==> es[k].x.send != Sent(0)
    ensures |PipeOf(RelayAll(t, es), side).buf| != CAPACITY
  {
    FullIff(t, es, side);
  }

  /** A full buffer ends the proxy at the next event of its side: the read finds no room. */
  lemma FullBufferEndsTheConnection(t: Tcp, e: Event)
    requires IsFull(t, e.from) && CanHandle(t, e)
    ensures !Handled(t, e).open && PipeOf(Handled(t, e), e.from) == PipeOf(t, e.from)
  {
  }

  /** One read to capacity and one send that takes nothing fill a new proxy. */
  lemma FillingRun() returns (es: seq<Event>)
    ensures CanRelay(NEW_TCP, es) && RelayAll(NEW_TCP, es).open && IsFull(RelayAll(NEW_TCP, es), Client)
  {
    var data: seq<byte> := seq(CAPACITY, _ => 0);
    es := [Event(Client, Exchange(Bytes(data), Sent(0)))];
    assert es[1..] == [];
    assert [] + data == data;
  }
}
