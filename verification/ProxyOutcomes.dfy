/**
  What ends a proxy connection, what a connect command starts, and the order of the bytes of
  a frame's length.
 */
module ProxyOutcomes {
  import opened Basics
  import opened Numerals
  import opened TcpRelay
  import opened ConnectCommand
  import opened Framing

  // ---------------------------------------------------------------------------
  // The length of a frame

  /** The length is written in network order: as a number of four digits to base 256. */
  lemma NetworkOrder(b: seq<byte>)
    requires |b| == 4
    ensures FromBe32(b) == Positional(256, b) && Positional(256, b) < 0x1_0000_0000 && Be32(Positional(256, b)) == b
  {
    FourDigits(b);
    TakenApart(b[0], b[1], b[2], b[3], FromBe32(b));
  }

  lemma TakenApart(p: nat, q: nat, r: nat, s: nat, n: nat)
    requires p < 256 && q < 256 && r < 256 && s < 256 && n == ((p * 256 + q) * 256 + r) * 256 + s
    ensures n < 0x1_0000_0000 && n % 256 == s && n / 256 % 256 == r && n / 256 / 256 % 256 == q && n / 256 / 256 / 256 == p
  {
    assert n / 256 == (p * 256 + q) * 256 + r;
    assert n / 256 / 256 == p * 256 + q;
  }

  lemma FourDigits(b: seq<nat>)
    requires |b| == 4
    ensures Positional(256, b) == ((b[0] * 256 + b[1]) * 256 + b[2]) * 256 + b[3]
  {
    var c, d, e := b[..3], b[..2], b[..1];
    assert c[..2] == d && d[..1] == e && e[..0] == [];
    assert Positional(256, e) == b[0];
    assert Positional(256, d) == b[0] * 256 + b[1];
  }

  // ---------------------------------------------------------------------------
  // The TCP relay

  /** An event that does not end the connection: bytes were read, and sending did not fail. */
  predicate Works(e: Event) {
    match e.x.read
    case Bytes(_) => (match e.x.send case Sent(_) => true case SendError => false)
    case Eof => false
    case ReadError => false
  }

  /** A relay is open exactly as long as every event works; only the last event of a run can fail. */
  lemma {:induction false} OpenIff(t: Tcp, es: seq<Event>)
    requires t.open && CanRelay(t, es)
    ensures RelayAll(t, es).open <==> forall i :: 0 <= i < |es| ==> Works(es[i])
    ensures forall i :: 0 <= i < |es| - 1 ==> Works(es[i])
    decreases |es|
  {
    if es != [] {
      var u, rest := Handled(t, es[0]), es[1..];
      assert es == [es[0]] + rest;
      if rest != [] {
        OpenIff(u, rest);
        assert forall i :: 0 <= i < |rest| ==> es[i + 1] == rest[i];
      }
    }
  }

  // ---------------------------------------------------------------------------
  // The connect command

  /** The bytes of the first `n` reads. */
  function Received(xs: seq<Input>, n: nat): seq<byte>
    requires n <= |xs|
  {
    if n == 0 then [] else Received(xs, n - 1) + if xs[n - 1].read.Bytes? then xs[n - 1].read.data else []
  }

  /** With read `k` the command is complete and wanted, and everything it needs is there. */
  predicate Connects(buf: seq<byte>, xs: seq<Input>, k: nat)
    requires k < |xs|
  {
    && xs[k].read.Bytes? && ParseCommand(buf + Received(xs, k + 1)).Wanted?
    && xs[k].world.portOk && xs[k].world.hasBoard && xs[k].world.addressOk && xs[k].world.dialOk
  }

  lemma {:induction false} ReceivedLater(xs: seq<Input>, n: nat)
    requires n < |xs|
    ensures Received(xs, n + 1) == Received(xs, 1) + Received(xs[1..], n)
  {
    if n > 0 {
      ReceivedLater(xs, n - 1);
      assert xs[1..][n - 1] == xs[n];
    }
  }

  lemma {:induction false} SameBytes(buf: seq<byte>, xs: seq<Input>, k: nat)
    requires k + 1 < |xs|
    ensures buf + Received(xs, k + 2) == buf + Received(xs, 1) + Received(xs[1..], k + 1)
  {
    ReceivedLater(xs, k + 1);
    Associative(buf, Received(xs, 1), Received(xs[1..], k + 1));
  }

  lemma {:induction false} ConnectsLater(buf: seq<byte>, data: seq<byte>, xs: seq<Input>, k: nat)
    requires k + 1 < |xs| && data == Received(xs, 1)
    ensures Connects(buf, xs, k + 1) == Connects(buf + data, xs[1..], k)
  {
    SameBytes(buf, xs, k);
    assert ParseCommand(buf + Received(xs, k + 2)) == ParseCommand(buf + data + Received(xs[1..], k + 1));
    assert xs[1..][k] == xs[k + 1];
  }

  /**
    Over every run of reads in command mode: data mode is entered exactly when some read completes
    a wanted connect command and the port, the board, its address and the connection are all right.
   */
  lemma {:induction false} DataModeIff(w: Wr, xs: seq<Input>)
    requires w.mode.COMMAND? && CanRun(w, xs)
    ensures RunWr(w, xs).mode.DATA? <==> exists k :: 0 <= k < |xs| && Connects(w.buf, xs, k)
    decreases |xs|
  {
    if xs != [] {
      var x, rest := xs[0], xs[1..];
      var v, data := ClientData(w, x), Received(xs, 1);
      assert Received(xs, 1) == if x.read.Bytes? then x.read.data else [];
      if v.mode.DATA? {
        assert Connects(w.buf, xs, 0);
        StaysInData(v, rest);
      } else {
        assert !Connects(w.buf, xs, 0);
        if rest != [] {
          DataModeIff(v, rest);
          forall k | 0 <= k < |rest| ensures Connects(w.buf, xs, k + 1) == Connects(v.buf, rest, k) {
            ConnectsLater(w.buf, data, xs, k);
          }
          assert forall k :: 1 <= k < |xs| && Connects(w.buf, xs, k) ==> Connects(v.buf, rest, k - 1);
        }
      }
    }
  }

  // ---------------------------------------------------------------------------
  // Parameters

  /** Of several parameters with the same key the last one counts. */
  lemma {:induction false} LastOneCounts(params: seq<seq<byte>>, key: seq<byte>, i: nat)
    requires i < |params| && Key(params[i]) == key && forall j :: i < j < |params| ==> Key(params[j]) != key
    ensures LastValue(params, key) == Val(params[i])
  {
    if i < |params| - 1 {
      LastOneCounts(params[..|params| - 1], key, i);
    }
  }

  lemma {:induction false} MissingIsEmpty(params: seq<seq<byte>>, key: seq<byte>)
    requires forall j :: 0 <= j < |params| ==> Key(params[j]) != key
    ensures LastValue(params, key) == []
  {
    if params != [] {
      MissingIsEmpty(params[..|params| - 1], key);
    }
  }
}
