/**
 The ring of transmit buffers of the kernel driver (nf2_control.c), as data: what the
 critical sections of nf2c_tx, nf2c_intr and nf2c_release do to it.
 */
module TransmitRing {

  const MAX_IFACE: nat := 4

  type Port = p: nat | p < MAX_IFACE

  /** A socket buffer and the interface it is to leave by. */
  datatype Pkt = Pkt(skb: int, port: Port)

  datatype Ring = Ring(buf: seq<Pkt>, wr: nat, rd: nat, free: int, freePort: seq<int>) {
    predicate Shaped() {
      |buf| > 0 && wr < |buf| && rd < |buf| && |freePort| == MAX_IFACE
    }

    /** The packet at the front. */
    function Front(): Pkt
      requires Shaped()
    {
      buf[rd]
    }
  }

  /** nf2c_tx, first half: the slot is written and the write index moves. */
  function Store(r: Ring, p: Pkt): Ring
    requires r.Shaped()
  {
    r.(buf := r.buf[r.wr := p], wr := (r.wr + 1) % |r.buf|)
  }

  /** nf2c_tx, second half: the free counts drop. */
  function CountStored(r: Ring, port: Port): Ring
    requires r.Shaped()
  {
    r.(free := r.free - 1, freePort := r.freePort[port := r.freePort[port] - 1])
  }

  /** Completion: the read index moves. */
  function Advance(r: Ring): Ring
    requires r.Shaped()
  {
    r.(rd := (r.rd + 1) % |r.buf|)
  }

  /** Completion: the free counts rise. */
  function CountRetired(r: Ring, port: Port): Ring
    requires r.Shaped()
  {
    r.(free := r.free + 1, freePort := r.freePort[port := r.freePort[port] + 1])
  }

  /** How many packets of the queue are for a port. */
  function ForPort(q: seq<Pkt>, port: Port): nat {
    if q == [] then 0 else ForPort(q[..|q| - 1], port) + if q[|q| - 1].port == port then 1 else 0
  }

  lemma {:induction false} ForPortFront(q: seq<Pkt>, port: Port)
    requires q != []
    ensures ForPort(q, port) == (if q[0].port == port then 1 else 0) + ForPort(q[1..], port)
  {
    if |q| > 1 {
      var n := |q| - 1;
      ForPortFront(q[..n], port);
      assert q[..n][1..] == q[1..][..n - 1];
    } else {
      assert q[..0] == [] && q[1..] == [];
    }
  }

  /**
   The ring holds the queue of packets enqueued but not yet retired. The k-th packet ever
   enqueued sits in slot k modulo the pool.
   */
  ghost predicate Holds(r: Ring, enqueued: seq<Pkt>, retired: nat) {
    && r.Shaped() && retired <= |enqueued| <= retired + |r.buf|
    && r.wr == |enqueued| % |r.buf| && r.rd == retired % |r.buf|
    && r.free == |r.buf| - (|enqueued| - retired)
    && Slots(r, enqueued, retired)
  }

  ghost predicate Slots(r: Ring, enqueued: seq<Pkt>, retired: nat)
    requires |r.buf| > 0
  {
    forall k {:trigger enqueued[k]} :: retired <= k < |enqueued| ==> r.buf[k % |r.buf|] == enqueued[k]
  }

  /** Every port has its share of the pool, less what is queued for it. */
  ghost predicate PortsBalanced(r: Ring, enqueued: seq<Pkt>, retired: nat) {
    && |r.freePort| == MAX_IFACE && retired <= |enqueued|
    && forall p: Port {:trigger r.freePort[p]} :: r.freePort[p] + ForPort(enqueued[retired..], p) == |r.buf| / MAX_IFACE
  }

  lemma MulSign(n: int, d: int)
    requires n > 0
    ensures d >= 1 ==> n * d >= n
    ensures d <= -1 ==> n * d <= -n
  {
    if d >= 1 {
      assert n * d == n * (d - 1) + n;
    } else if d <= -1 {
      assert n * d == n * (d + 1) - n;
    }
  }

  /** Two positions less than a pool apart use different slots. */
  lemma SlotsDiffer(a: nat, b: nat, n: nat)
    requires a < b < a + n
    ensures a % n != b % n
  {
    var i, j, r := a / n, b / n, a % n;
    assert a == n * i + r && b == n * j + b % n;
    if b % n == r {
      Distribute(n, j, i);
      MulSign(n, j - i);
    }
  }

  lemma Distribute(n: int, a: int, b: int)
    ensures n * (a - b) == n * a - n * b && n * (a + b) == n * a + n * b
  {
  }

  lemma NextSlot(a: nat, n: nat)
    requires n > 0
    ensures (a % n + 1) % n == (a + 1) % n
  {
    var i := a / n;
    assert a == n * i + a % n;
    if a % n + 1 < n {
      ModIs(a + 1, n, i, a % n + 1);
    } else {
      assert a + 1 == n * (i + 1);
      ModIs(a + 1, n, i + 1, 0);
    }
  }

  lemma ModIs(a: nat, n: nat, q: nat, r: nat)
    requires r < n && a == n * q + r
    ensures a % n == r
  {
    var q', r' := a / n, a % n;
    assert a == n * q' + r';
    Distribute(n, q, q');
    MulSign(n, q - q');
    assert n * (q - q') == r' - r;
  }

  /** The write index follows from the read index and the free count. */
  lemma WriteIndex(r: Ring, enqueued: seq<Pkt>, retired: nat)
    requires Holds(r, enqueued, retired)
    ensures r.wr == (r.rd + |r.buf| - r.free) % |r.buf|
  {
    var n, queued := |r.buf|, |enqueued| - retired;
    ModPlus(retired, queued, n);
  }

  lemma ModPlus(a: nat, b: nat, n: nat)
    requires n > 0
    ensures (a % n + b) % n == (a + b) % n
  {
    var i := a / n;
    assert a == n * i + a % n;
    var s := a % n + b;
    assert a + b == n * i + s;
    var j := s / n;
    assert s == n * j + s % n;
    Distribute(n, i, -j);
    assert n * i + n * j == n * (i + j);
    ModIs(a + b, n, i + j, s % n);
  }

  /** Storing a packet when a buffer is free does not disturb the queue. */
  lemma StoreKeepsSlots(r: Ring, enqueued: seq<Pkt>, retired: nat, p: Pkt)
    requires Holds(r, enqueued, retired) && r.free > 0
    ensures Slots(Store(r, p), enqueued, retired)
    ensures Store(r, p).buf[|enqueued| % |r.buf|] == p && Store(r, p).wr == (|enqueued| + 1) % |r.buf|
  {
    var n := |r.buf|;
    NextSlot(|enqueued|, n);
    forall k | retired <= k < |enqueued| ensures Store(r, p).buf[k % n] == enqueued[k] {
      SlotsDiffer(k, |enqueued|, n);
    }
  }

  /** Storing and counting a packet appends it to the queue. */
  lemma PushKeepsRing(r: Ring, enqueued: seq<Pkt>, retired: nat, p: Pkt)
    requires Holds(r, enqueued, retired) && r.free > 0
    ensures Holds(CountStored(Store(r, p), p.port), enqueued + [p], retired)
  {
    StoreKeepsSlots(r, enqueued, retired, p);
    var r' := CountStored(Store(r, p), p.port);
    forall k | retired <= k < |enqueued + [p]| ensures r'.buf[k % |r.buf|] == (enqueued + [p])[k] {
      if k < |enqueued| {
        assert Store(r, p).buf[k % |r.buf|] == enqueued[k];
      }
    }
  }

  /** The front of a non-empty queue is the oldest packet, and advancing removes it. */
  lemma PopKeepsRing(r: Ring, enqueued: seq<Pkt>, retired: nat)
    requires Holds(r, enqueued, retired) && retired < |enqueued|
    ensures r.Front() == enqueued[retired]
    ensures Holds(Advance(r).(free := r.free + 1), enqueued, retired + 1)
  {
    NextSlot(retired, |r.buf|);
    assert Slots(r, enqueued, retired);
  }

  /**
   The drain of nf2c_release restores the total but not the counts per port: they balance
   afterwards if and only if nothing was queued.
   */
  lemma DrainBalancesIff(r: Ring, enqueued: seq<Pkt>, retired: nat)
    requires Holds(r, enqueued, retired) && PortsBalanced(r, enqueued, retired)
    ensures PortsBalanced(r.(rd := |enqueued| % |r.buf|, free := |r.buf|), enqueued, |enqueued|) <==>
            retired == |enqueued|
  {
    var q := enqueued[retired..];
    assert enqueued[|enqueued|..] == [];
    if retired < |enqueued| {
      var p := q[0].port;
      ForPortFront(q, p);
      assert r.freePort[p] + ForPort(q, p) == |r.buf| / MAX_IFACE;
    } else {
      assert q == [];
    }
  }

  // ----- the buffers themselves

  class TxBuffers {
    const txbuff: array<Pkt>
    var wr: nat
    var rd: nat
    var free: int
    var freePort: seq<int>

    constructor (pool: nat, blank: Pkt)
      requires pool > 0
      ensures fresh(txbuff) && txbuff.Length == pool && free == pool
      ensures Holds(AsRing(), [], 0) && PortsBalanced(AsRing(), [], 0)
    {
      txbuff := new Pkt[pool](_ => blank);
      wr, rd, free := 0, 0, pool;
      freePort := seq(MAX_IFACE, _ => pool / MAX_IFACE);
    }

    ghost function AsRing(): Ring
      reads this, txbuff
    {
      Ring(txbuff[..], wr, rd, free, freePort)
    }

    /** The locked part of nf2c_tx before it sends; `full` is its error return. */
    method StorePacket(p: Pkt, ghost enqueued: seq<Pkt>, ghost retired: nat) returns (full: bool)
      requires Holds(AsRing(), enqueued, retired)
      modifies this`wr, this`free, this`freePort, txbuff
      ensures full <==> |enqueued| - retired == txbuff.Length
      ensures full ==> AsRing() == old(AsRing())
      ensures !full ==> AsRing() == CountStored(Store(old(AsRing()), p), p.port)
      ensures !full ==> Holds(AsRing(), enqueued + [p], retired)
    {
      if free == 0 {
        return true;
      }
      PushKeepsRing(AsRing(), enqueued, retired, p);
      txbuff[wr] := p;
      wr := (wr + 1) % txbuff.Length;
      free := free - 1;
      freePort := freePort[p.port := freePort[p.port] - 1];
      full := false;
    }

    /** The locked part of the completion branch of nf2c_intr. */
    method RetirePacket(ghost enqueued: seq<Pkt>, ghost retired: nat) returns (p: Pkt)
      requires Holds(AsRing(), enqueued, retired) && retired < |enqueued|
      modifies this`rd, this`free, this`freePort
      ensures p == enqueued[retired] && AsRing() == CountRetired(Advance(old(AsRing())), p.port)
      ensures Holds(AsRing(), enqueued, retired + 1)
    {
      PopKeepsRing(AsRing(), enqueued, retired);
      p := txbuff[rd];
      rd := (rd + 1) % txbuff.Length;
      free := free + 1;
      freePort := freePort[p.port := freePort[p.port] + 1];
    }

    /** The drain of nf2c_release: every queued packet is freed once, oldest first. */
    method Drain(ghost enqueued: seq<Pkt>, ghost retired: nat) returns (freed: seq<Pkt>)
      requires Holds(AsRing(), enqueued, retired)
      modifies this`rd, this`free
      ensures freed == enqueued[retired..]
      ensures free == txbuff.Length && Holds(AsRing(), enqueued, |enqueued|)
      ensures AsRing() == old(AsRing()).(rd := |enqueued| % txbuff.Length, free := txbuff.Length)
    {
      freed := [];
      ghost var n := retired;
      while free < txbuff.Length
        invariant retired <= n <= |enqueued| && freed == enqueued[retired..n]
        invariant Holds(AsRing(), enqueued, n)
        decreases |enqueued| - n
      {
        PopKeepsRing(AsRing(), enqueued, n);
        freed := freed + [txbuff[rd]];
        rd := (rd + 1) % txbuff.Length;
        free := free + 1;
        n := n + 1;
      }
    }
  }
}
