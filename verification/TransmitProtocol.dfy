/**
 The transmit path of the kernel driver as a concurrent system (nf2_control.c): any number
 of threads run nf2c_tx, nf2c_send and the completion branch of nf2c_intr, one memory
 access or locked update at a time. The counter `dma_tx_in_progress` is the only thing that
 keeps two of them from starting a transfer at once.
 */
module TransmitProtocol {
  import opened TransmitRing

  /**
   Where a thread stands. `locked` tells whether nf2c_send was called by nf2c_tx, which
   holds the buffer lock meanwhile.
   */
  datatype Pc =
    | Idle
    | TxLocked(pkt: Pkt)
    | TxStored(pkt: Pkt)
    | TxUnlock
    | SendEnter(locked: bool)
    | SendBackoff(locked: bool)
    | SendWon(locked: bool)
    | SendNonEmpty(locked: bool)
    | SendReady(locked: bool, port: Port)
    | SendGiveUp(locked: bool)
    | IntrSeen(port: Port)
    | ClearSeen
    | IntrLocked(port: Port)
    | IntrAdvanced(port: Port)
    | IntrCounted(port: Port)
    | IntrDropped
    | IntrCheck

  /** Bookkeeping that the driver does not have: who the first increment of the counter belongs to. */
  datatype Token = NoOne | Caller(thread: nat) | Hardware | Handler(thread: nat)

  /**
   The card. `hw` lists the transfers the hardware is working on, `done` is a pending
   completion interrupt. The last four fields record history.
   */
  datatype Card = Card(
    ring: Ring, inProgress: int, canWrite: set<Port>, lock: int, hw: seq<Pkt>, done: bool, pcs: seq<Pc>,
    enqueued: seq<Pkt>, started: seq<Pkt>, retired: nat, token: Token)

  datatype Event =
    | Tx(thread: nat, pkt: Pkt)       // the kernel hands a packet over
    | Go(thread: nat)                 // a thread takes its next step
    | Complete                        // the hardware finishes a transfer
    | Interrupt(thread: nat)          // the completion interrupt is taken
    // the hardware reports which ports accept packets; while a packet is received nothing is sent then
    | QueueStatus(thread: nat, ports: set<Port>, rxBusy: bool)
    | ClearFlags(thread: nat)         // error path: reset, nf2c_clear_dma_flags, then a send

  function At(c: Card, t: nat, pc: Pc): Card
    requires t < |c.pcs|
  {
    c.(pcs := c.pcs[t := pc])
  }

  /** nf2c_send returns. */
  function Leave(locked: bool): Pc {
    if locked then TxUnlock else Idle
  }

  /** The locked part of nf2c_tx around nf2c_send. */
  function TxStep(c: Card, t: nat): Card
    requires t < |c.pcs| && c.ring.Shaped()
  {
    match c.pcs[t]
    case TxLocked(p) =>
      if c.ring.free == 0 then At(c, t, TxUnlock)
      else At(c, t, TxStored(p)).(ring := Store(c.ring, p))
    case TxStored(p) =>
      At(c, t, SendEnter(true)).(ring := CountStored(c.ring, p.port), enqueued := c.enqueued + [p])
    case TxUnlock =>
      At(c, t, Idle).(lock := -1)
    case _ => c
  }

  /** nf2c_send. */
  function SendStep(c: Card, t: nat): Card
    requires t < |c.pcs| && c.ring.Shaped()
  {
    match c.pcs[t]
    case SendEnter(l) =>
      if c.inProgress + 1 != 1 then At(c, t, SendBackoff(l)).(inProgress := c.inProgress + 1)
      else At(c, t, SendWon(l)).(inProgress := c.inProgress + 1, token := Caller(t))
    case SendBackoff(l) =>
      At(c, t, Leave(l)).(inProgress := c.inProgress - 1)
    case SendWon(l) =>
      if c.ring.free == |c.ring.buf| then At(c, t, SendGiveUp(l)) else At(c, t, SendNonEmpty(l))
    case SendNonEmpty(l) =>
      var port := c.ring.Front().port;
      if port !in c.canWrite then At(c, t, SendGiveUp(l)) else At(c, t, SendReady(l, port))
    case SendReady(l, port) =>
      var pkt := Pkt(c.ring.Front().skb, port);
      At(c, t, Leave(l)).(hw := c.hw + [pkt], started := c.started + [pkt], token := Hardware)
    case SendGiveUp(l) =>
      At(c, t, Leave(l)).(inProgress := c.inProgress - 1, token := NoOne)
    case _ => c
  }

  /** The completion branch of nf2c_intr. A thread that waits for the lock does not move. */
  function IntrStep(c: Card, t: nat): Card
    requires t < |c.pcs| && c.ring.Shaped()
  {
    match c.pcs[t]
    case IntrSeen(port) =>
      if c.lock != -1 then c else At(c, t, IntrLocked(port)).(lock := t)
    case ClearSeen =>
      if c.lock != -1 then c else At(c, t, IntrLocked(c.ring.Front().port)).(lock := t)
    case IntrLocked(port) =>
      At(c, t, IntrAdvanced(port)).(ring := Advance(c.ring))
    case IntrAdvanced(port) =>
      At(c, t, IntrCounted(port)).(ring := CountRetired(c.ring, port), retired := c.retired + 1)
    case IntrCounted(port) =>
      At(c, t, IntrDropped).(inProgress := c.inProgress - 1, token := NoOne)
    case IntrDropped =>
      At(c, t, IntrCheck).(lock := -1)
    case IntrCheck =>
      At(c, t, if c.ring.free != |c.ring.buf| then SendEnter(false) else Idle)
    case _ => c
  }

  predicate InTx(pc: Pc) {
    pc.TxLocked? || pc.TxStored? || pc.TxUnlock?
  }

  predicate InSend(pc: Pc) {
    pc.SendEnter? || pc.SendBackoff? || HoldsSend(pc)
  }

  function GoStep(c: Card, t: nat): Card
    requires t < |c.pcs| && c.ring.Shaped()
  {
    if InTx(c.pcs[t]) then TxStep(c, t) else if InSend(c.pcs[t]) then SendStep(c, t) else IntrStep(c, t)
  }

  function Step(c: Card, e: Event): Card
    requires c.ring.Shaped()
  {
    match e
    case Tx(t, p) =>
      if t < |c.pcs| && c.pcs[t].Idle? && c.lock == -1 then At(c, t, TxLocked(p)).(lock := t) else c
    case Go(t) =>
      if t < |c.pcs| then GoStep(c, t) else c
    case Complete =>
      if c.hw != [] && !c.done then c.(hw := c.hw[1..], done := true) else c
    case Interrupt(t) =>
      if !(t < |c.pcs| && c.pcs[t].Idle? && c.done) then c
      else if c.inProgress == 0 then c.(done := false)
      else At(c, t, IntrSeen(c.ring.Front().port)).(done := false, token := Handler(t))
    case QueueStatus(t, ports, rxBusy) =>
      if !(t < |c.pcs| && c.pcs[t].Idle?) then c
      else if rxBusy then c.(canWrite := ports)
      else At(c, t, IntrCheck).(canWrite := ports)
    case ClearFlags(t) =>
      if !(t < |c.pcs| && c.pcs[t].Idle?) then c
      else if c.inProgress == 0 then At(c, t, IntrCheck).(hw := [], done := false)
      else At(c, t, ClearSeen).(hw := [], done := false, token := Handler(t))
  }

  // ----- the invariant

  /** The thread has incremented the counter and not yet decremented it again. */
  predicate InWindow(pc: Pc) {
    pc.SendBackoff? || HoldsSend(pc) || HoldsIntr(pc)
  }

  predicate HoldsSend(pc: Pc) {
    pc.SendWon? || pc.SendNonEmpty? || pc.SendReady? || pc.SendGiveUp?
  }

  /** The completion handler, from reading the counter to decrementing it. */
  predicate HoldsIntr(pc: Pc) {
    pc.IntrSeen? || pc.ClearSeen? || pc.IntrLocked? || pc.IntrAdvanced? || pc.IntrCounted?
  }

  predicate HoldsLock(pc: Pc) {
    || pc.TxLocked? || pc.TxStored? || pc.TxUnlock?
    || ((pc.SendEnter? || pc.SendBackoff? || pc.SendWon? || pc.SendNonEmpty? || pc.SendReady? || pc.SendGiveUp?) &&
         pc.locked)
    || pc.IntrLocked? || pc.IntrAdvanced? || pc.IntrCounted? || pc.IntrDropped?
  }

  function Windows(pcs: seq<Pc>): nat {
    if pcs == [] then 0 else Windows(pcs[..|pcs| - 1]) + if InWindow(pcs[|pcs| - 1]) then 1 else 0
  }

  /** The hardware owns the transfer: it is working on it, or its completion is pending. */
  predicate InFlight(c: Card) {
    c.hw != [] || c.done
  }

  /** A started transfer has not been retired yet. */
  predicate Outstanding(c: Card) {
    c.token.Hardware? || (c.token.Handler? && c.token.thread < |c.pcs| && !c.pcs[c.token.thread].IntrCounted?)
  }

  /** Some thread is between two halves of an update of the ring. */
  predicate Storing(c: Card) {
    0 <= c.lock < |c.pcs| && c.pcs[c.lock].TxStored?
  }

  predicate Advancing(c: Card) {
    0 <= c.lock < |c.pcs| && c.pcs[c.lock].IntrAdvanced?
  }

  /** The ring as it was before the half-done update. */
  function Settled(c: Card): Ring
    requires c.ring.Shaped()
  {
    if Storing(c) then c.ring.(wr := |c.enqueued| % |c.ring.buf|)
    else if Advancing(c) then c.ring.(rd := c.retired % |c.ring.buf|)
    else c.ring
  }

  ghost predicate LockOk(c: Card, t: nat)
    requires t < |c.pcs|
  {
    HoldsLock(c.pcs[t]) <==> c.lock == t
  }

  /** The lock is free or held by the one thread that is in a locked section. */
  ghost predicate LockInv(c: Card) {
    -1 <= c.lock < |c.pcs| && forall t :: 0 <= t < |c.pcs| ==> LockOk(c, t)
  }

  ghost predicate TokenOk(c: Card, t: nat)
    requires t < |c.pcs|
  {
    && (HoldsSend(c.pcs[t]) <==> c.token == Caller(t))
    && (HoldsIntr(c.pcs[t]) <==> c.token == Handler(t))
  }

  /** The counter's first increment belongs to one caller, the hardware, one handler, or no one. */
  ghost predicate TokenInv(c: Card) {
    && (forall t :: 0 <= t < |c.pcs| ==> TokenOk(c, t))
    && (c.token.Caller? || c.token.Handler? ==> c.token.thread < |c.pcs|)
    && (c.token.Hardware? <==> InFlight(c))
  }

  /** The counter equals the threads in the window plus the transfer in flight. */
  ghost predicate CountInv(c: Card) {
    c.inProgress == Windows(c.pcs) + if InFlight(c) then 1 else 0
  }

  ghost predicate StageOk(c: Card, t: nat)
    requires t < |c.pcs| && c.ring.Shaped()
  {
    var pc := c.pcs[t];
    && (pc.TxStored? ==>
          && |c.enqueued| < c.retired + |c.ring.buf| && c.ring.buf[|c.enqueued| % |c.ring.buf|] == pc.pkt
          && c.ring.wr == (|c.enqueued| + 1) % |c.ring.buf|)
    && (pc.IntrAdvanced? ==> c.ring.rd == (c.retired + 1) % |c.ring.buf|)
  }

  /** The ring, up to a half-done update, holds the packets enqueued and not retired. */
  ghost predicate RingInv(c: Card) {
    && c.ring.Shaped()
    && Holds(Settled(c), c.enqueued, c.retired)
    && PortsBalanced(c.ring, c.enqueued, c.retired)
    && forall t :: 0 <= t < |c.pcs| ==> StageOk(c, t)
  }

  ghost predicate FrontOk(c: Card, t: nat)
    requires t < |c.pcs|
  {
    var pc := c.pcs[t];
    && (pc.SendNonEmpty? || pc.SendReady? ==> c.retired < |c.enqueued|)
    && (pc.SendReady? && c.retired < |c.enqueued| ==> pc.port == c.enqueued[c.retired].port)
    && (HoldsIntr(pc) && !pc.IntrCounted? ==>
          c.retired < |c.enqueued| && (pc.ClearSeen? || pc.port == c.enqueued[c.retired].port))
  }

  /** What was started is what was enqueued, in order and once each; at most one transfer is not retired yet. */
  ghost predicate HistoryInv(c: Card) {
    && (forall t :: 0 <= t < |c.pcs| ==> FrontOk(c, t))
    && |c.started| == c.retired + (if Outstanding(c) then 1 else 0)
    && c.started <= c.enqueued
    && (c.hw != [] ==> !c.done && c.retired < |c.enqueued| && c.hw == [c.enqueued[c.retired]])
  }

  ghost predicate Inv(c: Card) {
    LockInv(c) && TokenInv(c) && CountInv(c) && RingInv(c) && HistoryInv(c)
  }

  lemma {:induction false} WindowsUpdate(pcs: seq<Pc>, t: nat, pc: Pc)
    requires t < |pcs|
    ensures Windows(pcs[t := pc]) ==
            Windows(pcs) - (if InWindow(pcs[t]) then 1 else 0) + (if InWindow(pc) then 1 else 0)
  {
    var n := |pcs| - 1;
    if t < n {
      assert pcs[t := pc][..n] == pcs[..n][t := pc];
      WindowsUpdate(pcs[..n], t, pc);
    } else {
      assert pcs[t := pc][..n] == pcs[..n];
    }
  }

  lemma {:induction false} WindowsPositive(pcs: seq<Pc>, t: nat)
    requires t < |pcs| && InWindow(pcs[t])
    ensures Windows(pcs) >= 1
  {
    if t < |pcs| - 1 {
      WindowsPositive(pcs[..|pcs| - 1], t);
    }
  }

  /** The step changes thread `t` only, to `pc`. */
  predicate Moves(c: Card, c': Card, t: nat, pc: Pc) {
    t < |c.pcs| && c'.pcs == c.pcs[t := pc]
  }

  /** A step of `t` that takes or gives back the lock for itself, or leaves it. */
  lemma LockFrame(c: Card, c': Card, t: nat, pc: Pc)
    requires LockInv(c) && Moves(c, c', t, pc)
    requires c'.lock == c.lock || (c.lock == -1 && c'.lock == t) || (c.lock == t && c'.lock == -1)
    requires HoldsLock(pc) <==> c'.lock == t
    ensures LockInv(c')
  {
    forall u | 0 <= u < |c'.pcs| ensures LockOk(c', u) {
      assert LockOk(c, u);
    }
  }

  /** The token is no other thread's business. */
  predicate Mine(token: Token, t: nat) {
    token.NoOne? || token.Hardware? || token.thread == t
  }

  lemma TokenFrame(c: Card, c': Card, t: nat, pc: Pc)
    requires TokenInv(c) && Moves(c, c', t, pc)
    requires c'.token == c.token || (Mine(c.token, t) && Mine(c'.token, t))
    requires (HoldsSend(pc) <==> c'.token == Caller(t)) && (HoldsIntr(pc) <==> c'.token == Handler(t))
    requires c'.token.Hardware? <==> InFlight(c')
    ensures TokenInv(c')
  {
    forall u | 0 <= u < |c'.pcs| ensures TokenOk(c', u) {
      assert TokenOk(c, u);
    }
  }

  function One(b: bool): nat {
    if b then 1 else 0
  }

  lemma CountFrame(c: Card, c': Card, t: nat, pc: Pc)
    requires CountInv(c) && Moves(c, c', t, pc)
    requires c'.inProgress - c.inProgress ==
             One(InWindow(pc)) - One(InWindow(c.pcs[t])) + One(InFlight(c')) - One(InFlight(c))
    ensures CountInv(c')
  {
    WindowsUpdate(c.pcs, t, pc);
  }

  /** Nobody is in the window when the counter is zero. */
  lemma WindowEmpty(c: Card)
    requires TokenInv(c) && CountInv(c) && c.inProgress == 0
    ensures c.token == NoOne
  {
    if c.token.Caller? || c.token.Handler? {
      var t := c.token.thread;
      assert TokenOk(c, t);
      WindowsPositive(c.pcs, t);
      assert false;
    }
  }

  /** What a step of `t` to `pc` must respect for lock, token and counter to stay consistent. */
  ghost predicate Exclusive(c: Card, c': Card, t: nat, pc: Pc) {
    && Moves(c, c', t, pc)
    && (c'.lock == c.lock || (c.lock == -1 && c'.lock == t) || (c.lock == t && c'.lock == -1))
    && (HoldsLock(pc) <==> c'.lock == t)
    && (c'.token == c.token || (Mine(c.token, t) && Mine(c'.token, t)))
    && (HoldsSend(pc) <==> c'.token == Caller(t)) && (HoldsIntr(pc) <==> c'.token == Handler(t))
    && (c'.token.Hardware? <==> InFlight(c'))
    && c'.inProgress - c.inProgress ==
         One(InWindow(pc)) - One(InWindow(c.pcs[t])) + One(InFlight(c')) - One(InFlight(c))
  }

  ghost predicate ExclusionInv(c: Card) {
    LockInv(c) && TokenInv(c) && CountInv(c)
  }

  lemma ExclusionFrame(c: Card, c': Card, t: nat, pc: Pc)
    requires ExclusionInv(c) && Exclusive(c, c', t, pc)
    ensures ExclusionInv(c')
  {
    LockFrame(c, c', t, pc);
    TokenFrame(c, c', t, pc);
    CountFrame(c, c', t, pc);
  }

  lemma TxIsExclusive(c: Card, t: nat)
    requires ExclusionInv(c) && c.ring.Shaped() && t < |c.pcs| && InTx(c.pcs[t])
    ensures Exclusive(c, TxStep(c, t), t, TxStep(c, t).pcs[t])
  {
    assert LockOk(c, t) && TokenOk(c, t);
  }

  lemma SendIsExclusive(c: Card, t: nat)
    requires ExclusionInv(c) && c.ring.Shaped() && t < |c.pcs| && InSend(c.pcs[t])
    ensures Exclusive(c, SendStep(c, t), t, SendStep(c, t).pcs[t])
  {
    assert LockOk(c, t) && TokenOk(c, t);
    if c.inProgress == 0 {
      WindowEmpty(c);
    }
  }

  lemma IntrIsExclusive(c: Card, t: nat)
    requires ExclusionInv(c) && c.ring.Shaped() && t < |c.pcs| && !InTx(c.pcs[t]) && !InSend(c.pcs[t])
    ensures Exclusive(c, IntrStep(c, t), t, IntrStep(c, t).pcs[t])
  {
    assert LockOk(c, t) && TokenOk(c, t);
    assert c.pcs == c.pcs[t := c.pcs[t]];
  }

  /** Lock, token and counter, over one step of a thread. */
  lemma GoIsExclusive(c: Card, t: nat)
    requires ExclusionInv(c) && c.ring.Shaped() && t < |c.pcs|
    ensures Exclusive(c, GoStep(c, t), t, GoStep(c, t).pcs[t])
  {
    if InTx(c.pcs[t]) {
      TxIsExclusive(c, t);
    } else if InSend(c.pcs[t]) {
      SendIsExclusive(c, t);
    } else {
      IntrIsExclusive(c, t);
    }
  }

  // ----- the ring

  predicate MidUpdate(pc: Pc) {
    pc.TxStored? || pc.IntrAdvanced?
  }

  lemma RingFrame(c: Card, c': Card, t: nat, pc: Pc)
    requires RingInv(c) && LockInv(c) && LockInv(c') && Moves(c, c', t, pc)
    requires c'.ring == c.ring && c'.enqueued == c.enqueued && c'.retired == c.retired
    requires !MidUpdate(pc) && !MidUpdate(c.pcs[t])
    ensures RingInv(c')
  {
    forall u | 0 <= u < |c'.pcs| ensures StageOk(c', u) {
      assert StageOk(c, u);
    }
    if c.lock != -1 {
      assert LockOk(c, c.lock) && LockOk(c', c.lock);
    }
    if c'.lock != -1 {
      assert LockOk(c, c'.lock) && LockOk(c', c'.lock);
    }
    assert Settled(c') == Settled(c);
  }

  /** No other thread is half-way through an update while `t` holds the lock. */
  lemma LockedIsSettled(c: Card, t: nat)
    requires LockInv(c) && c.ring.Shaped() && t < |c.pcs| && HoldsLock(c.pcs[t])
    ensures c.lock == t && forall u :: 0 <= u < |c.pcs| && u != t ==> !MidUpdate(c.pcs[u])
  {
    assert LockOk(c, t);
    forall u | 0 <= u < |c.pcs| && u != t ensures !MidUpdate(c.pcs[u]) {
      assert LockOk(c, u);
    }
  }

  lemma StoreKeepsRing(c: Card, t: nat)
    requires RingInv(c) && LockInv(c) && t < |c.pcs| && c.pcs[t].TxLocked? && c.ring.free != 0
    ensures RingInv(TxStep(c, t))
  {
    var c', p := TxStep(c, t), c.pcs[t].pkt;
    LockedIsSettled(c, t);
    assert Settled(c) == c.ring;
    StoreKeepsSlots(c.ring, c.enqueued, c.retired, p);
    assert Settled(c') == Store(c.ring, p).(wr := c.ring.wr);
    assert Slots(Settled(c'), c.enqueued, c.retired);
  }

  lemma ForPortPush(q: seq<Pkt>, p: Pkt, port: Port)
    ensures ForPort(q + [p], port) == ForPort(q, port) + if p.port == port then 1 else 0
  {
    assert (q + [p])[..|q|] == q;
  }

  lemma CountStoredKeepsRing(c: Card, t: nat)
    requires RingInv(c) && LockInv(c) && t < |c.pcs| && c.pcs[t].TxStored?
    ensures RingInv(TxStep(c, t))
  {
    var c', p := TxStep(c, t), c.pcs[t].pkt;
    LockedIsSettled(c, t);
    assert StageOk(c, t);
    var q := c.enqueued[c.retired..];
    assert c'.enqueued[c.retired..] == q + [p];
    forall port: Port ensures c'.ring.freePort[port] + ForPort(c'.enqueued[c.retired..], port) ==
        |c.ring.buf| / MAX_IFACE {
      ForPortPush(q, p, port);
      assert c.ring.freePort[port] + ForPort(q, port) == |c.ring.buf| / MAX_IFACE;
    }
    forall k | c.retired <= k < |c'.enqueued| ensures c'.ring.buf[k % |c.ring.buf|] == c'.enqueued[k] {
      if k < |c.enqueued| {
        assert Settled(c).buf[k % |c.ring.buf|] == c.enqueued[k];
      }
    }
    assert Settled(c') == c'.ring;
  }

  lemma AdvanceKeepsRing(c: Card, t: nat)
    requires RingInv(c) && LockInv(c) && t < |c.pcs| && c.pcs[t].IntrLocked?
    ensures RingInv(IntrStep(c, t))
  {
    var c' := IntrStep(c, t);
    LockedIsSettled(c, t);
    assert Settled(c) == c.ring;
    NextSlot(c.retired, |c.ring.buf|);
    assert Settled(c') == c.ring;
  }

  lemma RetireKeepsRing(c: Card, t: nat)
    requires RingInv(c) && LockInv(c) && t < |c.pcs| && c.pcs[t].IntrAdvanced? && FrontOk(c, t)
    ensures RingInv(IntrStep(c, t))
  {
    var c' := IntrStep(c, t);
    LockedIsSettled(c, t);
    assert StageOk(c, t);
    var q := c.enqueued[c.retired..];
    assert c.enqueued[c.retired + 1..] == q[1..];
    forall port: Port ensures c'.ring.freePort[port] + ForPort(c'.enqueued[c'.retired..], port) ==
        |c.ring.buf| / MAX_IFACE {
      ForPortFront(q, port);
      assert c.ring.freePort[port] + ForPort(q, port) == |c.ring.buf| / MAX_IFACE;
    }
    assert Slots(c'.ring, c'.enqueued, c'.retired) by {
      assert Slots(Settled(c), c.enqueued, c.retired);
    }
    assert Settled(c') == c'.ring;
  }

  /** The four steps that change the ring. */
  predicate TouchesRing(c: Card, t: nat)
    requires t < |c.pcs|
  {
    var pc := c.pcs[t];
    (pc.TxLocked? && c.ring.free != 0) || pc.TxStored? || pc.IntrLocked? || pc.IntrAdvanced?
  }

  /** Every other step leaves the ring and the record of packets alone, except that a transfer may start. */
  ghost predicate LeavesRing(c: Card, c': Card, t: nat) {
    && t < |c.pcs| && |c'.pcs| == |c.pcs|
    && c'.ring == c.ring && c'.enqueued == c.enqueued && c'.retired == c.retired && c'.done == c.done
    && !MidUpdate(c'.pcs[t]) && !MidUpdate(c.pcs[t])
    && (!c.pcs[t].SendReady? ==> c'.started == c.started && c'.hw == c.hw)
  }

  lemma TxLeavesRing(c: Card, t: nat)
    requires c.ring.Shaped() && t < |c.pcs| && !TouchesRing(c, t) && InTx(c.pcs[t])
    ensures LeavesRing(c, TxStep(c, t), t)
  {
  }

  lemma SendLeavesRing(c: Card, t: nat)
    requires c.ring.Shaped() && t < |c.pcs| && InSend(c.pcs[t])
    ensures LeavesRing(c, SendStep(c, t), t)
  {
  }

  lemma IntrLeavesRing(c: Card, t: nat)
    requires c.ring.Shaped() && t < |c.pcs| && !TouchesRing(c, t) && !InTx(c.pcs[t]) && !InSend(c.pcs[t])
    ensures LeavesRing(c, IntrStep(c, t), t)
  {
  }

  lemma GoLeavesRing(c: Card, t: nat)
    requires c.ring.Shaped() && t < |c.pcs| && !TouchesRing(c, t)
    ensures LeavesRing(c, GoStep(c, t), t)
  {
    if InTx(c.pcs[t]) {
      TxLeavesRing(c, t);
    } else if InSend(c.pcs[t]) {
      SendLeavesRing(c, t);
    } else {
      IntrLeavesRing(c, t);
    }
  }

  lemma GoKeepsRing(c: Card, t: nat)
    requires ExclusionInv(c) && RingInv(c) && t < |c.pcs| && FrontOk(c, t)
    ensures RingInv(GoStep(c, t))
  {
    var c', pc := GoStep(c, t), c.pcs[t];
    GoIsExclusive(c, t);
    LockFrame(c, c', t, c'.pcs[t]);
    if pc.TxLocked? && c.ring.free != 0 {
      StoreKeepsRing(c, t);
    } else if pc.TxStored? {
      CountStoredKeepsRing(c, t);
    } else if pc.IntrLocked? {
      AdvanceKeepsRing(c, t);
    } else if pc.IntrAdvanced? {
      RetireKeepsRing(c, t);
    } else {
      GoLeavesRing(c, t);
      RingFrame(c, c', t, c'.pcs[t]);
    }
  }

  // ----- history

  /** Outside the moment between the two halves of a retirement, the read slot holds the oldest packet. */
  lemma FrontIsOldest(c: Card)
    requires RingInv(c) && !Advancing(c) && c.retired < |c.enqueued|
    ensures c.ring.Front() == c.enqueued[c.retired]
  {
    assert Slots(Settled(c), c.enqueued, c.retired);
  }

  /** The holder of the token sees a ring that nobody is retiring from. */
  lemma TokenStopsRetiring(c: Card, t: nat)
    requires TokenInv(c) && t < |c.pcs| && TokenOk(c, t)
    requires HoldsSend(c.pcs[t]) || c.token.Hardware? || c.pcs[t].IntrSeen? || c.pcs[t].ClearSeen?
    ensures !Advancing(c)
  {
    if 0 <= c.lock < |c.pcs| {
      assert TokenOk(c, c.lock);
    }
  }

  lemma HistoryFrame(c: Card, c': Card, t: nat, pc: Pc)
    requires HistoryInv(c) && Moves(c, c', t, pc)
    requires c.enqueued <= c'.enqueued && c'.retired == c.retired && c'.started == c.started
    requires c'.hw == c.hw || c'.hw == []
    requires c'.hw != [] ==> !c'.done
    requires Outstanding(c') == Outstanding(c) && FrontOk(c', t)
    ensures HistoryInv(c')
  {
    forall u | 0 <= u < |c'.pcs| ensures FrontOk(c', u) {
      assert FrontOk(c, u);
    }
  }

  /** Starting a transfer adds the oldest outstanding packet to the record. */
  lemma StartKeepsHistory(c: Card, t: nat)
    requires Inv(c) && t < |c.pcs| && c.pcs[t].SendReady?
    ensures HistoryInv(SendStep(c, t))
  {
    var c' := SendStep(c, t);
    assert FrontOk(c, t) && TokenOk(c, t);
    TokenStopsRetiring(c, t);
    if c.retired < |c.enqueued| {
      FrontIsOldest(c);
    }
    forall u | 0 <= u < |c'.pcs| ensures FrontOk(c', u) {
      assert FrontOk(c, u);
    }
  }

  lemma SendKeepsHistory(c: Card, t: nat)
    requires Inv(c) && t < |c.pcs| && InSend(c.pcs[t])
    ensures HistoryInv(SendStep(c, t))
  {
    var c', pc := SendStep(c, t), c.pcs[t];
    if pc.SendReady? {
      StartKeepsHistory(c, t);
    } else {
      assert FrontOk(c, t) && TokenOk(c, t);
      if HoldsSend(pc) {
        TokenStopsRetiring(c, t);
        if c.retired < |c.enqueued| {
          FrontIsOldest(c);
        }
      }
      if c.inProgress == 0 {
        WindowEmpty(c);
      }
      HistoryFrame(c, c', t, c'.pcs[t]);
    }
  }

  lemma TxKeepsHistory(c: Card, t: nat)
    requires Inv(c) && t < |c.pcs| && InTx(c.pcs[t])
    ensures HistoryInv(TxStep(c, t))
  {
    HistoryFrame(c, TxStep(c, t), t, TxStep(c, t).pcs[t]);
  }

  lemma RetireKeepsHistory(c: Card, t: nat)
    requires Inv(c) && t < |c.pcs| && c.pcs[t].IntrAdvanced?
    ensures HistoryInv(IntrStep(c, t))
  {
    var c' := IntrStep(c, t);
    assert FrontOk(c, t) && TokenOk(c, t);
    forall u | 0 <= u < |c'.pcs| ensures FrontOk(c', u) {
      assert FrontOk(c, u) && TokenOk(c, u);
    }
  }

  lemma IntrKeepsHistory(c: Card, t: nat)
    requires Inv(c) && t < |c.pcs| && !InTx(c.pcs[t]) && !InSend(c.pcs[t]) && !c.pcs[t].IntrAdvanced?
    ensures HistoryInv(IntrStep(c, t))
  {
    var c' := IntrStep(c, t);
    assert c.pcs == c.pcs[t := c.pcs[t]];
    assert FrontOk(c, t) && TokenOk(c, t);
    HistoryFrame(c, c', t, c'.pcs[t]);
  }

  lemma GoKeepsInv(c: Card, t: nat)
    requires Inv(c) && t < |c.pcs|
    ensures Inv(GoStep(c, t))
  {
    var c' := GoStep(c, t);
    assert FrontOk(c, t);
    GoIsExclusive(c, t);
    ExclusionFrame(c, c', t, c'.pcs[t]);
    GoKeepsRing(c, t);
    if InTx(c.pcs[t]) {
      TxKeepsHistory(c, t);
    } else if InSend(c.pcs[t]) {
      SendKeepsHistory(c, t);
    } else if c.pcs[t].IntrAdvanced? {
      RetireKeepsHistory(c, t);
    } else {
      IntrKeepsHistory(c, t);
    }
  }

  /** The error path may clear the flags only when a transfer is in flight or the counter is zero. */
  predicate Safe(c: Card, e: Event) {
    e.ClearFlags? ==> c.inProgress == 0 || InFlight(c)
  }

  /** A handler takes over a transfer in flight, after its completion or after a reset. */
  lemma TakeOverKeepsInv(c: Card, t: nat, pc: Pc)
    requires Inv(c) && InFlight(c) && t < |c.pcs| && c.pcs[t].Idle?
    requires pc == IntrSeen(c.ring.Front().port) || pc == ClearSeen
    ensures Inv(At(c, t, pc).(hw := [], done := false, token := Handler(t)))
  {
    var c' := At(c, t, pc).(hw := [], done := false, token := Handler(t));
    assert TokenOk(c, t) && LockOk(c, t);
    TokenStopsRetiring(c, t);
    FrontIsOldest(c);
    assert Exclusive(c, c', t, pc);
    ExclusionFrame(c, c', t, pc);
    RingFrame(c, c', t, pc);
    HistoryFrame(c, c', t, pc);
  }

  /** An idle thread moves on; nothing else changes but the lock it may take. */
  lemma WakeKeepsInv(c: Card, c': Card, t: nat, pc: Pc)
    requires Inv(c) && t < |c.pcs| && c.pcs[t].Idle?
    requires pc.TxLocked? || pc.IntrCheck?
    requires c' == (if pc.TxLocked? then At(c, t, pc).(lock := t) else At(c, t, pc)) && (pc.TxLocked? ==> c.lock == -1)
    ensures Inv(c')
  {
    assert TokenOk(c, t) && LockOk(c, t);
    assert Exclusive(c, c', t, pc);
    ExclusionFrame(c, c', t, pc);
    RingFrame(c, c', t, pc);
    HistoryFrame(c, c', t, pc);
  }

  lemma CountersSeeFlight(c: Card)
    requires ExclusionInv(c) && InFlight(c)
    ensures c.inProgress > 0
  {
    assert Windows(c.pcs) >= 0;
  }

  lemma StepKeepsInv(c: Card, e: Event)
    requires Inv(c) && Safe(c, e)
    ensures Inv(Step(c, e))
  {
    match e
    case Tx(t, p) =>
      if t < |c.pcs| && c.pcs[t].Idle? && c.lock == -1 {
        WakeKeepsInv(c, Step(c, e), t, TxLocked(p));
      }
    case Go(t) =>
      if t < |c.pcs| {
        GoKeepsInv(c, t);
      }
    case Complete =>
      CompleteKeepsInv(c);
    case Interrupt(t) =>
      if t < |c.pcs| && c.pcs[t].Idle? && c.done {
        CountersSeeFlight(c);
        TakeOverKeepsInv(c, t, IntrSeen(c.ring.Front().port));
        assert c.hw == [];
      }
    case QueueStatus(t, ports, rxBusy) =>
      if t < |c.pcs| && c.pcs[t].Idle? {
        if rxBusy {
          StatusKeepsInv(c, ports);
        } else {
          WakeKeepsInv(c, At(c, t, IntrCheck), t, IntrCheck);
          StatusKeepsInv(At(c, t, IntrCheck), ports);
        }
      }
    case ClearFlags(t) =>
      if t < |c.pcs| && c.pcs[t].Idle? {
        if c.inProgress == 0 {
          WindowEmpty(c);
          WakeKeepsInv(c, Step(c, e), t, IntrCheck);
        } else {
          TakeOverKeepsInv(c, t, ClearSeen);
        }
      }
  }

  lemma CompleteKeepsInv(c: Card)
    requires Inv(c)
    ensures Inv(Step(c, Complete))
  {
    var c' := Step(c, Complete);
    assert forall t :: 0 <= t < |c.pcs| ==> LockOk(c, t) ==> LockOk(c', t);
    assert forall t :: 0 <= t < |c.pcs| ==> TokenOk(c, t) ==> TokenOk(c', t);
    assert forall t :: 0 <= t < |c.pcs| ==> StageOk(c, t) ==> StageOk(c', t);
    assert forall t :: 0 <= t < |c.pcs| ==> FrontOk(c, t) ==> FrontOk(c', t);
    assert Settled(c') == Settled(c);
  }

  lemma StatusKeepsInv(c: Card, ports: set<Port>)
    requires Inv(c)
    ensures Inv(c.(canWrite := ports))
  {
    var c' := c.(canWrite := ports);
    assert forall t :: 0 <= t < |c.pcs| ==> LockOk(c, t) ==> LockOk(c', t);
    assert forall t :: 0 <= t < |c.pcs| ==> TokenOk(c, t) ==> TokenOk(c', t);
    assert forall t :: 0 <= t < |c.pcs| ==> StageOk(c, t) ==> StageOk(c', t);
    assert forall t :: 0 <= t < |c.pcs| ==> FrontOk(c, t) ==> FrontOk(c', t);
    assert Settled(c') == Settled(c);
  }

  // ----- runs

  /** The card after nf2c_probe. */
  predicate Probed(c: Card) {
    && |c.ring.buf| > 0 && c.ring.wr == 0 && c.ring.rd == 0 && c.ring.free == |c.ring.buf|
    && c.ring.freePort == seq(MAX_IFACE, _ => |c.ring.buf| / MAX_IFACE)
    && c.inProgress == 0 && c.lock == -1 && c.hw == [] && !c.done
    && (forall t :: 0 <= t < |c.pcs| ==> c.pcs[t].Idle?)
    && c.enqueued == [] && c.started == [] && c.retired == 0 && c.token.NoOne?
  }

  lemma {:induction false} NoWindows(pcs: seq<Pc>)
    requires forall t :: 0 <= t < |pcs| ==> pcs[t].Idle?
    ensures Windows(pcs) == 0
  {
    if pcs != [] {
      NoWindows(pcs[..|pcs| - 1]);
    }
  }

  lemma ProbedIsInv(c: Card)
    requires Probed(c)
    ensures Inv(c)
  {
    NoWindows(c.pcs);
    assert c.enqueued[0..] == [];
    assert forall t :: 0 <= t < |c.pcs| ==> LockOk(c, t);
    assert forall t :: 0 <= t < |c.pcs| ==> TokenOk(c, t);
    assert forall t :: 0 <= t < |c.pcs| ==> StageOk(c, t);
    assert forall t :: 0 <= t < |c.pcs| ==> FrontOk(c, t);
  }

  /** An interleaving: its states, and the event between each of them and the next. */
  datatype Run = Run(states: seq<Card>, events: seq<Event>) {
    ghost predicate Moves(i: nat) {
      i < |events| && i + 1 < |states| && states[i].ring.Shaped() && states[i + 1] == Step(states[i], events[i])
    }

    /**
     A run from a probed card whose error path only clears flags when a transfer is in flight or the
     counter is zero.
     */
    ghost predicate Valid() {
      && |states| == |events| + 1 && Probed(states[0])
      && (forall i {:trigger Moves(i)} :: 0 <= i < |events| ==> Moves(i))
      && (forall i :: 0 <= i < |events| ==> Safe(states[i], events[i]))
    }
  }

  /**
   What an observer may rely on: one transfer at a time, a counter that counts the window
   and the transfer, packets started at most once each in the order they were enqueued, and,
   while no update is half done, a ring that holds exactly the packets not yet retired.
   */
  ghost predicate Correct(c: Card) {
    && |c.hw| <= 1
    && c.inProgress == Windows(c.pcs) + (if InFlight(c) then 1 else 0)
    && c.started <= c.enqueued && c.retired <= |c.started| <= c.retired + 1
    && PortsBalanced(c.ring, c.enqueued, c.retired)
    && 0 <= c.ring.free <= |c.ring.buf|
    && (c.lock == -1 ==> Holds(c.ring, c.enqueued, c.retired))
    && (c.lock == -1 ==> c.ring.wr == (c.ring.rd + |c.ring.buf| - c.ring.free) % |c.ring.buf|)
  }

  lemma {:induction false} RunKeepsInv(r: Run, k: nat)
    requires r.Valid() && k < |r.states|
    ensures Inv(r.states[k])
  {
    if k == 0 {
      ProbedIsInv(r.states[0]);
    } else {
      RunKeepsInv(r, k - 1);
      assert r.Moves(k - 1);
      StepKeepsInv(r.states[k - 1], r.events[k - 1]);
    }
  }

  lemma InvIsCorrect(c: Card)
    requires Inv(c)
    ensures Correct(c)
  {
    if c.lock == -1 {
      assert Settled(c) == c.ring;
      WriteIndex(c.ring, c.enqueued, c.retired);
    }
  }

  /** Exclusive, at-most-once, first-in first-out transmission in every interleaving. */
  lemma RunIsCorrect(r: Run, k: nat)
    requires r.Valid() && k < |r.states|
    ensures Correct(r.states[k])
  {
    RunKeepsInv(r, k);
    InvIsCorrect(r.states[k]);
  }

  /** A transfer is only ever started while the hardware is idle, and it is the oldest packet not yet started. */
  lemma StartsAlone(r: Run, k: nat)
    requires r.Valid() && k < |r.events| && r.states[k].started != r.states[k + 1].started
    ensures r.states[k].hw == [] && !r.states[k].done
    ensures |r.states[k].started| < |r.states[k].enqueued|
    ensures r.states[k + 1].hw == [r.states[k].enqueued[|r.states[k].started|]]
    ensures r.states[k + 1].started == r.states[k].started + r.states[k + 1].hw
  {
    RunKeepsInv(r, k);
    assert r.Moves(k);
    StartIsOldest(r.states[k], r.events[k]);
  }

  lemma StartIsOldest(c: Card, e: Event)
    requires Inv(c) && Step(c, e).started != c.started
    ensures c.hw == [] && !c.done && |c.started| < |c.enqueued|
    ensures Step(c, e).hw == [c.enqueued[|c.started|]] && Step(c, e).started == c.started + Step(c, e).hw
  {
    var t := e.thread;
    if !c.pcs[t].SendReady? {
      GoLeavesStarted(c, t);
    } else {
      assert TokenOk(c, t) && FrontOk(c, t);
      TokenStopsRetiring(c, t);
      FrontIsOldest(c);
    }
  }

  lemma GoLeavesStarted(c: Card, t: nat)
    requires c.ring.Shaped() && t < |c.pcs| && !c.pcs[t].SendReady?
    ensures GoStep(c, t).started == c.started
  {
  }

  /** Once the ring is empty every packet handed over has been started, exactly once. */
  lemma EmptyMeansAllStarted(r: Run, k: nat)
    requires r.Valid() && k < |r.states| && r.states[k].lock == -1 && r.states[k].ring.free == |r.states[k].ring.buf|
    ensures r.states[k].started == r.states[k].enqueued
  {
    RunIsCorrect(r, k);
  }

  // ----- closed ports

  /** No packet for the port has been started, and no thread is about to start one. */
  ghost predicate NoneFor(c: Card, port: Port) {
    && (forall i :: 0 <= i < |c.started| ==> c.started[i].port != port)
    && forall t :: 0 <= t < |c.pcs| ==> NotReadyFor(c.pcs[t], port)
  }

  predicate NotReadyFor(pc: Pc, port: Port) {
    pc.SendReady? ==> pc.port != port
  }

  lemma StepRespectsPort(c: Card, e: Event, port: Port)
    requires c.ring.Shaped() && NoneFor(c, port) && port !in c.canWrite
    ensures NoneFor(Step(c, e), port)
  {
    if e.Go? && e.thread < |c.pcs| {
      var t := e.thread;
      assert NotReadyFor(c.pcs[t], port);
      if InTx(c.pcs[t]) {
        TxRespectsPort(c, t, port);
      } else if InSend(c.pcs[t]) {
        SendRespectsPort(c, t, port);
      } else {
        IntrRespectsPort(c, t, port);
      }
    }
  }

  lemma TxRespectsPort(c: Card, t: nat, port: Port)
    requires c.ring.Shaped() && NoneFor(c, port) && t < |c.pcs| && InTx(c.pcs[t])
    ensures NoneFor(TxStep(c, t), port)
  {
  }

  lemma SendRespectsPort(c: Card, t: nat, port: Port)
    requires c.ring.Shaped() && NoneFor(c, port) && port !in c.canWrite && t < |c.pcs| && InSend(c.pcs[t])
    ensures NoneFor(SendStep(c, t), port)
  {
    assert NotReadyFor(c.pcs[t], port);
  }

  lemma IntrRespectsPort(c: Card, t: nat, port: Port)
    requires c.ring.Shaped() && NoneFor(c, port) && t < |c.pcs| && !InTx(c.pcs[t]) && !InSend(c.pcs[t])
    ensures NoneFor(IntrStep(c, t), port)
  {
  }

  /** While the hardware has never reported a port open, no packet for it is started. */
  lemma {:induction false} ClosedPortIsNotServed(r: Run, k: nat, port: Port)
    requires r.Valid() && k < |r.states| && forall i :: 0 <= i < k ==> port !in r.states[i].canWrite
    ensures NoneFor(r.states[k], port)
  {
    if k > 0 {
      ClosedPortIsNotServed(r, k - 1, port);
      assert r.Moves(k - 1);
      StepRespectsPort(r.states[k - 1], r.events[k - 1], port);
    }
  }
}
