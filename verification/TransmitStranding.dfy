/**
 Packets that nf2_control.c leaves behind: queued, free to go, and sent by nobody. When that
 happens, what ends it, and two schedules that lead there.
 */
module TransmitStranding {
  import opened TransmitRing
  import opened TransmitProtocol

  /** The thread will come to rest without trying to send. */
  predicate Resting(c: Card, t: nat)
    requires t < |c.pcs|
  {
    c.pcs[t].Idle? || c.pcs[t].TxUnlock? || (c.pcs[t].TxLocked? && c.ring.free == 0)
  }

  /** Every thread but `t`. */
  ghost predicate OthersRest(c: Card, t: int) {
    forall u :: 0 <= u < |c.pcs| && u != t ==> Resting(c, u)
  }

  /** The oldest packet could be sent: its port accepts packets, and nothing is in flight. */
  predicate Sendable(c: Card)
    requires c.ring.Shaped()
  {
    !InFlight(c) && c.ring.free != |c.ring.buf| && c.ring.Front().port in c.canWrite
  }

  /** It could be sent, and nobody is going to. */
  ghost predicate Abandoned(c: Card) {
    c.ring.Shaped() && Sendable(c) && OthersRest(c, -1)
  }

  /** All is quiet, and the packet still waits. */
  ghost predicate Stranded(c: Card) {
    c.ring.Shaped() && Sendable(c) && forall t :: 0 <= t < |c.pcs| ==> c.pcs[t].Idle?
  }

  /**
   What leaves a packet behind. A thread that was turned away, because it found the counter
   raised or the port closed before, takes its increment back while the packet could be sent
   and every other thread rests. Or the status report that opens the port comes while a
   packet is received, and every thread rests.
   */
  ghost predicate Strands(c: Card, e: Event) {
    c.ring.Shaped() &&
    match e
    case Go(t) =>
      && t < |c.pcs| && (c.pcs[t].SendGiveUp? || c.pcs[t].SendBackoff?)
      && Sendable(c) && OthersRest(c, t)
    case QueueStatus(t, ports, rxBusy) =>
      && rxBusy && t < |c.pcs| && c.pcs[t].Idle?
      && !Sendable(c) && Sendable(c.(canWrite := ports)) && OthersRest(c, -1)
    case _ => false
  }

  /** All rest iff the one that moved does and the others did. */
  lemma RestFrame(c: Card, c': Card, t: nat)
    requires t < |c.pcs| && |c'.pcs| == |c.pcs| && c'.pcs == c.pcs[t := c'.pcs[t]] && c'.ring == c.ring
    ensures OthersRest(c', -1) <==> OthersRest(c, t) && Resting(c', t)
    ensures OthersRest(c, -1) <==> OthersRest(c, t) && Resting(c, t)
  {
    forall u | 0 <= u < |c.pcs| && u != t ensures Resting(c', u) <==> Resting(c, u) {
    }
  }

  /** A thread that turned back or rested rests then; any other comes to rest only with nothing left to send. */
  ghost predicate ComesToRest(c: Card, c': Card, t: nat)
    requires t < |c.pcs| && c'.ring.Shaped()
  {
    var pc := c.pcs[t];
    && |c'.pcs| == |c.pcs| && c'.canWrite == c.canWrite
    && if pc.SendGiveUp? || pc.SendBackoff? || Resting(c, t) then
         c'.ring == c.ring && Resting(c', t) && c'.hw == c.hw && c'.done == c.done
       else Resting(c', t) ==> !Sendable(c')
  }

  lemma TxComesToRest(c: Card, t: nat)
    requires c.ring.Shaped() && t < |c.pcs| && InTx(c.pcs[t])
    ensures ComesToRest(c, TxStep(c, t), t)
  {
  }

  lemma SendComesToRest(c: Card, t: nat)
    requires c.ring.Shaped() && t < |c.pcs| && InSend(c.pcs[t])
    ensures ComesToRest(c, SendStep(c, t), t)
  {
  }

  lemma IntrComesToRest(c: Card, t: nat)
    requires c.ring.Shaped() && t < |c.pcs| && !InTx(c.pcs[t]) && !InSend(c.pcs[t])
    ensures ComesToRest(c, IntrStep(c, t), t)
  {
  }

  lemma GoComesToRest(c: Card, t: nat)
    requires c.ring.Shaped() && t < |c.pcs|
    ensures ComesToRest(c, GoStep(c, t), t)
  {
    if InTx(c.pcs[t]) {
      TxComesToRest(c, t);
    } else if InSend(c.pcs[t]) {
      SendComesToRest(c, t);
    } else {
      IntrComesToRest(c, t);
    }
  }

  lemma GoStrandsIff(c: Card, t: nat)
    requires Inv(c) && t < |c.pcs|
    ensures !Abandoned(c) && Abandoned(GoStep(c, t)) <==> Strands(c, Go(t))
  {
    var c', pc := GoStep(c, t), c.pcs[t];
    GoComesToRest(c, t);
    GoIsExclusive(c, t);
    if pc.SendGiveUp? || pc.SendBackoff? || Resting(c, t) {
      RestFrame(c, c', t);
    }
  }

  /** In every run a packet is left behind at exactly these steps. */
  lemma StrandsIff(c: Card, e: Event)
    requires Inv(c) && Safe(c, e)
    ensures !Abandoned(c) && Abandoned(Step(c, e)) <==> Strands(c, e)
  {
    var c' := Step(c, e);
    match e
    case Go(t) =>
      if t < |c.pcs| {
        GoStrandsIff(c, t);
      }
    case Tx(t, p) =>
      if c' != c && OthersRest(c', -1) {
        assert Resting(c', t);
        assert forall u :: 0 <= u < |c.pcs| ==> Resting(c', u) ==> Resting(c, u);
      }
    case Complete =>
    case Interrupt(t) =>
      if t < |c.pcs| && c.pcs[t].Idle? && c.done {
        CountersSeeFlight(c);
        assert !Resting(c', t);
      }
    case QueueStatus(t, ports, rxBusy) =>
      if t < |c.pcs| && c.pcs[t].Idle? {
        if rxBusy {
          assert forall u :: 0 <= u < |c.pcs| ==> (Resting(c', u) <==> Resting(c, u));
        } else {
          assert !Resting(c', t);
        }
      }
    case ClearFlags(t) =>
      if t < |c.pcs| && c.pcs[t].Idle? {
        assert !Resting(c', t);
      }
  }

  /** What takes it up again: a packet handed over with room in the ring, a status report, or the error path. */
  predicate Rescues(c: Card, e: Event) {
    c.ring.Shaped() &&
    match e
    case Tx(t, _) => t < |c.pcs| && c.pcs[t].Idle? && c.lock == -1 && c.ring.free != 0
    case QueueStatus(t, ports, rxBusy) => t < |c.pcs| && c.pcs[t].Idle? && (!rxBusy || c.ring.Front().port !in ports)
    case ClearFlags(t) => t < |c.pcs| && c.pcs[t].Idle?
    case _ => false
  }

  /** Nothing but these ends it: the threads come to rest by themselves, and the packet stays. */
  lemma RescuesIff(c: Card, e: Event)
    requires Inv(c) && Abandoned(c)
    ensures !Abandoned(Step(c, e)) <==> Rescues(c, e)
    ensures Step(c, e).started == c.started
  {
    var c' := Step(c, e);
    if e.Go? && e.thread < |c.pcs| {
      assert Resting(c, e.thread);
      GoComesToRest(c, e.thread);
      GoIsExclusive(c, e.thread);
      RestFrame(c, c', e.thread);
      assert !c.pcs[e.thread].SendReady?;
    } else if Rescues(c, e) && !(e.QueueStatus? && e.rxBusy) {
      assert !Resting(c', e.thread);
    } else {
      assert forall u :: 0 <= u < |c.pcs| ==> Resting(c, u) ==> Resting(c', u);
    }
  }

  /** Step `j` left a packet behind, and no step between it and state `k` took it up. */
  ghost predicate LeftBehind(r: Run, j: int, k: int)
    requires r.Valid()
  {
    && 0 <= j < k < |r.states| && Strands(r.states[j], r.events[j])
    && forall i :: j < i < k ==> !Rescues(r.states[i], r.events[i])
  }

  /** A packet is left behind after a step iff it leaves one behind, or one was and it does not take it up. */
  lemma AbandonedNext(r: Run, k: nat)
    requires r.Valid() && k < |r.events|
    ensures Abandoned(r.states[k + 1]) <==>
            Strands(r.states[k], r.events[k]) || (Abandoned(r.states[k]) && !Rescues(r.states[k], r.events[k]))
  {
    RunKeepsInv(r, k);
    assert r.Moves(k);
    StrandsIff(r.states[k], r.events[k]);
    if Abandoned(r.states[k]) {
      RescuesIff(r.states[k], r.events[k]);
    }
  }

  /** A packet is left behind now iff a step left it behind and none since has taken it up. */
  lemma {:induction false} RunAbandonedIff(r: Run, k: nat)
    requires r.Valid() && k < |r.states|
    ensures Abandoned(r.states[k]) <==> exists j :: LeftBehind(r, j, k)
  {
    if k > 0 {
      AbandonedNext(r, k - 1);
      RunAbandonedIff(r, k - 1);
      if Strands(r.states[k - 1], r.events[k - 1]) {
        assert LeftBehind(r, k - 1, k);
      } else if Abandoned(r.states[k - 1]) {
        var j :| LeftBehind(r, j, k - 1);
        assert LeftBehind(r, j, k) <==> !Rescues(r.states[k - 1], r.events[k - 1]);
      }
      if j :| LeftBehind(r, j, k) {
        assert j == k - 1 || LeftBehind(r, j, k - 1);
      }
    }
  }

  // ----- schedules

  /** `c'` follows from `c` by the events. */
  ghost predicate Leads(c: Card, events: seq<Event>, c': Card)
    decreases |events|
  {
    if events == [] then c' == c
    else c.ring.Shaped() && Leads(Step(c, events[0]), events[1..], c')
  }

  lemma {:induction false} LeadsOn(c: Card, e1: seq<Event>, d: Card, e2: seq<Event>, f: Card)
    requires Leads(c, e1, d) && Leads(d, e2, f)
    ensures Leads(c, e1 + e2, f)
    decreases |e1|
  {
    if e1 == [] {
      assert e1 + e2 == e2;
    } else {
      assert (e1 + e2)[1..] == e1[1..] + e2;
      LeadsOn(Step(c, e1[0]), e1[1..], d, e2, f);
    }
  }

  lemma LeadsOne(c: Card, e: Event)
    requires c.ring.Shaped()
    ensures Leads(c, [e], Step(c, e))
  {
    assert [e][1..] == [];
  }

  lemma LeadsTwo(c: Card, e1: Event, e2: Event)
    requires c.ring.Shaped() && Step(c, e1).ring.Shaped()
    ensures Leads(c, [e1, e2], Step(Step(c, e1), e2))
  {
    assert [e1, e2][1..] == [e2] && [e2][1..] == [];
  }

  /** No event is one of the error path, so all are safe. */
  predicate Ordinary(events: seq<Event>) {
    forall i :: 0 <= i < |events| ==> !events[i].ClearFlags?
  }

  /** The card while thread `t`, which handed `p` over, is about to give up for a closed port. */
  function GivingUp(c: Card, t: nat, p: Pkt): Card
    requires c.ring.Shaped() && t < |c.pcs|
  {
    At(c, t, SendGiveUp(true)).(ring := CountStored(Store(c.ring, p), p.port), enqueued := c.enqueued + [p],
                                inProgress := 1, lock := t, token := Caller(t))
  }

  /** The card once it has. */
  function Refused(c: Card, p: Pkt): Card
    requires c.ring.Shaped()
  {
    c.(ring := CountStored(Store(c.ring, p), p.port), enqueued := c.enqueued + [p])
  }

  /** A packet is handed over on a quiet card whose front port will be closed. */
  predicate WillRefuse(c: Card, t: nat, p: Pkt) {
    && c.ring.Shaped() && t < |c.pcs| && c.pcs[t].Idle? && c.lock == -1 && c.inProgress == 0 && c.token.NoOne?
    && 0 < c.ring.free <= |c.ring.buf|
    && CountStored(Store(c.ring, p), p.port).Front().port !in c.canWrite
  }

  lemma TxTurnsBack(c: Card, t: nat, p: Pkt) returns (events: seq<Event>)
    requires WillRefuse(c, t, p)
    ensures Leads(c, events, GivingUp(c, t, p)) && Ordinary(events)
  {
    var c1 := At(c, t, TxLocked(p)).(lock := t);
    var c2 := At(c, t, TxStored(p)).(lock := t, ring := Store(c.ring, p));
    var c3 := At(c, t, SendEnter(true)).(lock := t, ring := CountStored(Store(c.ring, p), p.port),
        enqueued := c.enqueued + [p]);
    var c4 := At(c3, t, SendWon(true)).(inProgress := 1, token := Caller(t));
    var c5 := At(c4, t, SendNonEmpty(true));
    assert Step(c, Tx(t, p)) == c1 && Step(c1, Go(t)) == c2;
    assert Step(c2, Go(t)) == c3 && Step(c3, Go(t)) == c4;
    assert Step(c4, Go(t)) == c5 && Step(c5, Go(t)) == GivingUp(c, t, p);
    LeadsTwo(c, Tx(t, p), Go(t));
    LeadsTwo(c2, Go(t), Go(t));
    LeadsTwo(c4, Go(t), Go(t));
    LeadsOn(c, [Tx(t, p), Go(t)], c2, [Go(t), Go(t)], c4);
    LeadsOn(c, [Tx(t, p), Go(t)] + [Go(t), Go(t)], c4, [Go(t), Go(t)], GivingUp(c, t, p));
    events := [Tx(t, p), Go(t)] + [Go(t), Go(t)] + [Go(t), Go(t)];
  }

  lemma TxIsRefused(c: Card, t: nat, p: Pkt) returns (events: seq<Event>)
    requires WillRefuse(c, t, p)
    ensures Leads(c, events, Refused(c, p)) && Ordinary(events)
  {
    var e1 := TxTurnsBack(c, t, p);
    var d := GivingUp(c, t, p);
    var d1 := At(d, t, TxUnlock).(inProgress := 0, token := NoOne);
    assert c.pcs[t := Idle] == c.pcs;
    assert Step(d, Go(t)) == d1 && Step(d1, Go(t)) == Refused(c, p);
    LeadsTwo(d, Go(t), Go(t));
    LeadsOn(c, e1, d, [Go(t), Go(t)], Refused(c, p));
    events := e1 + [Go(t), Go(t)];
  }

  const A: Pkt := Pkt(1, 0)
  const B: Pkt := Pkt(2, 1)

  /** A card with four buffers, two threads, and no open port. */
  const PROBED: Card := Card(Ring([A, A, A, A], 0, 0, 4, [1, 1, 1, 1]), 0, {}, -1, [], false, [Idle, Idle], [], [], 0,
      NoOne)

  lemma ProbedIsProbed()
    ensures Probed(PROBED)
  {
  }

  /** Packet A is queued, and no port is open. */
  const WAITING: Card := PROBED.(ring := Ring([A, A, A, A], 1, 0, 3, [0, 1, 1, 1]), enqueued := [A])

  /** Two packets queued, nothing in flight, two idle threads, and their ports open. */
  const QUEUED: Card := PROBED.(ring := Ring([A, B, A, A], 2, 0, 2, [0, 0, 1, 1]), enqueued := [A, B],
      canWrite := {0, 1})

  /** Thread 0 is about to give up on packet A. */
  const CLOSED: Card := WAITING.(pcs := [SendGiveUp(true), Idle], inProgress := 1, lock := 0, token := Caller(0))

  /** Meanwhile the port has opened, and thread 1 has come and been turned away. */
  const OPENED: Card := CLOSED.(canWrite := {0})

  /** Packet A waits, its port is open, and nobody sends it. */
  const LEFT: Card := WAITING.(canWrite := {0})

  lemma PortOpens()
    ensures Leads(CLOSED, [QueueStatus(1, {0}, false), Go(1)] + [Go(1), Go(1)], OPENED)
  {
    var d1 := OPENED.(pcs := [SendGiveUp(true), IntrCheck]);
    var d2 := OPENED.(pcs := [SendGiveUp(true), SendEnter(false)]);
    var d3 := OPENED.(pcs := [SendGiveUp(true), SendBackoff(false)], inProgress := 2);
    assert Step(CLOSED, QueueStatus(1, {0}, false)) == d1 && Step(d1, Go(1)) == d2;
    assert Step(d2, Go(1)) == d3 && Step(d3, Go(1)) == OPENED;
    LeadsTwo(CLOSED, QueueStatus(1, {0}, false), Go(1));
    LeadsTwo(d2, Go(1), Go(1));
    LeadsOn(CLOSED, [QueueStatus(1, {0}, false), Go(1)], d2, [Go(1), Go(1)], OPENED);
  }

  lemma BothLeave()
    ensures Leads(OPENED, [Go(0), Go(0)], LEFT) && Strands(OPENED, Go(0)) && Stranded(LEFT)
  {
    var d := OPENED.(pcs := [TxUnlock, Idle], inProgress := 0, token := NoOne);
    assert Step(OPENED, Go(0)) == d && Step(d, Go(0)) == LEFT;
    LeadsTwo(OPENED, Go(0), Go(0));
  }

  /**
   A packet is stranded by two threads that turn each other away: thread 0 finds the port
   closed, the port opens, thread 1 finds the counter raised by thread 0, and then both leave.
   */
  lemma StrandedByTurningAway() returns (events: seq<Event>)
    ensures Probed(PROBED) && Leads(PROBED, events, LEFT) && Ordinary(events)
    ensures Stranded(LEFT) && LEFT.enqueued == [A] && LEFT.started == [] && LEFT.inProgress == 0
  {
    ProbedIsProbed();
    var e1 := TxTurnsBack(PROBED, 0, A);
    assert GivingUp(PROBED, 0, A) == CLOSED;
    PortOpens();
    BothLeave();
    var e2, e3 := [QueueStatus(1, {0}, false), Go(1)] + [Go(1), Go(1)], [Go(0), Go(0)];
    LeadsOn(PROBED, e1, CLOSED, e2, OPENED);
    LeadsOn(PROBED, e1 + e2, OPENED, e3, LEFT);
    events := e1 + e2 + e3;
  }

  /** Packet B is queued behind it. */
  const BLOCKED: Card := QUEUED.(canWrite := {})

  lemma QueueFills()
    ensures WillRefuse(PROBED, 0, A) && Refused(PROBED, A) == WAITING
    ensures WillRefuse(WAITING, 0, B) && Refused(WAITING, B) == BLOCKED
  {
    assert [A] + [B] == [A, B];
  }

  lemma ReportStrands()
    ensures Leads(BLOCKED, [QueueStatus(1, {0, 1}, true)], QUEUED) && Stranded(QUEUED)
  {
    assert Step(BLOCKED, QueueStatus(1, {0, 1}, true)) == QUEUED;
    LeadsOne(BLOCKED, QueueStatus(1, {0, 1}, true));
  }

  /** Packets are stranded too by a status report that comes while a packet is received. */
  lemma StrandedByReport() returns (events: seq<Event>)
    ensures Probed(PROBED) && Leads(PROBED, events, QUEUED) && Ordinary(events) && Stranded(QUEUED)
  {
    ProbedIsProbed();
    QueueFills();
    var e1 := TxIsRefused(PROBED, 0, A);
    var e2 := TxIsRefused(WAITING, 0, B);
    ReportStrands();
    LeadsOn(PROBED, e1, WAITING, e2, BLOCKED);
    LeadsOn(PROBED, e1 + e2, BLOCKED, [QueueStatus(1, {0, 1}, true)], QUEUED);
    events := e1 + e2 + [QueueStatus(1, {0, 1}, true)];
  }
}
