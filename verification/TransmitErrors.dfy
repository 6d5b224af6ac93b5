/**
 The error paths of nf2_control.c, which reset the card and clear the flags of a transfer:
 when that is safe, and what comes of it when it is not.
 */
module TransmitErrors {
  import opened TransmitRing
  import opened TransmitProtocol
  import opened TransmitStranding

  /** Clearing the flags leaves a correct card exactly when a transfer is in flight or the counter is zero. */
  lemma ClearFlagsSafeIff(c: Card, t: nat)
    requires Inv(c) && t < |c.pcs| && c.pcs[t].Idle?
    ensures Correct(Step(c, ClearFlags(t))) <==> Safe(c, ClearFlags(t))
  {
    if Safe(c, ClearFlags(t)) {
      StepKeepsInv(c, ClearFlags(t));
      InvIsCorrect(Step(c, ClearFlags(t)));
    } else {
      WindowsUpdate(c.pcs, t, Step(c, ClearFlags(t)).pcs[t]);
    }
  }

  /** More buffers have been freed than transfers have ended: one that was never started, or is still in flight. */
  predicate Damaged(c: Card) {
    c.retired > |c.started| - |c.hw|
  }

  lemma InvIsUndamaged(c: Card)
    requires Inv(c)
    ensures !Damaged(c)
  {
  }

  /** `c'` follows from `c` by safe events. */
  ghost predicate Continues(c: Card, events: seq<Event>, c': Card)
    decreases |events|
  {
    if events == [] then c' == c
    else c.ring.Shaped() && Safe(c, events[0]) && Continues(Step(c, events[0]), events[1..], c')
  }

  lemma {:induction false} ContinuesKeepsInv(c: Card, events: seq<Event>, c': Card)
    requires Inv(c) && Continues(c, events, c')
    ensures Inv(c')
    decreases |events|
  {
    if events != [] {
      StepKeepsInv(c, events[0]);
      ContinuesKeepsInv(Step(c, events[0]), events[1..], c');
    }
  }

  lemma {:induction false} ContinuesOn(c: Card, e1: seq<Event>, d: Card, e2: seq<Event>, f: Card)
    requires Continues(c, e1, d) && Continues(d, e2, f)
    ensures Continues(c, e1 + e2, f)
    decreases |e1|
  {
    if e1 == [] {
      assert e1 + e2 == e2;
    } else {
      assert (e1 + e2)[1..] == e1[1..] + e2;
      ContinuesOn(Step(c, e1[0]), e1[1..], d, e2, f);
    }
  }

  lemma ContinuesGo(c: Card, t: nat)
    requires c.ring.Shaped() && t < |c.pcs|
    ensures Continues(c, [Go(t)], GoStep(c, t))
  {
    assert [Go(t)][1..] == [];
  }

  /** A handler that has seen the counter raised and waits for the lock. */
  predicate Seen(pc: Pc) {
    pc.IntrSeen? || pc.ClearSeen?
  }

  /** The handler has yet to free the buffer of the packet it is to retire. */
  predicate WillRetire(pc: Pc) {
    Seen(pc) || pc.IntrLocked? || pc.IntrAdvanced?
  }

  /**
   Thread `t` has taken an increment for a transfer that there was not, and no more transfers
   have ended than buffers were freed, but for one that thread `h` is about to free.
   */
  ghost predicate Robbed(c: Card, t: nat, h: nat) {
    && LockInv(c) && c.ring.Shaped() && t < |c.pcs| && Seen(c.pcs[t])
    && (|| c.retired >= |c.started| - |c.hw|
        || (h < |c.pcs| && h != t && WillRetire(c.pcs[h]) && c.retired + 1 >= |c.started| - |c.hw|))
  }

  /** How far a thread is from giving the lock back. */
  function ToUnlock(pc: Pc): nat {
    match pc
    case TxLocked(_) => 8
    case TxStored(_) => 7
    case SendEnter(_) => 6
    case SendWon(_) => 5
    case SendNonEmpty(_) => 4
    case TxUnlock => 1
    case IntrLocked(_) => 4
    case IntrAdvanced(_) => 3
    case IntrCounted(_) => 2
    case IntrDropped => 1
    case _ => 2
  }

  /** The balance of the buffers freed against the transfers ended. */
  function Excess(c: Card): int {
    c.retired - (|c.started| - |c.hw|)
  }

  /** A step of the thread that holds the lock: it gives it back or comes nearer to that. */
  ghost predicate Unlocking(c: Card, c': Card, u: nat)
    requires u < |c.pcs|
  {
    && c'.ring.Shaped() && |c'.pcs| == |c.pcs| && c'.pcs == c.pcs[u := c'.pcs[u]]
    && (|| (c'.lock == -1 && !HoldsLock(c'.pcs[u]))
        || (c'.lock == u && HoldsLock(c'.pcs[u]) && ToUnlock(c'.pcs[u]) < ToUnlock(c.pcs[u])))
    && Excess(c') == Excess(c) + (if c.pcs[u].IntrAdvanced? then 1 else 0)
    && (WillRetire(c.pcs[u]) && !c.pcs[u].IntrAdvanced? ==> WillRetire(c'.pcs[u]))
  }

  lemma TxUnlocks(c: Card, u: nat)
    requires c.ring.Shaped() && u < |c.pcs| && c.lock == u && InTx(c.pcs[u])
    ensures Unlocking(c, TxStep(c, u), u)
  {
  }

  lemma SendUnlocks(c: Card, u: nat)
    requires c.ring.Shaped() && u < |c.pcs| && c.lock == u && InSend(c.pcs[u]) && HoldsLock(c.pcs[u])
    ensures Unlocking(c, SendStep(c, u), u)
  {
  }

  lemma IntrUnlocks(c: Card, u: nat)
    requires c.ring.Shaped() && u < |c.pcs| && c.lock == u && !InTx(c.pcs[u]) && !InSend(c.pcs[u]) &&
             HoldsLock(c.pcs[u])
    ensures Unlocking(c, IntrStep(c, u), u)
  {
  }

  lemma HolderUnlocks(c: Card, u: nat)
    requires c.ring.Shaped() && u < |c.pcs| && c.lock == u && HoldsLock(c.pcs[u])
    ensures Unlocking(c, GoStep(c, u), u)
  {
    if InTx(c.pcs[u]) {
      TxUnlocks(c, u);
    } else if InSend(c.pcs[u]) {
      SendUnlocks(c, u);
    } else {
      IntrUnlocks(c, u);
    }
  }

  lemma UnlockingKeepsLock(c: Card, c': Card, u: nat)
    requires LockInv(c) && u < |c.pcs| && c.lock == u && Unlocking(c, c', u)
    ensures LockInv(c')
  {
    forall v | 0 <= v < |c'.pcs| ensures LockOk(c', v) {
      assert LockOk(c, v);
    }
  }

  /** Whoever holds the lock can be let go on until it is free. */
  lemma {:induction false} FreeTheLock(c: Card, t: nat, h: nat) returns (events: seq<Event>, c': Card)
    requires Robbed(c, t, h)
    ensures Continues(c, events, c') && Robbed(c', t, h) && c'.lock == -1
    decreases if c.lock == -1 then 0 else 1 + ToUnlock(c.pcs[c.lock])
  {
    if c.lock == -1 {
      events, c' := [], c;
    } else {
      var u := c.lock;
      assert LockOk(c, u) && LockOk(c, t);
      var d := GoStep(c, u);
      HolderUnlocks(c, u);
      UnlockingKeepsLock(c, d, u);
      ContinuesGo(c, u);
      var more;
      more, c' := FreeTheLock(d, t, h);
      ContinuesOn(c, [Go(u)], d, more, c');
      events := [Go(u)] + more;
    }
  }

  /** With the lock free, a handler takes it and retires a packet. */
  lemma Frees(c: Card, t: nat) returns (events: seq<Event>, c': Card)
    requires c.ring.Shaped() && t < |c.pcs| && Seen(c.pcs[t]) && c.lock == -1
    ensures Continues(c, events, c') && c'.ring.Shaped() && c'.lock == t
    ensures |c'.pcs| == |c.pcs| && c'.pcs[t].IntrCounted? && c'.pcs == c.pcs[t := c'.pcs[t]]
    ensures Excess(c') == Excess(c) + 1
  {
    var port := if c.pcs[t].IntrSeen? then c.pcs[t].port else c.ring.Front().port;
    var c1 := At(c, t, IntrLocked(port)).(lock := t);
    var c2 := At(c1, t, IntrAdvanced(port)).(ring := Advance(c.ring));
    c' := At(c2, t, IntrCounted(port)).(ring := CountRetired(c2.ring, port), retired := c.retired + 1);
    assert GoStep(c, t) == c1 && GoStep(c1, t) == c2 && GoStep(c2, t) == c';
    var go := [Go(t)];
    ContinuesGo(c, t);
    ContinuesGo(c1, t);
    ContinuesGo(c2, t);
    ContinuesOn(c, go, c1, go, c2);
    ContinuesOn(c, go + go, c2, go, c');
    events := go + go + go;
  }

  /** Then it gives the lock back. */
  lemma GivesBack(c: Card, t: nat) returns (events: seq<Event>, c': Card)
    requires c.ring.Shaped() && t < |c.pcs| && c.pcs[t].IntrCounted? && c.lock == t
    ensures Continues(c, events, c') && c'.ring.Shaped() && c'.lock == -1
    ensures c'.pcs == c.pcs[t := IntrCheck] && Excess(c') == Excess(c)
  {
    var c1 := At(c, t, IntrDropped).(inProgress := c.inProgress - 1, token := NoOne);
    c' := At(c1, t, IntrCheck).(lock := -1);
    assert GoStep(c, t) == c1 && GoStep(c1, t) == c';
    ContinuesGo(c, t);
    ContinuesGo(c1, t);
    ContinuesOn(c, [Go(t)], c1, [Go(t)], c');
    events := [Go(t)] + [Go(t)];
  }

  lemma Retires(c: Card, t: nat) returns (events: seq<Event>, c': Card)
    requires c.ring.Shaped() && t < |c.pcs| && Seen(c.pcs[t]) && c.lock == -1
    ensures Continues(c, events, c') && c'.ring.Shaped() && c'.lock == -1
    ensures c'.pcs == c.pcs[t := IntrCheck] && Excess(c') == Excess(c) + 1
  {
    var e1, d := Frees(c, t);
    var e2;
    e2, c' := GivesBack(d, t);
    ContinuesOn(c, e1, d, e2, c');
    events := e1 + e2;
  }

  /** A robbed card comes to harm. */
  lemma RobbedIsDamaged(c: Card, t: nat, h: nat) returns (events: seq<Event>, c': Card)
    requires Robbed(c, t, h)
    ensures Continues(c, events, c') && Damaged(c')
  {
    var e1, c1 := FreeTheLock(c, t, h);
    var e2, c2 := Retires(c1, t);
    ContinuesOn(c, e1, c1, e2, c2);
    if Excess(c1) >= 0 {
      events, c' := e1 + e2, c2;
    } else {
      assert LockOk(c1, h);
      var e3;
      e3, c' := Retires(c2, h);
      ContinuesOn(c, e1 + e2, c2, e3, c');
      events := e1 + e2 + e3;
    }
  }

  /** The card right after its flags were cleared unsafely. */
  lemma UnsafeRobs(c: Card, t: nat) returns (h: nat)
    requires Inv(c) && t < |c.pcs| && c.pcs[t].Idle? && !Safe(c, ClearFlags(t))
    ensures Robbed(Step(c, ClearFlags(t)), t, h)
  {
    var c' := Step(c, ClearFlags(t));
    assert TokenOk(c, t) && LockOk(c, t);
    forall u | 0 <= u < |c'.pcs| ensures LockOk(c', u) {
      assert LockOk(c, u);
    }
    h := if c.token.Handler? then c.token.thread else t;
    if c.token.Handler? {
      assert TokenOk(c, h);
    }
  }

  /** The events are safe, and a buffer is freed too early. */
  ghost predicate Harms(c: Card, events: seq<Event>, c': Card) {
    Continues(c, events, c') && Damaged(c')
  }

  /**
   Clearing the flags can do harm exactly when it is unsafe: then, and only then, the card
   may go on, with no further error, to free a buffer whose packet has not been transferred.
   */
  lemma ClearFlagsDamagesIff(c: Card, t: nat)
    requires Inv(c) && t < |c.pcs| && c.pcs[t].Idle?
    ensures (exists events, c' :: Harms(Step(c, ClearFlags(t)), events, c')) <==> !Safe(c, ClearFlags(t))
  {
    var d := Step(c, ClearFlags(t));
    if Safe(c, ClearFlags(t)) {
      StepKeepsInv(c, ClearFlags(t));
      forall events, c' | Harms(d, events, c') ensures false {
        ContinuesKeepsInv(d, events, c');
        InvIsUndamaged(c');
      }
    } else {
      var h := UnsafeRobs(c, t);
      var events, c' := RobbedIsDamaged(d, t, h);
      assert Harms(d, events, c');
    }
  }

  /** Thread 0 has won the counter when thread 1 clears the flags and takes over. */
  const CLEARED: Card := QUEUED.(pcs := [SendWon(false), ClearSeen], inProgress := 1, token := Handler(1))

  /** Thread 0 has started its transfer. */
  const STARTED: Card := CLEARED.(pcs := [Idle, ClearSeen], hw := [A], started := [A], token := Hardware)

  /** Thread 1 is half-way through retiring that packet. */
  const RETIRING: Card := STARTED.(pcs := [Idle, IntrAdvanced(0)], lock := 1, ring := Advance(QUEUED.ring))

  /** Thread 1 has retired that packet and decremented the counter, with the transfer still in flight. */
  const RETIRED: Card := STARTED.(pcs := [Idle, IntrDropped], lock := 1,
      ring := Ring([A, B, A, A], 2, 1, 3, [1, 0, 1, 1]),
                                  retired := 1, inProgress := 0, token := NoOne)

  /** Thread 1 is about to send the next packet. */
  const RESENDING: Card := RETIRED.(pcs := [Idle, SendEnter(false)], lock := -1)

  lemma RaceToCleared()
    ensures Leads(QUEUED, [QueueStatus(0, {0, 1}, false), Go(0)] + [Go(0), ClearFlags(1)], CLEARED)
  {
    var c1 := QUEUED.(pcs := [IntrCheck, Idle]);
    var c2 := QUEUED.(pcs := [SendEnter(false), Idle]);
    var c3 := c1.(pcs := [SendWon(false), Idle], inProgress := 1, token := Caller(0));
    assert Step(QUEUED, QueueStatus(0, {0, 1}, false)) == c1 && Step(c1, Go(0)) == c2;
    assert Step(c2, Go(0)) == c3 && Step(c3, ClearFlags(1)) == CLEARED;
    LeadsTwo(QUEUED, QueueStatus(0, {0, 1}, false), Go(0));
    LeadsTwo(c2, Go(0), ClearFlags(1));
    LeadsOn(QUEUED, [QueueStatus(0, {0, 1}, false), Go(0)], c2, [Go(0), ClearFlags(1)], CLEARED);
  }

  lemma RaceToStarted()
    ensures Leads(CLEARED, [Go(0), Go(0)] + [Go(0)], STARTED)
  {
    var c1 := CLEARED.(pcs := [SendNonEmpty(false), ClearSeen]);
    var c2 := CLEARED.(pcs := [SendReady(false, 0), ClearSeen]);
    assert [] + [A] == [A];
    assert Step(CLEARED, Go(0)) == c1 && Step(c1, Go(0)) == c2 && Step(c2, Go(0)) == STARTED;
    LeadsTwo(CLEARED, Go(0), Go(0));
    assert [Go(0)][1..] == [];
    LeadsOn(CLEARED, [Go(0), Go(0)], c2, [Go(0)], STARTED);
  }

  lemma RaceToRetired()
    ensures Leads(STARTED, [Go(1), Go(1)] + [Go(1), Go(1)], RETIRED)
  {
    var c1 := STARTED.(pcs := [Idle, IntrLocked(0)], lock := 1);
    assert Step(STARTED, Go(1)) == c1 && Step(c1, Go(1)) == RETIRING;
    LeadsTwo(STARTED, Go(1), Go(1));
    RetiringToRetired();
    LeadsOn(STARTED, [Go(1), Go(1)], RETIRING, [Go(1), Go(1)], RETIRED);
  }

  lemma RetiringToRetired()
    ensures Leads(RETIRING, [Go(1), Go(1)], RETIRED)
  {
    var c := RETIRING.(pcs := [Idle, IntrCounted(0)], ring := RETIRED.ring, retired := 1);
    assert Step(RETIRING, Go(1)) == c && Step(c, Go(1)) == RETIRED;
    LeadsTwo(RETIRING, Go(1), Go(1));
  }

  lemma RaceToResending()
    ensures Leads(RETIRED, [Go(1), Go(1)], RESENDING)
  {
    var c1 := RETIRED.(pcs := [Idle, IntrCheck], lock := -1);
    assert Step(RETIRED, Go(1)) == c1 && Step(c1, Go(1)) == RESENDING;
    LeadsTwo(RETIRED, Go(1), Go(1));
  }

  lemma RaceToSecond() returns (c: Card)
    ensures Leads(RESENDING, [Go(1), Go(1)] + [Go(1), Go(1)], c) && c.hw == [A, B]
  {
    var c1 := RESENDING.(pcs := [Idle, SendWon(false)], inProgress := 1, token := Caller(1));
    var c2 := c1.(pcs := [Idle, SendNonEmpty(false)]);
    var c3 := c1.(pcs := [Idle, SendReady(false, 1)]);
    c := c1.(pcs := [Idle, Idle], hw := [A, B], started := [A, B], token := Hardware);
    assert [A] + [B] == [A, B];
    assert Step(RESENDING, Go(1)) == c1 && Step(c1, Go(1)) == c2;
    assert Step(c2, Go(1)) == c3 && Step(c3, Go(1)) == c;
    LeadsTwo(RESENDING, Go(1), Go(1));
    LeadsTwo(c2, Go(1), Go(1));
    LeadsOn(RESENDING, [Go(1), Go(1)], c2, [Go(1), Go(1)], c);
  }

  /**
   The error path while a caller is in the window: thread 0 has won the counter, thread 1
   clears the flags, takes thread 0's increment for a transfer and retires the packet that
   thread 0 then hands to the hardware. The counter is back at zero with a transfer in
   flight, and the next send starts a second one.
   */
  lemma ClearFlagsRace() returns (events: seq<Event>, c: Card)
    ensures Probed(PROBED) && Leads(PROBED, events, c) && c.hw == [A, B]
  {
    var e0 := StrandedByReport();
    RaceToCleared();
    RaceToStarted();
    RaceToRetired();
    RaceToResending();
    c := RaceToSecond();
    var e1, e2 := [QueueStatus(0, {0, 1}, false), Go(0)] + [Go(0), ClearFlags(1)], [Go(0), Go(0)] + [Go(0)];
    var e3, e4 := [Go(1), Go(1)] + [Go(1), Go(1)], [Go(1), Go(1)];
    LeadsOn(PROBED, e0, QUEUED, e1, CLEARED);
    LeadsOn(PROBED, e0 + e1, CLEARED, e2, STARTED);
    LeadsOn(PROBED, e0 + e1 + e2, STARTED, e3, RETIRED);
    LeadsOn(PROBED, e0 + e1 + e2 + e3, RETIRED, e4, RESENDING);
    LeadsOn(PROBED, e0 + e1 + e2 + e3 + e4, RESENDING, e3, c);
    events := e0 + e1 + e2 + e3 + e4 + e3;
  }
}
