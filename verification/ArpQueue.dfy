/**
 Packets that wait for the address of their next hop (or_arp.c, or_main.c send_ip, or_icmp.c):
 one queue entry per next hop, five requests a second or more apart, and then an error to the
 sender, which may itself have to wait in the same queue.
 */
module ArpQueue {
  import opened PwospfTypes

  const ICMP := 1
  const ECHO_REPLY := 0
  const DESTINATION_UNREACHABLE := 3
  const ECHO_REQUEST := 8
  const MAX_REQUESTS: nat := 5

  datatype Packet = Packet(id: nat, src: Addr, proto: int, icmpType: int)

  /** Where the routing table sends a packet, and the router's own address on that side. */
  datatype Hop = Hop(nextHop: Addr, iface: string, ip: Addr)

  /** What stays fixed while the queue is worked on: our addresses and the routing table. */
  datatype Env = Env(own: set<Addr>, routes: map<Addr, Hop>)

  /** The value of a queue entry. */
  datatype Entry = Entry(nextHop: Addr, iface: string, requests: nat, last: int, packets: seq<Packet>)

  /** A request on the wire, a packet on the wire, or a packet given up with the error made for it. */
  datatype Output = Request(hop: Addr) | Sent(p: Packet) | GivenUp(p: Packet, error: Option<Packet>)

  datatype State = State(queue: seq<Entry>, known: set<Addr>, out: seq<Output>)

  // ----- errors

  /** The packets that are answered with an error when they are given up. */
  predicate Erring(env: Env, p: Packet) {
    (p.proto != ICMP || p.icmpType == ECHO_REPLY || p.icmpType == ECHO_REQUEST) && p.src !in env.own
  }

  /** Erring, and there is a way back to the sender. */
  predicate Answered(env: Env, p: Packet) {
    Erring(env, p) && p.src in env.routes
  }

  function ErrorFor(env: Env, p: Packet): Packet
    requires p.src in env.routes
  {
    Packet(p.id, env.routes[p.src].ip, ICMP, DESTINATION_UNREACHABLE)
  }

  function Answer(env: Env, p: Packet): Option<Packet> {
    if Answered(env, p) then Some(ErrorFor(env, p)) else None
  }

  /** How much a list of packets can still cause: an erring one may put another in its place. */
  function Burden(env: Env, ps: seq<Packet>): nat {
    if ps == [] then 0 else (if Erring(env, ps[0]) then 2 else 1) + Burden(env, ps[1..])
  }

  lemma {:induction false} BurdenAppend(env: Env, ps: seq<Packet>, p: Packet)
    ensures Burden(env, ps + [p]) == Burden(env, ps) + if Erring(env, p) then 2 else 1
  {
    if ps != [] {
      assert (ps + [p])[1..] == ps[1..] + [p];
      BurdenAppend(env, ps[1..], p);
    } else {
      assert ps + [p] == [p];
    }
  }

  // ----- operations

  /** The first entry for a next hop, or the length of the queue. */
  function Find(es: seq<Entry>, hop: Addr): (k: nat)
    ensures k <= |es| && (k < |es| ==> es[k].nextHop == hop)
    ensures forall i :: 0 <= i < k ==> es[i].nextHop != hop
  {
    if es == [] || es[0].nextHop == hop then 0 else 1 + Find(es[1..], hop)
  }

  function Push(e: Entry, p: Packet): Entry {
    e.(packets := e.packets + [p])
  }

  /** Puts a packet on the queue; a new next hop gets an entry and a request. */
  function Enqueued(s: State, p: Packet, hop: Addr, iface: string, now: int): State {
    var k := Find(s.queue, hop);
    if k < |s.queue| then s.(queue := s.queue[k := Push(s.queue[k], p)])
    else s.(queue := s.queue + [Entry(hop, iface, 1, now, [p])], out := s.out + [Request(hop)])
  }

  function IpSent(s: State, p: Packet, hop: Addr, iface: string, now: int): State {
    if hop in s.known then s.(out := s.out + [Sent(p)]) else Enqueued(s, p, hop, iface, now)
  }

  /** Sends a host-unreachable error for a packet, if there is a route back. */
  function ErrorSent(env: Env, s: State, p: Packet, now: int): State {
    if p.src in env.routes then
      IpSent(s, ErrorFor(env, p), env.routes[p.src].nextHop, env.routes[p.src].iface, now)
    else s
  }

  /** One turn of the drain: the first packet of the entry is answered or not, and leaves. */
  function DrainOne(env: Env, s: State, k: nat, now: int): (s': State)
    requires k < |s.queue| && s.queue[k].packets != []
    ensures Grows(s.queue, s'.queue, now)
  {
    var p := s.queue[k].packets[0];
    var t := if Erring(env, p) then ErrorSent(env, s, p, now) else s;
    State(t.queue[k := t.queue[k].(packets := t.queue[k].packets[1..])], t.known, t.out + [GivenUp(p, Answer(env, p))])
  }

  /** Entries keep their place and their request history; new ones are appended. */
  ghost predicate Grows(before: seq<Entry>, after: seq<Entry>, now: int) {
    && |before| <= |after|
    && (forall i :: 0 <= i < |before| ==> after[i] == before[i].(packets := after[i].packets))
    && (forall i :: |before| <= i < |after| ==> after[i].requests == 1 && after[i].last == now)
  }

  lemma DrainOneShrinks(env: Env, s: State, k: nat, now: int)
    requires k < |s.queue| && s.queue[k].packets != []
    ensures Burden(env, DrainOne(env, s, k, now).queue[k].packets) < Burden(env, s.queue[k].packets)
  {
    var ps := s.queue[k].packets;
    var p := ps[0];
    if Answered(env, p) {
      var e := ErrorFor(env, p);
      BurdenAppend(env, ps[1..], e);
      assert (ps + [e])[1..] == ps[1..] + [e];
    }
  }

  /** The whole drain. */
  function Drained(env: Env, s: State, k: nat, now: int): (s': State)
    requires k < |s.queue|
    ensures Grows(s.queue, s'.queue, now) && s'.queue[k].packets == []
    decreases Burden(env, s.queue[k].packets)
  {
    if s.queue[k].packets == [] then s
    else
      DrainOneShrinks(env, s, k, now);
      Drained(env, DrainOne(env, s, k, now), k, now)
  }

  predicate Due(e: Entry, now: int) {
    now - e.last > 1
  }

  predicate Ripe(e: Entry, now: int) {
    Due(e, now) && e.requests >= MAX_REQUESTS
  }

  function Without(es: seq<Entry>, k: nat): seq<Entry>
    requires k < |es|
  {
    es[..k] + es[k + 1..]
  }

  function GiveUp(env: Env, s: State, k: nat, now: int): State
    requires k < |s.queue|
  {
    var t := Drained(env, s, k, now);
    t.(queue := Without(t.queue, k))
  }

  function AskAgain(s: State, k: nat, now: int): State
    requires k < |s.queue|
  {
    var e := s.queue[k];
    s.(queue := s.queue[k := e.(requests := e.requests + 1, last := now)], out := s.out + [Request(e.nextHop)])
  }

  /** What is done with one entry. */
  function Visit(env: Env, s: State, k: nat, now: int): State
    requires k < |s.queue|
  {
    if !Due(s.queue[k], now) then s
    else if s.queue[k].requests < MAX_REQUESTS then AskAgain(s, k, now)
    else GiveUp(env, s, k, now)
  }

  function Ripes(es: seq<Entry>, now: int): nat {
    if es == [] then 0 else (if Ripe(es[0], now) then 1 else 0) + Ripes(es[1..], now)
  }

  lemma {:induction false} RipesGrow(before: seq<Entry>, after: seq<Entry>, now: int)
    requires Grows(before, after, now)
    ensures Ripes(after, now) == Ripes(before, now)
    decreases |after|
  {
    if before != [] {
      RipesGrow(before[1..], after[1..], now);
    } else if after != [] {
      RipesGrow(before, after[1..], now);
    }
  }

  lemma VisitAdvances(env: Env, s: State, k: nat, now: int)
    requires k < |s.queue|
    ensures var s' := Visit(env, s, k, now);
            if Ripe(s.queue[k], now) then
              k <= |s'.queue| && Ripes(s'.queue[k..], now) == Ripes(s.queue[k..], now) - 1
            else
              |s'.queue| == |s.queue| && s'.queue[k + 1..] == s.queue[k + 1..]
              && Ripes(s'.queue[k + 1..], now) == Ripes(s.queue[k..], now)
  {
    assert s.queue[k..][1..] == s.queue[k + 1..];
    if Ripe(s.queue[k], now) {
      var t := Drained(env, s, k, now);
      assert Without(t.queue, k)[k..] == t.queue[k + 1..];
      RipesGrow(s.queue[k + 1..], t.queue[k + 1..], now);
    }
  }

  /** The walk over the queue: the next entry is fixed before the current one is dealt with. */
  function Walked(env: Env, s: State, k: nat, now: int): State
    requires k <= |s.queue|
    decreases if k < |s.queue| then Ripes(s.queue[k..], now) else 0, |s.queue| - k
  {
    if k == |s.queue| then s
    else
      VisitAdvances(env, s, k, now);
      var s' := Visit(env, s, k, now);
      if k + 1 == |s.queue| then s'
      else Walked(env, s', if Ripe(s.queue[k], now) then k else k + 1, now)
  }

  /** The packets of an entry go out in the order they came. */
  function SentAll(ps: seq<Packet>): seq<Output> {
    if ps == [] then [] else [Sent(ps[0])] + SentAll(ps[1..])
  }

  /** A reply: the address is known, and every entry for it is sent and removed. */
  function Replied(s: State, hop: Addr, k: nat): State
    requires k <= |s.queue|
    decreases |s.queue| - k
  {
    if k == |s.queue| then s
    else if s.queue[k].nextHop != hop then Replied(s, hop, k + 1)
    else Replied(State(Without(s.queue, k), s.known, s.out + SentAll(s.queue[k].packets)), hop, k)
  }

  // ----- conservation, packet by packet

  /** How often a packet is in a list. */
  function Count(ps: seq<Packet>, x: Packet): nat {
    multiset(ps)[x]
  }

  /** How often a packet waits in the queue. */
  function Held(es: seq<Entry>, x: Packet): nat {
    if es == [] then 0 else Count(es[0].packets, x) + Held(es[1..], x)
  }

  function Leaves(o: Output, x: Packet): nat {
    if !o.Request? && o.p == x then 1 else 0
  }

  /** How often a packet has left, for the wire or given up. */
  function Gone(out: seq<Output>, x: Packet): nat {
    if out == [] then 0 else Gone(out[..|out| - 1], x) + Leaves(out[|out| - 1], x)
  }

  function Causes(o: Output, x: Packet): nat {
    if o.GivenUp? && o.error == Some(x) then 1 else 0
  }

  /** How often it was made, as the error for a packet given up. */
  function Errors(out: seq<Output>, x: Packet): nat {
    if out == [] then 0 else Errors(out[..|out| - 1], x) + Causes(out[|out| - 1], x)
  }

  lemma CountAppend(ps: seq<Packet>, p: Packet, x: Packet)
    ensures Count(ps + [p], x) == Count(ps, x) + if p == x then 1 else 0
  {
  }

  lemma CountFirst(ps: seq<Packet>, x: Packet)
    requires ps != []
    ensures Count(ps, x) == Count(ps[1..], x) + if ps[0] == x then 1 else 0
  {
    assert ps == [ps[0]] + ps[1..];
  }

  lemma {:induction false} HeldSet(es: seq<Entry>, k: nat, e: Entry, x: Packet)
    requires k < |es|
    ensures Held(es[k := e], x) == Held(es, x) - Count(es[k].packets, x) + Count(e.packets, x)
  {
    if k > 0 {
      assert es[k := e][1..] == es[1..][k - 1 := e];
      HeldSet(es[1..], k - 1, e, x);
    } else {
      assert es[0 := e][1..] == es[1..];
    }
  }

  lemma {:induction false} HeldAppend(es: seq<Entry>, e: Entry, x: Packet)
    ensures Held(es + [e], x) == Held(es, x) + Count(e.packets, x)
  {
    if es != [] {
      assert (es + [e])[1..] == es[1..] + [e];
      HeldAppend(es[1..], e, x);
    } else {
      assert es + [e] == [e];
    }
  }

  lemma {:induction false} HeldWithout(es: seq<Entry>, k: nat, x: Packet)
    requires k < |es|
    ensures Held(es, x) == Held(Without(es, k), x) + Count(es[k].packets, x)
  {
    if k > 0 {
      assert Without(es, k)[1..] == Without(es[1..], k - 1);
      HeldWithout(es[1..], k - 1, x);
    } else {
      assert Without(es, 0) == es[1..];
    }
  }

  lemma OutNext(out: seq<Output>, o: Output, x: Packet)
    ensures Gone(out + [o], x) == Gone(out, x) + Leaves(o, x)
    ensures Errors(out + [o], x) == Errors(out, x) + Causes(o, x)
  {
    assert (out + [o])[..|out|] == out;
  }

  /** A packet's balance: where it is, less the errors that made it. */
  function Balance(s: State, x: Packet): int {
    Held(s.queue, x) + Gone(s.out, x) - Errors(s.out, x)
  }

  lemma EnqueuedAccounts(s: State, p: Packet, hop: Addr, iface: string, now: int, x: Packet)
    ensures Balance(Enqueued(s, p, hop, iface, now), x) == Balance(s, x) + if p == x then 1 else 0
  {
    var k := Find(s.queue, hop);
    if k < |s.queue| {
      CountAppend(s.queue[k].packets, p, x);
      HeldSet(s.queue, k, Push(s.queue[k], p), x);
    } else {
      HeldAppend(s.queue, Entry(hop, iface, 1, now, [p]), x);
      OutNext(s.out, Request(hop), x);
    }
  }

  /** Sending a packet takes it in once: it leaves at once or waits. */
  lemma SendIpAccounts(s: State, p: Packet, hop: Addr, iface: string, now: int, x: Packet)
    ensures Balance(IpSent(s, p, hop, iface, now), x) == Balance(s, x) + if p == x then 1 else 0
  {
    if hop in s.known {
      OutNext(s.out, Sent(p), x);
    } else {
      EnqueuedAccounts(s, p, hop, iface, now, x);
    }
  }

  lemma DrainOneAccounts(env: Env, s: State, k: nat, now: int, x: Packet)
    requires k < |s.queue| && s.queue[k].packets != []
    ensures Balance(DrainOne(env, s, k, now), x) == Balance(s, x)
  {
    var p := s.queue[k].packets[0];
    var t := if Erring(env, p) then ErrorSent(env, s, p, now) else s;
    if Answered(env, p) {
      SendIpAccounts(s, ErrorFor(env, p), env.routes[p.src].nextHop, env.routes[p.src].iface, now, x);
    }
    assert t.queue[k].packets[0] == p;
    HeadLeaves(t, k, Answer(env, p), x);
  }

  /** The first packet of an entry leaves: it is counted among those gone, and its error among those made. */
  lemma HeadLeaves(t: State, k: nat, answer: Option<Packet>, x: Packet)
    requires k < |t.queue| && t.queue[k].packets != []
    ensures var e := t.queue[k];
            var o := GivenUp(e.packets[0], answer);
            Balance(State(t.queue[k := e.(packets := e.packets[1..])], t.known, t.out + [o]), x)
            == Balance(t, x) - Causes(o, x)
  {
    var e := t.queue[k];
    CountFirst(e.packets, x);
    HeldSet(t.queue, k, e.(packets := e.packets[1..]), x);
    OutNext(t.out, GivenUp(e.packets[0], answer), x);
  }

  lemma {:induction false} DrainedAccounts(env: Env, s: State, k: nat, now: int, x: Packet)
    requires k < |s.queue|
    ensures Balance(Drained(env, s, k, now), x) == Balance(s, x)
    decreases Burden(env, s.queue[k].packets)
  {
    if s.queue[k].packets != [] {
      DrainOneShrinks(env, s, k, now);
      DrainOneAccounts(env, s, k, now, x);
      DrainedAccounts(env, DrainOne(env, s, k, now), k, now, x);
    }
  }

  lemma VisitAccounts(env: Env, s: State, k: nat, now: int, x: Packet)
    requires k < |s.queue|
    ensures Balance(Visit(env, s, k, now), x) == Balance(s, x)
  {
    if Ripe(s.queue[k], now) {
      DrainedAccounts(env, s, k, now, x);
      HeldWithout(Drained(env, s, k, now).queue, k, x);
    } else if Due(s.queue[k], now) {
      var e := s.queue[k];
      HeldSet(s.queue, k, e.(requests := e.requests + 1, last := now), x);
      OutNext(s.out, Request(e.nextHop), x);
    }
  }

  /** The walk over the queue makes and loses no packet. */
  lemma {:induction false} WalkedAccounts(env: Env, s: State, k: nat, now: int, x: Packet)
    requires k <= |s.queue|
    ensures Balance(Walked(env, s, k, now), x) == Balance(s, x)
    decreases if k < |s.queue| then Ripes(s.queue[k..], now) else 0, |s.queue| - k
  {
    if k < |s.queue| {
      VisitAdvances(env, s, k, now);
      VisitAccounts(env, s, k, now, x);
      if k + 1 < |s.queue| {
        WalkedAccounts(env, Visit(env, s, k, now), if Ripe(s.queue[k], now) then k else k + 1, now, x);
      }
    }
  }

  lemma SentAllNext(out: seq<Output>, ps: seq<Packet>)
    requires ps != []
    ensures out + SentAll(ps) == out + [Sent(ps[0])] + SentAll(ps[1..])
  {
  }

  lemma {:induction false} SentAllAccounts(out: seq<Output>, ps: seq<Packet>, x: Packet)
    ensures Gone(out + SentAll(ps), x) == Gone(out, x) + Count(ps, x)
    ensures Errors(out + SentAll(ps), x) == Errors(out, x)
    decreases |ps|
  {
    if ps == [] {
      assert out + [] == out;
    } else {
      OutNext(out, Sent(ps[0]), x);
      SentAllAccounts(out + [Sent(ps[0])], ps[1..], x);
      SentAllNext(out, ps);
      CountFirst(ps, x);
    }
  }

  /** Nor does a reply. */
  lemma {:induction false} RepliedAccounts(s: State, hop: Addr, k: nat, x: Packet)
    requires k <= |s.queue|
    ensures Balance(Replied(s, hop, k), x) == Balance(s, x)
    decreases |s.queue| - k
  {
    if k < |s.queue| {
      if s.queue[k].nextHop != hop {
        RepliedAccounts(s, hop, k + 1, x);
      } else {
        SentAllAccounts(s.out, s.queue[k].packets, x);
        HeldWithout(s.queue, k, x);
        RepliedAccounts(State(Without(s.queue, k), s.known, s.out + SentAll(s.queue[k].packets)), hop, k, x);
      }
    }
  }

  // ----- the invariant

  /** One entry per next hop, and between one and five requests for each. */
  ghost predicate Inv(es: seq<Entry>) {
    && (forall i, j :: 0 <= i < j < |es| ==> es[i].nextHop != es[j].nextHop)
    && forall i :: 0 <= i < |es| ==> 1 <= es[i].requests <= MAX_REQUESTS
  }

  lemma SendIpKeepsInv(s: State, p: Packet, hop: Addr, iface: string, now: int)
    requires Inv(s.queue)
    ensures Inv(IpSent(s, p, hop, iface, now).queue)
  {
  }

  lemma {:induction false} DrainedKeepsInv(env: Env, s: State, k: nat, now: int)
    requires k < |s.queue| && Inv(s.queue)
    ensures Inv(Drained(env, s, k, now).queue)
    decreases Burden(env, s.queue[k].packets)
  {
    if s.queue[k].packets != [] {
      DrainOneShrinks(env, s, k, now);
      var p := s.queue[k].packets[0];
      if Answered(env, p) {
        SendIpKeepsInv(s, ErrorFor(env, p), env.routes[p.src].nextHop, env.routes[p.src].iface, now);
      }
      DrainedKeepsInv(env, DrainOne(env, s, k, now), k, now);
    }
  }

  lemma VisitKeepsInv(env: Env, s: State, k: nat, now: int)
    requires k < |s.queue| && Inv(s.queue)
    ensures Inv(Visit(env, s, k, now).queue)
  {
    DrainedKeepsInv(env, s, k, now);
  }

  lemma {:induction false} WalkedKeepsInv(env: Env, s: State, k: nat, now: int)
    requires k <= |s.queue| && Inv(s.queue)
    ensures Inv(Walked(env, s, k, now).queue)
    decreases if k < |s.queue| then Ripes(s.queue[k..], now) else 0, |s.queue| - k
  {
    if k < |s.queue| {
      VisitAdvances(env, s, k, now);
      VisitKeepsInv(env, s, k, now);
      if k + 1 < |s.queue| {
        WalkedKeepsInv(env, Visit(env, s, k, now), if Ripe(s.queue[k], now) then k else k + 1, now);
      }
    }
  }

  lemma {:induction false} RepliedKeepsInv(s: State, hop: Addr, k: nat)
    requires k <= |s.queue| && Inv(s.queue) && forall i :: 0 <= i < k ==> s.queue[i].nextHop != hop
    ensures Inv(Replied(s, hop, k).queue) && Find(Replied(s, hop, k).queue, hop) == |Replied(s, hop, k).queue|
    decreases |s.queue| - k
  {
    if k < |s.queue| {
      if s.queue[k].nextHop != hop {
        RepliedKeepsInv(s, hop, k + 1);
      } else {
        RepliedKeepsInv(State(Without(s.queue, k), s.known, s.out + SentAll(s.queue[k].packets)), hop, k);
      }
    }
  }

  // ----- runs

  datatype Event =
    | Send(p: Packet, hop: Addr, iface: string, now: int)
    | Tick(env: Env, now: int)
    | Reply(hop: Addr)
    | Learn(hop: Addr)
    | Forget(hop: Addr)

  function Step(s: State, e: Event): State {
    match e
    case Send(p, hop, iface, now) => IpSent(s, p, hop, iface, now)
    case Tick(env, now) => Walked(env, s, 0, now)
    case Reply(hop) => Replied(s.(known := s.known + {hop}), hop, 0)
    case Learn(hop) => s.(known := s.known + {hop})
    case Forget(hop) => s.(known := s.known - {hop})
  }

  function Run(events: seq<Event>): State {
    if events == [] then State([], {}, []) else Step(Run(events[..|events| - 1]), events[|events| - 1])
  }

  /** How often a packet was handed over to be sent. */
  function Taken(events: seq<Event>, x: Packet): nat {
    if events == [] then 0
    else
      var e := events[|events| - 1];
      Taken(events[..|events| - 1], x) + if e.Send? && e.p == x then 1 else 0
  }

  /** Each next hop has one entry and at most five requests, whatever happens. */
  lemma {:induction false} RunKeepsInv(events: seq<Event>)
    ensures Inv(Run(events).queue)
  {
    if events != [] {
      var n := |events| - 1;
      var s := Run(events[..n]);
      RunKeepsInv(events[..n]);
      match events[n]
      case Send(p, hop, iface, now) => SendIpKeepsInv(s, p, hop, iface, now);
      case Tick(env, now) => WalkedKeepsInv(env, s, 0, now);
      case Reply(hop) => RepliedKeepsInv(s.(known := s.known + {hop}), hop, 0);
      case _ =>
    }
  }

  /**
   A packet that was handed over, or made as an error, waits in the queue or has left, as
   often as it was handed over or made.
   */
  lemma {:induction false} RunConserves(events: seq<Event>, x: Packet)
    ensures Held(Run(events).queue, x) + Gone(Run(events).out, x) == Taken(events, x) + Errors(Run(events).out, x)
  {
    if events != [] {
      var n := |events| - 1;
      var s := Run(events[..n]);
      RunConserves(events[..n], x);
      match events[n]
      case Send(p, hop, iface, now) => SendIpAccounts(s, p, hop, iface, now, x);
      case Tick(env, now) => WalkedAccounts(env, s, 0, now, x);
      case Reply(hop) => RepliedAccounts(s.(known := s.known + {hop}), hop, 0, x);
      case _ =>
    }
  }

  /** A packet that is handed over once, and is no error, waits once or has left once. */
  lemma EachLeavesOnce(events: seq<Event>, x: Packet)
    requires Taken(events, x) == 1 && !IsError(x)
    ensures Held(Run(events).queue, x) + Gone(Run(events).out, x) == 1
  {
    RunConserves(events, x);
    RunErrorsAreErrors(events);
    NeverMade(Run(events).out, x);
  }

  predicate IsError(p: Packet) {
    p.proto == ICMP && p.icmpType == DESTINATION_UNREACHABLE
  }

  /** The errors made are errors, and none is made for an error. */
  ghost predicate ErrorsAreErrors(out: seq<Output>) {
    forall i :: 0 <= i < |out| ==> out[i].GivenUp? && out[i].error.Some? ==>
        IsError(out[i].error.value) && !IsError(out[i].p)
  }

  lemma {:induction false} DrainedErrors(env: Env, s: State, k: nat, now: int)
    requires k < |s.queue| && ErrorsAreErrors(s.out)
    ensures ErrorsAreErrors(Drained(env, s, k, now).out)
    decreases Burden(env, s.queue[k].packets)
  {
    if s.queue[k].packets != [] {
      DrainOneShrinks(env, s, k, now);
      assert ErrorsAreErrors(DrainOne(env, s, k, now).out);
      DrainedErrors(env, DrainOne(env, s, k, now), k, now);
    }
  }

  lemma {:induction false} WalkedErrors(env: Env, s: State, k: nat, now: int)
    requires k <= |s.queue| && ErrorsAreErrors(s.out)
    ensures ErrorsAreErrors(Walked(env, s, k, now).out)
    decreases if k < |s.queue| then Ripes(s.queue[k..], now) else 0, |s.queue| - k
  {
    if k < |s.queue| {
      VisitAdvances(env, s, k, now);
      DrainedErrors(env, s, k, now);
      var s' := Visit(env, s, k, now);
      assert ErrorsAreErrors(s'.out);
      if k + 1 < |s.queue| {
        WalkedErrors(env, s', if Ripe(s.queue[k], now) then k else k + 1, now);
      }
    }
  }

  lemma {:induction false} RepliedErrors(s: State, hop: Addr, k: nat)
    requires k <= |s.queue| && ErrorsAreErrors(s.out)
    ensures ErrorsAreErrors(Replied(s, hop, k).out)
    decreases |s.queue| - k
  {
    if k < |s.queue| {
      if s.queue[k].nextHop != hop {
        RepliedErrors(s, hop, k + 1);
      } else {
        NoneGivenUp(s.queue[k].packets);
        RepliedErrors(State(Without(s.queue, k), s.known, s.out + SentAll(s.queue[k].packets)), hop, k);
      }
    }
  }

  lemma {:induction false} NoneGivenUp(ps: seq<Packet>)
    ensures forall i :: 0 <= i < |SentAll(ps)| ==> SentAll(ps)[i].Sent?
  {
    if ps != [] {
      NoneGivenUp(ps[1..]);
    }
  }

  /** Errors cause no further errors. */
  lemma {:induction false} RunErrorsAreErrors(events: seq<Event>)
    ensures ErrorsAreErrors(Run(events).out)
  {
    if events != [] {
      var n := |events| - 1;
      var s := Run(events[..n]);
      RunErrorsAreErrors(events[..n]);
      match events[n]
      case Tick(env, now) => WalkedErrors(env, s, 0, now);
      case Reply(hop) => RepliedErrors(s.(known := s.known + {hop}), hop, 0);
      case _ =>
    }
  }

  lemma {:induction false} NeverMade(out: seq<Output>, x: Packet)
    requires ErrorsAreErrors(out) && !IsError(x)
    ensures Errors(out, x) == 0
  {
    if out != [] {
      NeverMade(out[..|out| - 1], x);
      assert out[|out| - 1].GivenUp? && out[|out| - 1].error.Some? ==> IsError(out[|out| - 1].error.value);
    }
  }

  lemma {:induction false} SentAllIs(ps: seq<Packet>)
    ensures |SentAll(ps)| == |ps| && forall i :: 0 <= i < |ps| ==> SentAll(ps)[i] == Sent(ps[i])
  {
    if ps != [] {
      SentAllIs(ps[1..]);
    }
  }

  /** A reply sends the packets of its one entry in the order they came, and nothing else happens. */
  lemma ReplyServesEntry(s: State, hop: Addr)
    requires Inv(s.queue)
    ensures var k := Find(s.queue, hop);
            Replied(s, hop, 0) ==
            if k < |s.queue| then State(Without(s.queue, k), s.known, s.out + SentAll(s.queue[k].packets)) else s
    ensures var k := Find(s.queue, hop);
            k < |s.queue| ==>
              var ps, out := s.queue[k].packets, Replied(s, hop, 0).out;
              |out| == |s.out| + |ps| && forall i :: 0 <= i < |ps| ==> out[|s.out| + i] == Sent(ps[i])
  {
    var k := Find(s.queue, hop);
    if k < |s.queue| {
      SentAllIs(s.queue[k].packets);
    }
    RepliedSkips(s, hop, 0, k);
    if k < |s.queue| {
      var t := State(Without(s.queue, k), s.known, s.out + SentAll(s.queue[k].packets));
      RepliedSkips(t, hop, k, |t.queue|);
    }
  }

  lemma {:induction false} RepliedSkips(s: State, hop: Addr, k: nat, n: nat)
    requires k <= n <= |s.queue| && forall i :: k <= i < n ==> s.queue[i].nextHop != hop
    ensures Replied(s, hop, k) == Replied(s, hop, n)
    decreases n - k
  {
    if k < n {
      RepliedSkips(s, hop, k + 1, n);
    }
  }

  // ----- how long a packet waits

  /** The same entry, perhaps with more packets behind those it had. */
  predicate Longer(e: Entry, f: Entry) {
    f == e.(packets := f.packets) && e.packets <= f.packets
  }

  /** At least these packets have left meanwhile. */
  ghost predicate Left(ps: seq<Packet>, before: seq<Output>, after: seq<Output>) {
    forall x :: Gone(after, x) >= Gone(before, x) + Count(ps, x)
  }

  lemma {:induction false} GoneGrows(before: seq<Output>, after: seq<Output>, x: Packet)
    requires before <= after
    ensures Gone(before, x) <= Gone(after, x)
    decreases |after|
  {
    if before != after {
      GoneGrows(before, after[..|after| - 1], x);
    }
  }

  lemma LeftEarlier(ps: seq<Packet>, start: seq<Output>, before: seq<Output>, after: seq<Output>, end: seq<Output>)
    requires start <= before && Left(ps, before, after) && after <= end
    ensures Left(ps, start, end)
  {
    forall x ensures Gone(end, x) >= Gone(start, x) + Count(ps, x) {
      GoneGrows(start, before, x);
      GoneGrows(after, end, x);
    }
  }

  lemma FewerLeft(ps: seq<Packet>, more: seq<Packet>, before: seq<Output>, after: seq<Output>)
    requires ps <= more && Left(more, before, after)
    ensures Left(ps, before, after)
  {
    forall x ensures Count(ps, x) <= Count(more, x) {
      assert more == ps + more[|ps|..];
    }
  }

  /** A drain leaves the other entries at least the packets they had. */
  lemma {:induction false} DrainedOthers(env: Env, s: State, k: nat, now: int, j: nat)
    requires k < |s.queue| && j < |s.queue| && j != k
    ensures Longer(s.queue[j], Drained(env, s, k, now).queue[j])
    decreases Burden(env, s.queue[k].packets)
  {
    if s.queue[k].packets != [] {
      DrainOneShrinks(env, s, k, now);
      assert Longer(s.queue[j], DrainOne(env, s, k, now).queue[j]);
      DrainedOthers(env, DrainOne(env, s, k, now), k, now, j);
    }
  }

  lemma {:induction false} DrainedSends(env: Env, s: State, k: nat, now: int)
    requires k < |s.queue|
    ensures s.out <= Drained(env, s, k, now).out
    decreases Burden(env, s.queue[k].packets)
  {
    if s.queue[k].packets != [] {
      DrainOneShrinks(env, s, k, now);
      DrainedSends(env, DrainOne(env, s, k, now), k, now);
    }
  }

  /** All packets of the drained entry leave. */
  lemma {:induction false} DrainedLeaves(env: Env, s: State, k: nat, now: int, x: Packet)
    requires k < |s.queue|
    ensures Gone(Drained(env, s, k, now).out, x) >= Gone(s.out, x) + Count(s.queue[k].packets, x)
    decreases Burden(env, s.queue[k].packets)
  {
    if s.queue[k].packets != [] {
      DrainOneShrinks(env, s, k, now);
      HeadIsGone(env, s, k, now, x);
      DrainedLeaves(env, DrainOne(env, s, k, now), k, now, x);
    }
  }

  lemma HeadIsGone(env: Env, s: State, k: nat, now: int, x: Packet)
    requires k < |s.queue| && s.queue[k].packets != []
    ensures var s' := DrainOne(env, s, k, now);
            Gone(s'.out, x) + Count(s'.queue[k].packets, x) >= Gone(s.out, x) + Count(s.queue[k].packets, x)
  {
    var ps := s.queue[k].packets;
    var t := if Erring(env, ps[0]) then ErrorSent(env, s, ps[0], now) else s;
    GoneGrows(s.out, t.out, x);
    OutNext(t.out, GivenUp(ps[0], Answer(env, ps[0])), x);
    CountFirst(ps, x);
    var left := t.queue[k].packets[1..];
    assert ps[1..] <= left;
    assert left == ps[1..] + left[|ps| - 1..];
  }

  /** What a visit does to the entry it is made to. */
  function Asked(e: Entry, now: int): Entry {
    if Due(e, now) then e.(requests := e.requests + 1, last := now) else e
  }

  /** A visit to one entry keeps every other, one place further on if the visited one leaves. */
  lemma VisitOthers(env: Env, s: State, k: nat, now: int, j: nat)
    requires k < |s.queue| && j < |s.queue| && j != k
    ensures var s', j' := Visit(env, s, k, now), if Ripe(s.queue[k], now) && j > k then j - 1 else j;
            s.out <= s'.out && 0 <= j' < |s'.queue| && Longer(s.queue[j], s'.queue[j'])
  {
    if Ripe(s.queue[k], now) {
      DrainedOthers(env, s, k, now, j);
      DrainedSends(env, s, k, now);
    }
  }

  /** Visiting an entry gives up all its packets, or keeps it. */
  lemma VisitItself(env: Env, s: State, k: nat, now: int)
    requires k < |s.queue|
    ensures var s' := Visit(env, s, k, now);
            s.out <= s'.out &&
            if Ripe(s.queue[k], now) then Left(s.queue[k].packets, s.out, s'.out)
            else k < |s'.queue| && s'.queue[k] == Asked(s.queue[k], now)
  {
    if Ripe(s.queue[k], now) {
      DrainedSends(env, s, k, now);
      forall x {
        DrainedLeaves(env, s, k, now, x);
      }
    }
  }

  /** The walk keeps the entries it has passed, in their places. */
  lemma {:induction false} WalkedKeeps(env: Env, s: State, k: nat, now: int, j: nat)
    requires j < k <= |s.queue|
    ensures var s' := Walked(env, s, k, now); j < |s'.queue| && Longer(s.queue[j], s'.queue[j])
    decreases if k < |s.queue| then Ripes(s.queue[k..], now) else 0, |s.queue| - k
  {
    if k < |s.queue| {
      VisitAdvances(env, s, k, now);
      VisitOthers(env, s, k, now, j);
      if k + 1 < |s.queue| {
        WalkedKeeps(env, Visit(env, s, k, now), if Ripe(s.queue[k], now) then k else k + 1, now, j);
      }
    }
  }

  lemma {:induction false} WalkedSends(env: Env, s: State, k: nat, now: int)
    requires k <= |s.queue|
    ensures s.out <= Walked(env, s, k, now).out
    decreases if k < |s.queue| then Ripes(s.queue[k..], now) else 0, |s.queue| - k
  {
    if k < |s.queue| {
      VisitAdvances(env, s, k, now);
      VisitItself(env, s, k, now);
      if k + 1 < |s.queue| {
        WalkedSends(env, Visit(env, s, k, now), if Ripe(s.queue[k], now) then k else k + 1, now);
      }
    }
  }

  /** An entry was asked for again if it was due, or all its packets have left. */
  ghost predicate Treated(e: Entry, out: seq<Output>, after: State, k: int, now: int) {
    if Ripe(e, now) then Left(e.packets, out, after.out)
    else 0 <= k < |after.queue| && Longer(Asked(e, now), after.queue[k])
  }

  lemma TreatedEarlier(e: Entry, out: seq<Output>, f: Entry, out': seq<Output>, after: State, k: int, now: int)
    requires Longer(e, f) && out <= out' && Treated(f, out', after, k, now)
    ensures Treated(e, out, after, k, now)
  {
    if Ripe(e, now) {
      LeftEarlier(f.packets, out, out', after.out, after.out);
      FewerLeft(e.packets, f.packets, out, after.out);
    }
  }

  lemma WalkedHere(env: Env, s: State, k: nat, now: int)
    requires k < |s.queue|
    ensures Treated(s.queue[k], s.out, Walked(env, s, k, now), k, now)
  {
    var t, next := Visit(env, s, k, now), if Ripe(s.queue[k], now) then k else k + 1;
    VisitAdvances(env, s, k, now);
    VisitItself(env, s, k, now);
    if k + 1 < |s.queue| {
      if Ripe(s.queue[k], now) {
        WalkedSends(env, t, next, now);
        LeftEarlier(s.queue[k].packets, s.out, s.out, t.out, Walked(env, t, next, now).out);
      } else {
        WalkedKeeps(env, t, next, now, k);
      }
    }
  }

  /** The walk treats each entry from its place on. */
  lemma {:induction false} WalkedAsks(env: Env, s: State, k: nat, now: int, j: nat) returns (j': int)
    requires k <= j < |s.queue|
    ensures Treated(s.queue[j], s.out, Walked(env, s, k, now), j', now)
    decreases Ripes(s.queue[k..], now), |s.queue| - k
  {
    if j == k {
      j' := k;
      WalkedHere(env, s, k, now);
    } else {
      var t, next := Visit(env, s, k, now), if Ripe(s.queue[k], now) then k else k + 1;
      var i := if Ripe(s.queue[k], now) then j - 1 else j;
      VisitAdvances(env, s, k, now);
      VisitOthers(env, s, k, now, j);
      j' := WalkedAsks(env, t, next, now, i);
      TreatedEarlier(s.queue[j], s.out, t.queue[i], t.out, Walked(env, t, next, now), j', now);
    }
  }

  /** Some entry waits for the hop. */
  predicate Waits(s: State, hop: Addr) {
    Find(s.queue, hop) < |s.queue|
  }

  function WaitingFor(s: State, hop: Addr): Entry
    requires Waits(s, hop)
  {
    s.queue[Find(s.queue, hop)]
  }

  lemma FoundAt(s: State, hop: Addr, k: nat)
    requires Inv(s.queue) && k < |s.queue| && s.queue[k].nextHop == hop
    ensures Find(s.queue, hop) == k
  {
  }

  /** The event is a walk that finds the entry for the hop due. */
  predicate AsksFor(s: State, e: Event, hop: Addr) {
    e.Tick? && Waits(s, hop) && Due(WaitingFor(s, hop), e.now)
  }

  /** The packets that wait for the hop leave: they are sent after a reply, or given up. */
  predicate Serves(s: State, e: Event, hop: Addr) {
    Waits(s, hop) && (e == Reply(hop) || (e.Tick? && Ripe(WaitingFor(s, hop), e.now)))
  }

  lemma TickServes(s: State, env: Env, now: int, hop: Addr)
    requires Inv(s.queue) && Waits(s, hop)
    ensures var s', e := Step(s, Tick(env, now)), WaitingFor(s, hop);
            if Ripe(e, now) then Left(e.packets, s.out, s'.out)
            else Waits(s', hop) && Longer(Asked(e, now), WaitingFor(s', hop))
  {
    var k := WalkedAsks(env, s, 0, now, Find(s.queue, hop));
    var s' := Step(s, Tick(env, now));
    WalkedKeepsInv(env, s, 0, now);
    if !Ripe(WaitingFor(s, hop), now) {
      FoundAt(s', hop, k);
    }
  }

  lemma OtherReplyKeeps(s: State, other: Addr, hop: Addr)
    requires Inv(s.queue) && Waits(s, hop) && other != hop
    ensures var s' := Step(s, Reply(other)); Waits(s', hop) && WaitingFor(s', hop) == WaitingFor(s, hop)
  {
    var t, s' := s.(known := s.known + {other}), Step(s, Reply(other));
    ReplyServesEntry(t, other);
    RepliedKeepsInv(t, other, 0);
    var k, gone := Find(s.queue, hop), Find(s.queue, other);
    FoundAt(s', hop, if gone < k then k - 1 else k);
  }

  lemma ReplyServes(s: State, hop: Addr)
    requires Inv(s.queue) && Waits(s, hop)
    ensures Left(WaitingFor(s, hop).packets, s.out, Step(s, Reply(hop)).out)
  {
    ReplyServesEntry(s.(known := s.known + {hop}), hop);
    forall x {
      SentAllAccounts(s.out, WaitingFor(s, hop).packets, x);
    }
  }

  /** An event serves the entry for a hop, or keeps it; a due walk asks once more. */
  lemma StepServes(s: State, e: Event, hop: Addr)
    requires Inv(s.queue) && Waits(s, hop)
    ensures var s', w := Step(s, e), WaitingFor(s, hop);
            if Serves(s, e, hop) then Left(w.packets, s.out, s'.out)
            else Waits(s', hop) && w.packets <= WaitingFor(s', hop).packets
                 && WaitingFor(s', hop).requests == w.requests + Once(AsksFor(s, e, hop))
  {
    match e
    case Tick(env, now) => TickServes(s, env, now, hop);
    case Reply(other) =>
      if other == hop {
        ReplyServes(s, hop);
      } else {
        OtherReplyKeeps(s, other, hop);
      }
    case Send(p, other, iface, now) =>
      SendIpKeepsInv(s, p, other, iface, now);
      FoundAt(Step(s, e), hop, Find(s.queue, hop));
    case _ =>
  }

  lemma StepSends(s: State, e: Event)
    requires Inv(s.queue)
    ensures s.out <= Step(s, e).out
  {
    match e
    case Tick(env, now) => WalkedSends(env, s, 0, now);
    case Reply(hop) => ReplyServesEntry(s.(known := s.known + {hop}), hop);
    case _ =>
  }

  /** How often the entry for the hop was found due between the `i`-th and the `j`-th event. */
  function DueTicks(events: seq<Event>, hop: Addr, i: nat, j: nat): nat
    requires i <= j <= |events|
  {
    if i == j then 0
    else DueTicks(events, hop, i, j - 1) + Once(AsksFor(Run(events[..j - 1]), events[j - 1], hop))
  }

  /** The entry `e` still waits for the hop, having been asked for `n` times more. */
  predicate StillWaits(e: Entry, t: State, hop: Addr, n: nat) {
    && Waits(t, hop) && e.packets <= WaitingFor(t, hop).packets
    && WaitingFor(t, hop).requests == e.requests + n
  }

  /** It still waits, or all its packets have left since `out`. */
  ghost predicate Followed(e: Entry, out: seq<Output>, t: State, hop: Addr, n: nat) {
    out <= t.out && (StillWaits(e, t, hop, n) || Left(e.packets, out, t.out))
  }

  function Once(b: bool): nat {
    if b then 1 else 0
  }

  /** What waits is served and has left then, or waits on; what has left stays away. */
  lemma FollowedNext(e: Entry, out: seq<Output>, t: State, v: Event, hop: Addr, n: nat)
    requires Inv(t.queue) && Followed(e, out, t, hop, n)
    ensures Followed(e, out, Step(t, v), hop, n + Once(AsksFor(t, v, hop)))
  {
    var t' := Step(t, v);
    StepSends(t, v);
    if !StillWaits(e, t, hop, n) {
      LeftEarlier(e.packets, out, out, t.out, t'.out);
    } else {
      StepServes(t, v, hop);
      if Serves(t, v, hop) {
        LeftEarlier(WaitingFor(t, hop).packets, out, t.out, t'.out, t'.out);
        FewerLeft(e.packets, WaitingFor(t, hop).packets, out, t'.out);
      }
    }
  }

  /** The entry still waits if it was asked for at most five times. */
  predicate NotGivenUp(e: Entry, t: State, hop: Addr, n: nat) {
    e.requests + n <= 5 ==> StillWaits(e, t, hop, n)
  }

  lemma WaitsOneMore(e: Entry, t: State, v: Event, hop: Addr, n: nat)
    requires Inv(t.queue) && NotGivenUp(e, t, hop, n) && v != Reply(hop)
    ensures NotGivenUp(e, Step(t, v), hop, n + Once(AsksFor(t, v, hop)))
  {
    if e.requests + n <= 5 {
      StepServes(t, v, hop);
    }
  }

  lemma RunNext(events: seq<Event>, n: nat)
    requires n < |events|
    ensures Run(events[..n + 1]) == Step(Run(events[..n]), events[n]) && Inv(Run(events[..n]).queue)
  {
    assert events[..n + 1][..n] == events[..n];
    RunKeepsInv(events[..n]);
  }

  /** The entry waits for the hop after `i` events. */
  predicate WaitsAt(events: seq<Event>, hop: Addr, i: nat, e: Entry) {
    i <= |events| && Waits(Run(events[..i]), hop) && WaitingFor(Run(events[..i]), hop) == e
  }

  /** What waits keeps waiting, or has left. */
  lemma {:induction false} WaitsOrLeft(events: seq<Event>, hop: Addr, i: nat, j: nat, e: Entry)
    requires i <= j <= |events| && WaitsAt(events, hop, i, e)
    ensures Followed(e, Run(events[..i]).out, Run(events[..j]), hop, DueTicks(events, hop, i, j))
    decreases j
  {
    if i < j {
      WaitsOrLeft(events, hop, i, j - 1, e);
      FollowedOn(events, hop, j - 1, e, Run(events[..i]).out, DueTicks(events, hop, i, j - 1));
    }
  }

  lemma FollowedOn(events: seq<Event>, hop: Addr, j: nat, e: Entry, out: seq<Output>, n: nat)
    requires j < |events| && Followed(e, out, Run(events[..j]), hop, n)
    ensures Followed(e, out, Run(events[..j + 1]), hop, n + Once(AsksFor(Run(events[..j]), events[j], hop)))
  {
    RunNext(events, j);
    FollowedNext(e, out, Run(events[..j]), events[j], hop, n);
  }

  /**
   What waits has left once its next hop was asked for five times and found due again: after at
   most five due walks.
   */
  lemma WaitEnds(events: seq<Event>, hop: Addr, i: nat, j: nat, e: Entry)
    requires i <= j <= |events| && WaitsAt(events, hop, i, e)
    requires e.requests + DueTicks(events, hop, i, j) > 5
    ensures Left(e.packets, Run(events[..i]).out, Run(events[..j]).out)
  {
    WaitsOrLeft(events, hop, i, j, e);
    RunKeepsInv(events[..j]);
  }

  lemma NoneBefore(events: seq<Event>, v: Event, i: nat, j: nat)
    requires i < j <= |events| && v !in events[i..j]
    ensures v !in events[i..j - 1] && events[j - 1] != v
  {
    assert events[i..j] == events[i..j - 1] + [events[j - 1]];
  }

  /** And not before, unless a reply comes. */
  lemma {:induction false} WaitGoesOn(events: seq<Event>, hop: Addr, i: nat, j: nat, e: Entry)
    requires i <= j <= |events| && WaitsAt(events, hop, i, e) && Reply(hop) !in events[i..j]
    ensures NotGivenUp(e, Run(events[..j]), hop, DueTicks(events, hop, i, j))
    decreases j
  {
    if i < j {
      NoneBefore(events, Reply(hop), i, j);
      WaitGoesOn(events, hop, i, j - 1, e);
      WaitsOn(events, hop, j - 1, e, DueTicks(events, hop, i, j - 1));
    }
  }

  lemma WaitsOn(events: seq<Event>, hop: Addr, j: nat, e: Entry, n: nat)
    requires j < |events| && NotGivenUp(e, Run(events[..j]), hop, n) && events[j] != Reply(hop)
    ensures NotGivenUp(e, Run(events[..j + 1]), hop, n + Once(AsksFor(Run(events[..j]), events[j], hop)))
  {
    RunNext(events, j);
    WaitsOneMore(e, Run(events[..j]), events[j], hop, n);
  }

  /** A packet handed over once, and no error, has left once after five due walks of the hop it waits for. */
  lemma PacketLeaves(events: seq<Event>, hop: Addr, i: nat, j: nat, e: Entry, x: Packet)
    requires i <= j <= |events| && WaitsAt(events, hop, i, e) && x in e.packets
    requires Taken(events[..j], x) == 1 && !IsError(x)
    requires DueTicks(events, hop, i, j) >= 5
    ensures Gone(Run(events[..j]).out, x) == 1 && Held(Run(events[..j]).queue, x) == 0
  {
    RunKeepsInv(events[..i]);
    WaitEnds(events, hop, i, j, e);
    EachLeavesOnce(events[..j], x);
  }

  // ----- what is asked, and what is answered

  /** How often the hop was asked for. */
  function Requests(out: seq<Output>, hop: Addr): nat {
    if out == [] then 0 else Requests(out[..|out| - 1], hop) + Once(out[|out| - 1] == Request(hop))
  }

  lemma RequestsNext(out: seq<Output>, o: Output, hop: Addr)
    ensures Requests(out + [o], hop) == Requests(out, hop) + Once(o == Request(hop))
  {
    assert (out + [o])[..|out|] == out;
  }

  /** A packet is sent, or joins the entry of its hop, or makes one and the first request. */
  lemma SendWaits(s: State, p: Packet, hop: Addr, iface: string, now: int)
    requires Inv(s.queue)
    ensures var s' := Step(s, Send(p, hop, iface, now));
            if hop in s.known then s' == s.(out := s.out + [Sent(p)])
            else
              && Waits(s', hop) && s'.known == s.known
              && if Waits(s, hop)
                 then s'.out == s.out
                      && WaitingFor(s', hop) == WaitingFor(s, hop).(packets := WaitingFor(s, hop).packets + [p])
                 else s'.out == s.out + [Request(hop)] && s'.queue == s.queue + [Entry(hop, iface, 1, now, [p])]
    ensures forall other :: other != hop && Waits(s, other) ==>
              Waits(Step(s, Send(p, hop, iface, now)), other) &&
              WaitingFor(Step(s, Send(p, hop, iface, now)), other) == WaitingFor(s, other)
  {
    var s', k := Step(s, Send(p, hop, iface, now)), Find(s.queue, hop);
    SendIpKeepsInv(s, p, hop, iface, now);
    if hop !in s.known {
      FoundAt(s', hop, k);
    }
    forall other | other != hop && Waits(s, other)
      ensures Waits(s', other) && WaitingFor(s', other) == WaitingFor(s, other)
    {
      FoundAt(s', other, Find(s.queue, other));
    }
  }

  /** A reply makes the address known; nothing waits for it then. */
  lemma ReplyKnows(s: State, hop: Addr)
    requires Inv(s.queue)
    ensures var s' := Step(s, Reply(hop)); s'.known == s.known + {hop} && !Waits(s', hop)
  {
    ReplyServesEntry(s.(known := s.known + {hop}), hop);
    RepliedKeepsInv(s.(known := s.known + {hop}), hop, 0);
  }

  /** Draining another entry does not ask for a hop that something waits for. */
  lemma {:induction false} DrainedAsksNot(env: Env, s: State, k: nat, now: int, hop: Addr)
    requires k < |s.queue| && Waits(s, hop)
    ensures Requests(Drained(env, s, k, now).out, hop) == Requests(s.out, hop)
    decreases Burden(env, s.queue[k].packets)
  {
    if s.queue[k].packets != [] {
      DrainOneShrinks(env, s, k, now);
      DrainOneAsksNot(env, s, k, now, hop);
      DrainedAsksNot(env, DrainOne(env, s, k, now), k, now, hop);
    }
  }

  lemma DrainOneAsksNot(env: Env, s: State, k: nat, now: int, hop: Addr)
    requires k < |s.queue| && s.queue[k].packets != [] && Waits(s, hop)
    ensures var s' := DrainOne(env, s, k, now); Waits(s', hop) && Requests(s'.out, hop) == Requests(s.out, hop)
  {
    var p := s.queue[k].packets[0];
    var t := if Erring(env, p) then ErrorSent(env, s, p, now) else s;
    if Answered(env, p) {
      var e, back := ErrorFor(env, p), env.routes[p.src].nextHop;
      if back in s.known {
        RequestsNext(s.out, Sent(e), hop);
      } else {
        RequestsNext(s.out, Request(back), hop);
      }
    }
    RequestsNext(t.out, GivenUp(p, Answer(env, p)), hop);
    var j := Find(s.queue, hop);
    assert DrainOne(env, s, k, now).queue[j].nextHop == hop;
  }

  /** A visit to the entry of another hop does not ask for this one. */
  lemma VisitAsksNot(env: Env, s: State, k: nat, now: int, hop: Addr)
    requires Inv(s.queue) && k < |s.queue| && s.queue[k].nextHop != hop && Waits(s, hop)
    ensures var s' := Visit(env, s, k, now); Waits(s', hop) && Requests(s'.out, hop) == Requests(s.out, hop)
  {
    var j := Find(s.queue, hop);
    VisitOthers(env, s, k, now, j);
    if Ripe(s.queue[k], now) {
      DrainedAsksNot(env, s, k, now, hop);
    } else if Due(s.queue[k], now) {
      RequestsNext(s.out, Request(s.queue[k].nextHop), hop);
    }
  }

  /** Once the walk has passed the entry it does not ask for its hop again. */
  lemma {:induction false} WalkedAsksNot(env: Env, s: State, k: nat, now: int, j: nat)
    requires Inv(s.queue) && j < k <= |s.queue|
    ensures Requests(Walked(env, s, k, now).out, s.queue[j].nextHop) == Requests(s.out, s.queue[j].nextHop)
    decreases if k < |s.queue| then Ripes(s.queue[k..], now) else 0, |s.queue| - k
  {
    if k < |s.queue| {
      var hop := s.queue[j].nextHop;
      FoundAt(s, hop, j);
      VisitAdvances(env, s, k, now);
      VisitAsksNot(env, s, k, now, hop);
      VisitOthers(env, s, k, now, j);
      VisitKeepsInv(env, s, k, now);
      if k + 1 < |s.queue| {
        WalkedAsksNot(env, Visit(env, s, k, now), if Ripe(s.queue[k], now) then k else k + 1, now, j);
      }
    }
  }

  lemma AskedHere(env: Env, s: State, k: nat, now: int)
    requires Inv(s.queue) && k < |s.queue| && !Ripe(s.queue[k], now)
    ensures var hop := s.queue[k].nextHop;
            Requests(Walked(env, s, k, now).out, hop) == Requests(s.out, hop) + Once(Due(s.queue[k], now))
  {
    var t, hop := Visit(env, s, k, now), s.queue[k].nextHop;
    VisitAdvances(env, s, k, now);
    VisitKeepsInv(env, s, k, now);
    RequestsNext(s.out, Request(hop), hop);
    if k + 1 < |s.queue| {
      WalkedAsksNot(env, t, k + 1, now, k);
    }
  }

  /** The walk asks once for the hop of each entry that is due and not given up, and not otherwise. */
  lemma {:induction false} WalkedAsksOnce(env: Env, s: State, k: nat, now: int, j: nat)
    requires Inv(s.queue) && k <= j < |s.queue| && !Ripe(s.queue[j], now)
    ensures var hop := s.queue[j].nextHop;
            Requests(Walked(env, s, k, now).out, hop) == Requests(s.out, hop) + Once(Due(s.queue[j], now))
    decreases Ripes(s.queue[k..], now), |s.queue| - k
  {
    if j == k {
      AskedHere(env, s, k, now);
    } else {
      var t, next := Visit(env, s, k, now), if Ripe(s.queue[k], now) then k else k + 1;
      var i, hop := if Ripe(s.queue[k], now) then j - 1 else j, s.queue[j].nextHop;
      FoundAt(s, hop, j);
      VisitAdvances(env, s, k, now);
      VisitOthers(env, s, k, now, j);
      VisitAsksNot(env, s, k, now, hop);
      VisitKeepsInv(env, s, k, now);
      WalkedAsksOnce(env, t, next, now, i);
      assert Walked(env, s, k, now) == Walked(env, t, next, now);
    }
  }

  /**
   What a walk does about a hop that something waits for: nothing within a second of the last
   request; after that it asks once more, until five requests were made; then it gives all
   packets up.
   */
  lemma TickAsks(s: State, env: Env, now: int, hop: Addr)
    requires Inv(s.queue) && Waits(s, hop)
    ensures var s', e := Step(s, Tick(env, now)), WaitingFor(s, hop);
            if now <= e.last + 1 then
              && Waits(s', hop) && WaitingFor(s', hop) == e.(packets := WaitingFor(s', hop).packets)
              && e.packets <= WaitingFor(s', hop).packets && Requests(s'.out, hop) == Requests(s.out, hop)
            else if e.requests < 5 then
              && Waits(s', hop) && e.packets <= WaitingFor(s', hop).packets
              && WaitingFor(s', hop) ==
                 e.(packets := WaitingFor(s', hop).packets, requests := e.requests + 1, last := now)
              && Requests(s'.out, hop) == Requests(s.out, hop) + 1
            else Left(e.packets, s.out, s'.out)
  {
    TickServes(s, env, now, hop);
    if !Ripe(WaitingFor(s, hop), now) {
      WalkedAsksOnce(env, s, 0, now, Find(s.queue, hop));
    }
  }

  /**
   A packet given up is answered exactly if it is no ICMP message but an echo, comes from none
   of our addresses, and there is a route back; then with host unreachable, from the address of
   the interface towards its sender.
   */
  predicate AnsweredRight(env: Env, o: Output) {
    o.GivenUp? ==>
      o.error == if (o.p.proto != 1 || o.p.icmpType == 0 || o.p.icmpType == 8) && o.p.src !in env.own
                    && o.p.src in env.routes
                 then Some(Packet(o.p.id, env.routes[o.p.src].ip, 1, 3)) else None
  }

  /** From the `n`-th output on all answers are right. */
  ghost predicate RightFrom(env: Env, out: seq<Output>, n: nat) {
    forall i :: n <= i < |out| ==> AnsweredRight(env, out[i])
  }

  lemma DrainOneAnswers(env: Env, s: State, k: nat, now: int, n: nat)
    requires k < |s.queue| && s.queue[k].packets != [] && RightFrom(env, s.out, n)
    ensures RightFrom(env, DrainOne(env, s, k, now).out, n)
  {
    assert AnsweredRight(env, GivenUp(s.queue[k].packets[0], Answer(env, s.queue[k].packets[0])));
  }

  lemma {:induction false} DrainedAnswers(env: Env, s: State, k: nat, now: int, n: nat)
    requires k < |s.queue| && RightFrom(env, s.out, n)
    ensures RightFrom(env, Drained(env, s, k, now).out, n)
    decreases Burden(env, s.queue[k].packets)
  {
    if s.queue[k].packets != [] {
      DrainOneShrinks(env, s, k, now);
      DrainOneAnswers(env, s, k, now, n);
      DrainedAnswers(env, DrainOne(env, s, k, now), k, now, n);
    }
  }

  lemma {:induction false} WalkedAnswers(env: Env, s: State, k: nat, now: int, n: nat)
    requires k <= |s.queue| && RightFrom(env, s.out, n)
    ensures RightFrom(env, Walked(env, s, k, now).out, n)
    decreases if k < |s.queue| then Ripes(s.queue[k..], now) else 0, |s.queue| - k
  {
    if k < |s.queue| {
      VisitAdvances(env, s, k, now);
      DrainedAnswers(env, s, k, now, n);
      assert RightFrom(env, Visit(env, s, k, now).out, n);
      if k + 1 < |s.queue| {
        WalkedAnswers(env, Visit(env, s, k, now), if Ripe(s.queue[k], now) then k else k + 1, now, n);
      }
    }
  }

  /** So are all answers of a walk. */
  lemma TickAnswers(s: State, env: Env, now: int)
    requires Inv(s.queue)
    ensures s.out <= Step(s, Tick(env, now)).out && RightFrom(env, Step(s, Tick(env, now)).out, |s.out|)
  {
    WalkedSends(env, s, 0, now);
    WalkedAnswers(env, s, 0, now, |s.out|);
  }

  /** The packets given up, in the order they were. */
  function GivenUps(out: seq<Output>): seq<Packet> {
    if out == [] then []
    else
      var o := out[|out| - 1];
      GivenUps(out[..|out| - 1]) + if o.GivenUp? then [o.p] else []
  }

  lemma GivenUpsNext(out: seq<Output>, o: Output)
    ensures GivenUps(out + [o]) == GivenUps(out) + if o.GivenUp? then [o.p] else []
  {
    assert (out + [o])[..|out|] == out;
  }

  lemma DrainOneGivesUp(env: Env, s: State, k: nat, now: int)
    requires k < |s.queue| && s.queue[k].packets != []
    ensures var ps, s' := s.queue[k].packets, DrainOne(env, s, k, now);
            GivenUps(s'.out) == GivenUps(s.out) + [ps[0]] && ps[1..] <= s'.queue[k].packets
  {
    var p := s.queue[k].packets[0];
    var t := if Erring(env, p) then ErrorSent(env, s, p, now) else s;
    if Answered(env, p) {
      var back := env.routes[p.src].nextHop;
      GivenUpsNext(s.out, if back in s.known then Sent(ErrorFor(env, p)) else Request(back));
    }
    GivenUpsNext(t.out, GivenUp(p, Answer(env, p)));
  }

  /** An entry that is given up gives its packets up in the order they came, and then errors that joined them. */
  lemma {:induction false} DrainedInOrder(env: Env, s: State, k: nat, now: int)
    requires k < |s.queue|
    ensures GivenUps(s.out) + s.queue[k].packets <= GivenUps(Drained(env, s, k, now).out)
    decreases Burden(env, s.queue[k].packets)
  {
    var ps := s.queue[k].packets;
    if ps == [] {
      assert GivenUps(s.out) + [] == GivenUps(s.out);
    } else {
      var s' := DrainOne(env, s, k, now);
      DrainOneShrinks(env, s, k, now);
      DrainOneGivesUp(env, s, k, now);
      DrainedInOrder(env, s', k, now);
      assert GivenUps(s.out) + ps == GivenUps(s'.out) + ps[1..];
    }
  }

  /** An error goes the way of its sender: at once if the next hop there is known, or it waits for that. */
  lemma ErrorGoesBack(env: Env, s: State, k: nat, now: int)
    requires Inv(s.queue) && k < |s.queue| && s.queue[k].packets != []
    requires Answer(env, s.queue[k].packets[0]).Some?
    ensures var p, s' := s.queue[k].packets[0], DrainOne(env, s, k, now);
            var e, hop := Answer(env, p).value, env.routes[p.src].nextHop;
            if hop in s.known then s'.out == s.out + [Sent(e), GivenUp(p, Some(e))]
            else Waits(s', hop) && WaitingFor(s', hop).packets != [] &&
                 WaitingFor(s', hop).packets[|WaitingFor(s', hop).packets| - 1] == e
  {
    var p := s.queue[k].packets[0];
    var e, hop := ErrorFor(env, p), env.routes[p.src].nextHop;
    var t := IpSent(s, e, hop, env.routes[p.src].iface, now);
    SendIpKeepsInv(s, e, hop, env.routes[p.src].iface, now);
    if hop in s.known {
      assert s.out + [Sent(e)] + [GivenUp(p, Some(e))] == s.out + [Sent(e), GivenUp(p, Some(e))];
    } else {
      var j := Find(s.queue, hop);
      FoundAt(t, hop, j);
      var s' := DrainOne(env, s, k, now);
      assert s'.queue[j].nextHop == hop;
      assert Inv(s'.queue);
      FoundAt(s', hop, j);
    }
  }

  /** The walk that began with `start` has come to entry `k`, if there is more to do. */
  ghost predicate Walking(env: Env, start: State, s: State, k: nat, more: bool, now: int) {
    if more then k < |s.queue| && Walked(env, s, k, now) == Walked(env, start, 0, now)
    else s == Walked(env, start, 0, now)
  }

  /** The entries from `k` on that this walk gives up. */
  function RipeFrom(s: State, k: nat, now: int): nat {
    if k < |s.queue| then Ripes(s.queue[k..], now) else 0
  }

  /** Less is left of the walk. */
  predicate Nearer(s': State, k': nat, s: State, k: nat, now: int) {
    || RipeFrom(s', k', now) < RipeFrom(s, k, now)
    || (RipeFrom(s', k', now) == RipeFrom(s, k, now) && |s'.queue| - k' < |s.queue| - k)
  }

  lemma WalkingNext(env: Env, start: State, s: State, k: nat, now: int)
    requires Walking(env, start, s, k, true, now)
    ensures var s', k' := Visit(env, s, k, now), if Ripe(s.queue[k], now) then k else k + 1;
            && Walking(env, start, s', k', k + 1 < |s.queue|, now)
            && (k + 1 < |s.queue| ==> Nearer(s', k', s, k, now))
  {
    VisitAdvances(env, s, k, now);
  }

  // ----- the queue itself

  class QueueEntry {
    const nextHop: Addr
    const iface: string
    var requests: nat
    var last: int
    var packets: seq<Packet>

    constructor (nextHop: Addr, iface: string, now: int)
      ensures Value() == Entry(nextHop, iface, 1, now, [])
    {
      this.nextHop, this.iface := nextHop, iface;
      requests, last, packets := 1, now, [];
    }

    function Value(): Entry
      reads this
    {
      Entry(nextHop, iface, requests, last, packets)
    }
  }

  ghost function Values(es: seq<QueueEntry>): (vs: seq<Entry>)
    reads es
    ensures |vs| == |es|
  {
    seq(|es|, i requires 0 <= i < |es| reads es => es[i].Value())
  }

  ghost predicate NoAlias(es: seq<QueueEntry>) {
    forall i, j :: 0 <= i < j < |es| ==> es[i] != es[j]
  }

  class Queue {
    var queue: seq<QueueEntry>
    var known: set<Addr>
    var out: seq<Output>

    ghost function Abs(): State
      reads this, queue
    {
      State(Values(queue), known, out)
    }

    /** Entries are distinct objects; an operation keeps those it found in their places. */
    ghost predicate Valid()
      reads this
    {
      NoAlias(queue)
    }

    constructor ()
      ensures Valid() && Abs() == State([], {}, [])
    {
      queue, known, out := [], {}, [];
    }

    method GetFromArpQueue(hop: Addr) returns (k: nat)
      ensures k == Find(Values(queue), hop)
    {
      k := 0;
      while k < |queue| && queue[k].nextHop != hop
        invariant k <= |queue| && forall i :: 0 <= i < k ==> queue[i].nextHop != hop
      {
        k := k + 1;
      }
      ghost var found := Find(Values(queue), hop);
      assert found < |queue| ==> Values(queue)[found].nextHop == hop;
      assert k < |queue| ==> Values(queue)[k].nextHop == hop;
    }

    method ArpQueueAdd(p: Packet, hop: Addr, iface: string, now: int)
      requires Valid()
      modifies this, queue
      ensures Valid() && Abs() == Enqueued(old(Abs()), p, hop, iface, now)
      ensures old(queue) <= queue && forall i :: 0 <= i < |queue| ==> queue[i] in old(queue) || fresh(queue[i])
    {
      var k := GetFromArpQueue(hop);
      ghost var vs := Values(queue);
      if k < |queue| {
        queue[k].packets := queue[k].packets + [p];
        assert Values(queue) == vs[k := Push(vs[k], p)];
      } else {
        var e := new QueueEntry(hop, iface, now);
        out := out + [Request(hop)];
        e.packets := e.packets + [p];
        queue := queue + [e];
        assert e.packets == [p];
        assert Values(queue) == vs + [Entry(hop, iface, 1, now, [p])];
      }
    }

    method SendIp(p: Packet, hop: Addr, iface: string, now: int)
      requires Valid()
      modifies this, queue
      ensures Valid() && Abs() == IpSent(old(Abs()), p, hop, iface, now)
      ensures old(queue) <= queue && forall i :: 0 <= i < |queue| ==> queue[i] in old(queue) || fresh(queue[i])
    {
      if hop in known {
        out := out + [Sent(p)];
      } else {
        ArpQueueAdd(p, hop, iface, now);
      }
    }

    method SendError(env: Env, p: Packet, now: int)
      requires Valid()
      modifies this, queue
      ensures Valid() && Abs() == ErrorSent(env, old(Abs()), p, now)
      ensures old(queue) <= queue && forall i :: 0 <= i < |queue| ==> queue[i] in old(queue) || fresh(queue[i])
    {
      if p.src in env.routes {
        var hop := env.routes[p.src];
        SendIp(Packet(p.id, hop.ip, ICMP, DESTINATION_UNREACHABLE), hop.nextHop, hop.iface, now);
      }
    }

    /** One turn of the drain. The error may be queued on the very entry that is drained. */
    method DrainHead(env: Env, aqe: QueueEntry, ghost k: nat, now: int)
      requires Valid() && k < |queue| && queue[k] == aqe && aqe.packets != []
      modifies this, queue
      ensures Valid() && Abs() == DrainOne(env, old(Abs()), k, now)
      ensures old(queue) <= queue && forall i :: 0 <= i < |queue| ==> queue[i] in old(queue) || fresh(queue[i])
    {
      ghost var s := Abs();
      assert s.queue[k] == aqe.Value();
      var p := aqe.packets[0];
      if (p.proto != ICMP || p.icmpType == ECHO_REPLY || p.icmpType == ECHO_REQUEST) && p.src !in env.own {
        SendError(env, p, now);
      }
      assert Grows(s.queue, Abs().queue, now) && Abs().queue[k] == aqe.Value();
      TakeHead(aqe, k, Answer(env, p));
    }

    /** The first packet of an entry leaves. */
    method TakeHead(aqe: QueueEntry, ghost k: nat, answer: Option<Packet>)
      requires Valid() && k < |queue| && queue[k] == aqe && aqe.packets != []
      modifies this`out, aqe`packets
      ensures Valid()
      ensures var was := old(Abs());
              Abs() == State(was.queue[k := was.queue[k].(packets := was.queue[k].packets[1..])], was.known,
                             was.out + [GivenUp(was.queue[k].packets[0], answer)])
    {
      ghost var was := Values(queue);
      out := out + [GivenUp(aqe.packets[0], answer)];
      aqe.packets := aqe.packets[1..];
      assert Values(queue) == was[k := was[k].(packets := was[k].packets[1..])];
    }

    /** Drains an entry; the loop ends although errors may join the entry meanwhile. */
    method Drain(env: Env, aqe: QueueEntry, ghost k: nat, now: int)
      requires Valid() && k < |queue| && queue[k] == aqe
      modifies this, queue
      ensures Valid() && k < |old(queue)| && Abs() == Drained(env, old(Abs()), k, now)
      ensures old(queue) <= queue && forall i :: 0 <= i < |queue| ==> queue[i] in old(queue) || fresh(queue[i])
    {
      ghost var s := Abs();
      while aqe.packets != []
        invariant Valid() && k < |queue| && queue[k] == aqe && Drained(env, Abs(), k, now) == Drained(env, s, k, now)
        invariant old(queue) <= queue && forall i :: 0 <= i < |queue| ==> queue[i] in old(queue) || fresh(queue[i])
        decreases Burden(env, aqe.packets)
      {
        assert Abs().queue[k] == aqe.Value();
        DrainOneShrinks(env, Abs(), k, now);
        ghost var before := Abs();
        DrainHead(env, aqe, k, now);
        assert Abs().queue[k] == aqe.Value();
      }
      assert Abs().queue[k] == aqe.Value();
    }

    /** Removes an entry from the list. */
    method RemoveEntry(k: nat)
      requires Valid() && k < |queue|
      modifies this`queue
      ensures Valid() && queue == old(queue[..k] + queue[k + 1..]) && Values(queue) == Without(old(Values(queue)), k)
    {
      queue := queue[..k] + queue[k + 1..];
    }

    /** What the periodic walk does with one entry. */
    method VisitEntry(env: Env, k: nat, now: int) returns (removed: bool)
      requires Valid() && k < |queue|
      modifies this, queue
      ensures Valid() && Abs() == Visit(env, old(Abs()), k, now) && removed == Ripe(old(Abs().queue[k]), now)
      ensures forall i :: 0 <= i < |queue| ==> queue[i] in old(queue) || fresh(queue[i])
    {
      var aqe := queue[k];
      ghost var s := Abs();
      assert s.queue[k] == aqe.Value();
      removed := false;
      if now - aqe.last > 1 {
        if aqe.requests < MAX_REQUESTS {
          aqe.last := now;
          aqe.requests := aqe.requests + 1;
          out := out + [Request(aqe.nextHop)];
          assert Values(queue) == AskAgain(s, k, now).queue;
        } else {
          Drain(env, aqe, k, now);
          RemoveEntry(k);
          removed := true;
        }
      }
    }

    /** The periodic walk: asks again, or gives up after five requests. */
    method ProcessArpQueue(env: Env, now: int)
      requires Valid()
      modifies this, queue
      ensures Valid() && Abs() == Walked(env, old(Abs()), 0, now)
    {
      ghost var s := Abs();
      var k := 0;
      var more := |queue| > 0;
      while more
        invariant Valid() && forall i :: 0 <= i < |queue| ==> queue[i] in old(queue) || fresh(queue[i])
        invariant 0 <= k && Walking(env, s, Abs(), k, more, now)
        decreases more, RipeFrom(Abs(), k, now), |Abs().queue| - k
      {
        more, k := WalkOn(env, k, now, s);
      }
    }

    /** One turn of the walk: the successor is fixed before the entry is dealt with. */
    method WalkOn(env: Env, k: nat, now: int, ghost s: State) returns (more: bool, k': nat)
      requires Valid() && Walking(env, s, Abs(), k, true, now)
      modifies this, queue
      ensures Valid() && Walking(env, s, Abs(), k', more, now)
      ensures more ==> Nearer(Abs(), k', old(Abs()), k, now)
      ensures forall i :: 0 <= i < |queue| ==> queue[i] in old(queue) || fresh(queue[i])
    {
      WalkingNext(env, s, Abs(), k, now);
      more := k + 1 < |queue|;
      var removed := VisitEntry(env, k, now);
      k' := if removed then k else k + 1;
    }

    /** A reply came: the address is known, and the packets that wait for it are sent. */
    method ProcessArpReply(hop: Addr)
      requires Valid()
      modifies this, queue
      ensures Valid() && Abs() == Replied(old(Abs()).(known := old(known) + {hop}), hop, 0)
    {
      known := known + {hop};
      ghost var s := Abs();
      var k := 0;
      while k < |queue|
        invariant Valid() && k <= |queue| && forall i :: 0 <= i < |queue| ==> queue[i] in old(queue)
        invariant hop in known && Replied(Abs(), hop, k) == Replied(s, hop, 0)
        decreases |queue| - k
      {
        assert Abs().queue[k].nextHop == queue[k].nextHop;
        if queue[k].nextHop == hop {
          ServeEntry(k, hop);
        } else {
          k := k + 1;
        }
      }
    }

    /** Sends what waits in one entry and removes the entry. */
    method ServeEntry(k: nat, hop: Addr)
      requires Valid() && k < |queue| && hop in known
      modifies this, queue
      ensures Valid() && queue == old(queue[..k] + queue[k + 1..])
      ensures var s := old(Abs());
              Abs() == State(Without(s.queue, k), s.known, s.out + SentAll(s.queue[k].packets))
    {
      ghost var vs := Values(queue);
      assert vs[k] == queue[k].Value();
      SendQueued(queue[k], hop);
      assert Values(queue) == vs[k := vs[k].(packets := [])];
      RemoveEntry(k);
      assert Without(vs[k := vs[k].(packets := [])], k) == Without(vs, k);
    }

    /** Sends the packets of one entry. */
    method SendQueued(aqe: QueueEntry, hop: Addr)
      requires hop in known
      modifies this`out, aqe`packets
      ensures out == old(out) + SentAll(old(aqe.packets)) && aqe.packets == []
    {
      ghost var all := aqe.packets;
      while aqe.packets != []
        invariant out + SentAll(aqe.packets) == old(out) + SentAll(all)
        decreases |aqe.packets|
      {
        SentAllNext(out, aqe.packets);
        out := out + [Sent(aqe.packets[0])];
        aqe.packets := aqe.packets[1..];
      }
    }
  }
}
