/**
 Hello processing and neighbour timeouts (process_pwospf_hello_packet and
 determine_timedout_interface in or_pwospf.c): how our own entry in the router list
 follows the neighbours heard on each interface.
 */
module Neighbors {
  import opened PwospfTypes
  import opened Selection

  /** A neighbour heard on an interface. */
  datatype Nbr = Nbr(rid: RouterId, ip: Addr, lastHello: int)

  /** A physical interface and its neighbours. */
  datatype Port = Port(ip: Addr, mask: Addr, nbrs: seq<Nbr>)

  // ----- our own entry, seen from one subnet

  predicate OnSubnet(i: Iface, net: Addr, mask: Addr) {
    i.subnet == net && i.mask == mask
  }

  /** The router ids our own entry lists for a subnet. */
  function Rids(own: seq<Iface>, net: Addr, mask: Addr): multiset<RouterId> {
    if own == [] then multiset{}
    else (if OnSubnet(own[0], net, mask) then multiset{own[0].rid} else multiset{}) + Rids(own[1..], net, mask)
  }

  function NbrRids(nbrs: seq<Nbr>): (m: multiset<RouterId>)
    ensures |m| == |nbrs|
  {
    if nbrs == [] then multiset{} else multiset{nbrs[0].rid} + NbrRids(nbrs[1..])
  }

  /**
   The entry mirrors the neighbours of a subnet: one entry a neighbour, and a single blank
   one when there is none.
   */
  ghost predicate Mirrors(own: seq<Iface>, net: Addr, mask: Addr, nbrs: seq<Nbr>) {
    && Rids(own, net, mask) == (if nbrs == [] then multiset{BLANK} else NbrRids(nbrs))
    && BLANK !in NbrRids(nbrs)
  }

  lemma {:induction false} RidsConcat(a: seq<Iface>, b: seq<Iface>, net: Addr, mask: Addr)
    ensures Rids(a + b, net, mask) == Rids(a, net, mask) + Rids(b, net, mask)
  {
    if a == [] {
      assert a + b == b;
    } else {
      assert (a + b)[1..] == a[1..] + b;
      RidsConcat(a[1..], b, net, mask);
    }
  }

  lemma RidsAt(own: seq<Iface>, k: nat, net: Addr, mask: Addr)
    requires k < |own|
    ensures Rids(own, net, mask) ==
            Rids(own[..k], net, mask) + Rids([own[k]], net, mask) + Rids(own[k + 1..], net, mask)
  {
    assert own == own[..k] + ([own[k]] + own[k + 1..]);
    RidsConcat(own[..k], [own[k]] + own[k + 1..], net, mask);
    RidsConcat([own[k]], own[k + 1..], net, mask);
  }

  lemma RidsRename(own: seq<Iface>, k: nat, rid: RouterId, net: Addr, mask: Addr)
    requires k < |own|
    ensures Rids(own[k := own[k].(rid := rid)], net, mask) ==
            if OnSubnet(own[k], net, mask) then Rids(own, net, mask) - multiset{own[k].rid} + multiset{rid}
            else Rids(own, net, mask)
  {
    var own' := own[k := own[k].(rid := rid)];
    RidsAt(own, k, net, mask);
    RidsAt(own', k, net, mask);
    assert own'[..k] == own[..k] && own'[k + 1..] == own[k + 1..];
  }

  lemma RidsRemove(own: seq<Iface>, k: nat, net: Addr, mask: Addr)
    requires k < |own|
    ensures Rids(own[..k] + own[k + 1..], net, mask) ==
            if OnSubnet(own[k], net, mask) then Rids(own, net, mask) - multiset{own[k].rid}
            else Rids(own, net, mask)
  {
    RidsAt(own, k, net, mask);
    RidsConcat(own[..k], own[k + 1..], net, mask);
  }

  lemma {:induction false} NbrRidsConcat(a: seq<Nbr>, b: seq<Nbr>)
    ensures NbrRids(a + b) == NbrRids(a) + NbrRids(b)
  {
    if a == [] {
      assert a + b == b;
    } else {
      assert (a + b)[1..] == a[1..] + b;
      NbrRidsConcat(a[1..], b);
    }
  }

  // ----- a new neighbour

  /** The first entry of the subnet that names `rid`, or the length of the list. */
  function FindRid(own: seq<Iface>, net: Addr, mask: Addr, rid: RouterId): (k: nat)
    ensures k <= |own|
    ensures k < |own| ==> OnSubnet(own[k], net, mask) && own[k].rid == rid
    ensures k < |own| <==> rid in Rids(own, net, mask)
    ensures forall j :: 0 <= j < k ==> !(OnSubnet(own[j], net, mask) && own[j].rid == rid)
  {
    if own == [] then 0
    else if OnSubnet(own[0], net, mask) && own[0].rid == rid then 0
    else 1 + FindRid(own[1..], net, mask, rid)
  }

  /** A new neighbour takes the blank entry of the subnet, or a new entry. */
  function AddNeighbor(own: seq<Iface>, net: Addr, mask: Addr, rid: RouterId): seq<Iface> {
    var k := FindRid(own, net, mask, BLANK);
    if k < |own| then own[k := own[k].(rid := rid)] else own + [Iface(net, mask, rid, false)]
  }

  lemma AddNeighborRids(own: seq<Iface>, net: Addr, mask: Addr, rid: RouterId, net2: Addr, mask2: Addr)
    ensures Rids(AddNeighbor(own, net, mask, rid), net2, mask2) ==
            if net2 == net && mask2 == mask then Rids(own, net, mask) - multiset{BLANK} + multiset{rid}
            else Rids(own, net2, mask2)
  {
    var k := FindRid(own, net, mask, BLANK);
    if k < |own| {
      RidsRename(own, k, rid, net2, mask2);
    } else {
      RidsConcat(own, [Iface(net, mask, rid, false)], net2, mask2);
    }
  }

  lemma AddNeighborMirrors(own: seq<Iface>, net: Addr, mask: Addr, nbrs: seq<Nbr>, n: Nbr)
    requires Mirrors(own, net, mask, nbrs) && n.rid != BLANK
    ensures Mirrors(AddNeighbor(own, net, mask, n.rid), net, mask, nbrs + [n])
  {
    AddNeighborRids(own, net, mask, n.rid, net, mask);
    NbrRidsConcat(nbrs, [n]);
  }

  // ----- a neighbour that timed out

  /** The first entry of the subnet, or the length of the list. */
  function FindSubnet(own: seq<Iface>, net: Addr, mask: Addr): (k: nat)
    ensures k <= |own|
    ensures k < |own| ==> OnSubnet(own[k], net, mask)
    ensures k < |own| <==> Rids(own, net, mask) != multiset{}
    ensures forall j :: 0 <= j < k ==> !OnSubnet(own[j], net, mask)
  {
    if own == [] then 0
    else if OnSubnet(own[0], net, mask) then 0
    else 1 + FindSubnet(own[1..], net, mask)
  }

  /** The last entry of a subnet is blanked; one of several is removed. */
  function DropNeighbor(own: seq<Iface>, net: Addr, mask: Addr, rid: RouterId): seq<Iface> {
    if |Rids(own, net, mask)| == 1 then
      var k := FindSubnet(own, net, mask);
      own[k := own[k].(rid := BLANK)]
    else
      var k := FindRid(own, net, mask, rid);
      if k < |own| then own[..k] + own[k + 1..] else own
  }

  lemma Singleton(m: multiset<RouterId>, x: RouterId)
    requires |m| == 1 && x in m
    ensures m == multiset{x}
  {
    assert m == multiset{x} + (m - multiset{x});
  }

  lemma DropNeighborRids(own: seq<Iface>, net: Addr, mask: Addr, rid: RouterId, net2: Addr, mask2: Addr)
    ensures Rids(DropNeighbor(own, net, mask, rid), net2, mask2) ==
            if net2 != net || mask2 != mask then Rids(own, net2, mask2)
            else if |Rids(own, net, mask)| == 1 then multiset{BLANK}
            else Rids(own, net, mask) - multiset{rid}
  {
    if |Rids(own, net, mask)| == 1 {
      var k := FindSubnet(own, net, mask);
      RidsRename(own, k, BLANK, net2, mask2);
      if net2 == net && mask2 == mask {
        RidsAt(own, k, net, mask);
        Singleton(Rids(own, net, mask), own[k].rid);
      }
    } else {
      var k := FindRid(own, net, mask, rid);
      if k < |own| {
        RidsRemove(own, k, net2, mask2);
      }
    }
  }

  lemma NbrRidsWithout(before: seq<Nbr>, n: Nbr, after: seq<Nbr>)
    ensures NbrRids(before + [n] + after) == NbrRids(before + after) + multiset{n.rid}
  {
    NbrRidsConcat(before + [n], after);
    NbrRidsConcat(before, [n]);
    NbrRidsConcat(before, after);
  }

  lemma DropNeighborMirrors(own: seq<Iface>, net: Addr, mask: Addr, before: seq<Nbr>, n: Nbr, after: seq<Nbr>)
    requires Mirrors(own, net, mask, before + [n] + after)
    ensures Mirrors(DropNeighbor(own, net, mask, n.rid), net, mask, before + after)
  {
    var all, left := before + [n] + after, before + after;
    DropNeighborRids(own, net, mask, n.rid, net, mask);
    NbrRidsWithout(before, n, after);
    assert Rids(own, net, mask) == NbrRids(all) && |all| == |left| + 1;
    if left == [] {
      assert |Rids(own, net, mask)| == 1;
    } else {
      assert Rids(own, net, mask) - multiset{n.rid} == NbrRids(left);
    }
  }

  /** One pass over the neighbours of an interface; `due` tells which have been silent too long. */
  function Sweep(own: seq<Iface>, net: Addr, mask: Addr, nbrs: seq<Nbr>, due: seq<bool>): (seq<Iface>, seq<Nbr>)
    requires |due| == |nbrs|
    decreases |nbrs|
  {
    if nbrs == [] then (own, [])
    else if due[0] then Sweep(DropNeighbor(own, net, mask, nbrs[0].rid), net, mask, nbrs[1..], due[1..])
    else
      var (own', rest) := Sweep(own, net, mask, nbrs[1..], due[1..]);
      (own', [nbrs[0]] + rest)
  }

  lemma {:induction false} SweepMirrors(own: seq<Iface>, net: Addr, mask: Addr, kept: seq<Nbr>, nbrs: seq<Nbr>,
                                        due: seq<bool>)
    requires |due| == |nbrs| && Mirrors(own, net, mask, kept + nbrs)
    ensures var (own', nbrs') := Sweep(own, net, mask, nbrs, due);
            Mirrors(own', net, mask, kept + nbrs')
    decreases |nbrs|
  {
    if nbrs != [] {
      assert kept + nbrs == kept + [nbrs[0]] + nbrs[1..];
      if due[0] {
        DropNeighborMirrors(own, net, mask, kept, nbrs[0], nbrs[1..]);
        SweepMirrors(DropNeighbor(own, net, mask, nbrs[0].rid), net, mask, kept, nbrs[1..], due[1..]);
      } else {
        SweepMirrors(own, net, mask, kept + [nbrs[0]], nbrs[1..], due[1..]);
        var (own', rest) := Sweep(own, net, mask, nbrs[1..], due[1..]);
        assert kept + ([nbrs[0]] + rest) == kept + [nbrs[0]] + rest;
      }
    }
  }

  /** A sweep leaves the other subnets alone. */
  lemma {:induction false} SweepFrame(own: seq<Iface>, net: Addr, mask: Addr, nbrs: seq<Nbr>, due: seq<bool>,
                                      net2: Addr, mask2: Addr)
    requires |due| == |nbrs| && (net2 != net || mask2 != mask)
    ensures Rids(Sweep(own, net, mask, nbrs, due).0, net2, mask2) == Rids(own, net2, mask2)
    decreases |nbrs|
  {
    if nbrs != [] {
      if due[0] {
        DropNeighborRids(own, net, mask, nbrs[0].rid, net2, mask2);
        SweepFrame(DropNeighbor(own, net, mask, nbrs[0].rid), net, mask, nbrs[1..], due[1..], net2, mask2);
      } else {
        SweepFrame(own, net, mask, nbrs[1..], due[1..], net2, mask2);
      }
    }
  }

  /** A subnet that has an entry never loses its last one, whatever its neighbours are called. */
  lemma {:induction false} SweepKeepsAnEntry(own: seq<Iface>, net: Addr, mask: Addr, nbrs: seq<Nbr>, due: seq<bool>)
    requires |due| == |nbrs| && Rids(own, net, mask) != multiset{}
    ensures Rids(Sweep(own, net, mask, nbrs, due).0, net, mask) != multiset{}
    decreases |nbrs|
  {
    if nbrs != [] {
      if due[0] {
        var rest := DropNeighbor(own, net, mask, nbrs[0].rid);
        DropNeighborRids(own, net, mask, nbrs[0].rid, net, mask);
        SweepKeepsAnEntry(rest, net, mask, nbrs[1..], due[1..]);
      } else {
        SweepKeepsAnEntry(own, net, mask, nbrs[1..], due[1..]);
      }
    }
  }

  // ----- runs of hellos and timeouts

  datatype State = State(own: seq<Iface>, ports: seq<Port>)

  /** A hello heard on a port, or a sweep of a port that reads the clock once a neighbour. */
  datatype Event =
    | Hello(port: nat, hint: int, mask: Addr, src: Addr, rid: RouterId, now: int)
    | Timeout(port: nat, clock: nat -> int)

  /** The last neighbour with this address and identifier, or -1. */
  function FindNbr(nbrs: seq<Nbr>, src: Addr, rid: RouterId): (k: int)
    ensures -1 <= k < |nbrs| && (k >= 0 ==> nbrs[k].ip == src && nbrs[k].rid == rid)
    ensures forall j :: k < j < |nbrs| ==> !(nbrs[j].ip == src && nbrs[j].rid == rid)
  {
    if nbrs == [] then -1
    else
      var n := |nbrs| - 1;
      if nbrs[n].ip == src && nbrs[n].rid == rid then n else FindNbr(nbrs[..n], src, rid)
  }

  function HelloStep(own: seq<Iface>, p: Port, interval: int, hint: int, mask: Addr, src: Addr, rid: RouterId, now: int)
    : (seq<Iface>, seq<Nbr>)
  {
    if hint != interval || mask != p.mask then (own, p.nbrs)
    else
      var k := FindNbr(p.nbrs, src, rid);
      if k >= 0 then (own, p.nbrs[k := p.nbrs[k].(lastHello := now)])
      else (AddNeighbor(own, Net(p.ip, p.mask), p.mask, rid), p.nbrs + [Nbr(rid, src, now)])
  }

  function Due(nbrs: seq<Nbr>, interval: int, clock: nat -> int): (due: seq<bool>)
    ensures |due| == |nbrs|
  {
    seq(|nbrs|, i requires 0 <= i < |nbrs| => clock(i) - nbrs[i].lastHello > 3 * interval)
  }

  function TimeoutStep(own: seq<Iface>, p: Port, interval: int, clock: nat -> int): (seq<Iface>, seq<Nbr>) {
    Sweep(own, Net(p.ip, p.mask), p.mask, p.nbrs, Due(p.nbrs, interval, clock))
  }

  function Step(s: State, interval: int, e: Event): State {
    if e.port >= |s.ports| then s
    else
      var p := s.ports[e.port];
      var (own, nbrs) := match e
        case Hello(_, hint, mask, src, rid, now) => HelloStep(s.own, p, interval, hint, mask, src, rid, now)
        case Timeout(_, clock) => TimeoutStep(s.own, p, interval, clock);
      State(own, s.ports[e.port := p.(nbrs := nbrs)])
  }

  function Run(s: State, interval: int, events: seq<Event>): State
    decreases |events|
  {
    if events == [] then s else Run(Step(s, interval, events[0]), interval, events[1..])
  }

  // ----- who is heard

  /** A neighbour, and whether it is due. */
  function Zip(nbrs: seq<Nbr>, due: seq<bool>): seq<(Nbr, bool)>
    requires |due| == |nbrs|
  {
    seq(|nbrs|, i requires 0 <= i < |nbrs| => (nbrs[i], due[i]))
  }

  function Firsts(ws: seq<(Nbr, bool)>): seq<Nbr> {
    seq(|ws|, i requires 0 <= i < |ws| => ws[i].0)
  }

  ghost function NotDue(): ((Nbr, bool)) -> bool {
    (w: (Nbr, bool)) => !w.1
  }

  lemma {:induction false} SweepFilters(own: seq<Iface>, net: Addr, mask: Addr, nbrs: seq<Nbr>, due: seq<bool>)
    requires |due| == |nbrs|
    ensures Sweep(own, net, mask, nbrs, due).1 == Firsts(Filter(NotDue(), Zip(nbrs, due)))
    decreases |nbrs|
  {
    var ws := Zip(nbrs, due);
    if nbrs != [] {
      FilterFirst(NotDue(), ws);
      assert ws[1..] == Zip(nbrs[1..], due[1..]);
      if due[0] {
        SweepFilters(DropNeighbor(own, net, mask, nbrs[0].rid), net, mask, nbrs[1..], due[1..]);
      } else {
        SweepFilters(own, net, mask, nbrs[1..], due[1..]);
      }
    }
  }

  /** The neighbours that are left: in order, exactly those heard within three intervals of the reading for them. */
  ghost predicate LeftInTime(nbrs: seq<Nbr>, left: seq<Nbr>, interval: int, clock: nat -> int, from: seq<nat>) {
    && |from| == |left| && (forall a, b :: 0 <= a < b < |from| ==> from[a] < from[b])
    && (forall b :: 0 <= b < |from| ==> from[b] < |nbrs| && left[b] == nbrs[from[b]])
    && forall i :: 0 <= i < |nbrs| ==> (i in from <==> clock(i) - nbrs[i].lastHello <= 3 * interval)
  }

  /** A sweep leaves exactly those, and does not touch the other ports. */
  lemma SweepLeaves(s: State, interval: int, k: nat, clock: nat -> int) returns (from: seq<nat>)
    requires k < |s.ports|
    ensures var ports := Step(s, interval, Timeout(k, clock)).ports;
            && ports == s.ports[k := s.ports[k].(nbrs := ports[k].nbrs)]
            && LeftInTime(s.ports[k].nbrs, ports[k].nbrs, interval, clock, from)
  {
    var p := s.ports[k];
    var due := Due(p.nbrs, interval, clock);
    SweepFilters(s.own, Net(p.ip, p.mask), p.mask, p.nbrs, due);
    from := FilterIsDrawn(NotDue(), Zip(p.nbrs, due));
    forall i | 0 <= i < |p.nbrs| ensures i in from <==> clock(i) - p.nbrs[i].lastHello <= 3 * interval {
      assert NotDue()(Zip(p.nbrs, due)[i]) <==> !due[i];
      if i in from {
        var b :| 0 <= b < |from| && from[b] == i;
      }
    }
  }

  /** A hello with our interval and the mask of its port. */
  predicate Counts(ports: seq<Port>, interval: int, e: Event) {
    e.Hello? && e.port < |ports| && e.hint == interval && e.mask == ports[e.port].mask
  }

  /** The neighbour was last heard on the port at `t` or later. */
  ghost predicate HeardSince(s: State, k: nat, src: Addr, rid: RouterId, t: int) {
    k < |s.ports| && exists i :: 0 <= i < |s.ports[k].nbrs| && IsHeard(s.ports[k].nbrs[i], src, rid) &&
                                 s.ports[k].nbrs[i].lastHello >= t
  }

  predicate IsHeard(n: Nbr, src: Addr, rid: RouterId) {
    n.ip == src && n.rid == rid
  }

  /** It was not heard after `t`. */
  ghost predicate NotHeardAfter(s: State, k: nat, src: Addr, rid: RouterId, t: int) {
    k < |s.ports| && forall i :: 0 <= i < |s.ports[k].nbrs| && IsHeard(s.ports[k].nbrs[i], src, rid) ==>
                                 s.ports[k].nbrs[i].lastHello <= t
  }

  /** The port has no such neighbour. */
  ghost predicate Unheard(s: State, k: nat, src: Addr, rid: RouterId) {
    k < |s.ports| && forall i :: 0 <= i < |s.ports[k].nbrs| ==> !IsHeard(s.ports[k].nbrs[i], src, rid)
  }

  /** What a hello does to the neighbours: only its own entry, which is there afterwards with the time of the hello. */
  lemma HelloIsHeard(s: State, interval: int, e: Event)
    requires e.Hello?
    ensures !Counts(s.ports, interval, e) ==> Step(s, interval, e) == s
    ensures Counts(s.ports, interval, e) ==>
              var nbrs, now := s.ports[e.port].nbrs, Step(s, interval, e).ports[e.port].nbrs;
              && Step(s, interval, e).ports == s.ports[e.port := s.ports[e.port].(nbrs := now)]
              && if Unheard(s, e.port, e.src, e.rid) then now == nbrs + [Nbr(e.rid, e.src, e.now)]
                 else exists i :: 0 <= i < |nbrs| && IsHeard(nbrs[i], e.src, e.rid) &&
                                  now == nbrs[i := Nbr(e.rid, e.src, e.now)]
  {
    if e.port < |s.ports| {
      var p := s.ports[e.port];
      if Counts(s.ports, interval, e) {
        var i := FindNbr(p.nbrs, e.src, e.rid);
        if i >= 0 {
          assert IsHeard(p.nbrs[i], e.src, e.rid);
        }
      } else {
        assert p.(nbrs := p.nbrs) == p && s.ports[e.port := p] == s.ports;
      }
    }
  }

  /**
   No accepted hello of the neighbour on the port is older than `t`, and no sweep of the port
   reads the clock more than three intervals later.
   */
  ghost predicate KeepsHearing(ports: seq<Port>, interval: int, e: Event, k: nat, src: Addr, rid: RouterId, t: int) {
    && (Counts(ports, interval, e) && e.port == k && e.src == src && e.rid == rid ==> e.now >= t)
    && (e.Timeout? && e.port == k ==> forall i: nat :: e.clock(i) <= t + 3 * interval)
  }

  lemma StepHears(s: State, interval: int, e: Event, k: nat, src: Addr, rid: RouterId, t: int)
    requires HeardSince(s, k, src, rid, t) && KeepsHearing(s.ports, interval, e, k, src, rid, t)
    ensures HeardSince(Step(s, interval, e), k, src, rid, t)
  {
    var nbrs, nbrs' := s.ports[k].nbrs, Step(s, interval, e).ports[k].nbrs;
    var j :| 0 <= j < |nbrs| && IsHeard(nbrs[j], src, rid) && nbrs[j].lastHello >= t;
    if e.Hello? {
      HelloIsHeard(s, interval, e);
      if e.port == k && Counts(s.ports, interval, e) {
        assert IsHeard(nbrs'[j], src, rid) && nbrs'[j].lastHello >= t;
      }
    } else if e.port == k {
      var from := SweepLeaves(s, interval, k, e.clock);
      assert j in from;
      var b :| 0 <= b < |from| && from[b] == j;
      assert nbrs'[b] == nbrs[j];
    } else if e.port < |s.ports| {
      var from := SweepLeaves(s, interval, e.port, e.clock);
    }
  }

  /** The ports of a run keep their addresses and masks. */
  lemma StepKeepsPorts(s: State, interval: int, e: Event, f: Event)
    ensures |Step(s, interval, e).ports| == |s.ports|
    ensures Counts(Step(s, interval, e).ports, interval, f) <==> Counts(s.ports, interval, f)
  {
  }

  /**
   A neighbour heard at `t` or later stays one through every run whose sweeps of its port read
   the clock within three intervals of `t`.
   */
  lemma {:induction false} RunHears(s: State, interval: int, events: seq<Event>, k: nat, src: Addr, rid: RouterId,
                                    t: int)
    requires HeardSince(s, k, src, rid, t)
    requires forall i :: 0 <= i < |events| ==> KeepsHearing(s.ports, interval, events[i], k, src, rid, t)
    ensures HeardSince(Run(s, interval, events), k, src, rid, t)
    decreases |events|
  {
    if events != [] {
      var s' := Step(s, interval, events[0]);
      StepHears(s, interval, events[0], k, src, rid, t);
      forall i | 0 <= i < |events[1..]| ensures KeepsHearing(s'.ports, interval, events[1..][i], k, src, rid, t) {
        assert KeepsHearing(s.ports, interval, events[i + 1], k, src, rid, t);
        StepKeepsPorts(s, interval, events[0], events[i + 1]);
      }
      RunHears(s', interval, events[1..], k, src, rid, t);
    }
  }

  /** So a hello counts for three intervals: whatever happens meanwhile, its neighbour stays. */
  lemma HelloLasts(s: State, interval: int, e: Event, events: seq<Event>)
    requires e.Hello? && Counts(s.ports, interval, e)
    requires forall i :: 0 <= i < |events| ==> KeepsHearing(s.ports, interval, events[i], e.port, e.src, e.rid, e.now)
    ensures HeardSince(Run(Step(s, interval, e), interval, events), e.port, e.src, e.rid, e.now)
  {
    var s' := Step(s, interval, e);
    HelloIsHeard(s, interval, e);
    var nbrs, now := s.ports[e.port].nbrs, s'.ports[e.port].nbrs;
    if Unheard(s, e.port, e.src, e.rid) {
      assert IsHeard(now[|nbrs|], e.src, e.rid);
    } else {
      var i :| 0 <= i < |nbrs| && IsHeard(nbrs[i], e.src, e.rid) && now == nbrs[i := Nbr(e.rid, e.src, e.now)];
      assert IsHeard(now[i], e.src, e.rid);
    }
    forall i | 0 <= i < |events| ensures KeepsHearing(s'.ports, interval, events[i], e.port, e.src, e.rid, e.now) {
      assert KeepsHearing(s.ports, interval, events[i], e.port, e.src, e.rid, e.now);
      StepKeepsPorts(s, interval, e, events[i]);
    }
    RunHears(s', interval, events, e.port, e.src, e.rid, e.now);
  }

  /** The event is no accepted hello of the neighbour on the port after `t`. */
  predicate NoLaterHello(ports: seq<Port>, interval: int, e: Event, k: nat, src: Addr, rid: RouterId, t: int) {
    Counts(ports, interval, e) && e.port == k && e.src == src && e.rid == rid ==> e.now <= t
  }

  lemma StepGrowsOld(s: State, interval: int, e: Event, k: nat, src: Addr, rid: RouterId, t: int)
    requires NotHeardAfter(s, k, src, rid, t) && NoLaterHello(s.ports, interval, e, k, src, rid, t)
    ensures NotHeardAfter(Step(s, interval, e), k, src, rid, t)
    ensures e.Timeout? && e.port == k && (forall i: nat :: e.clock(i) > t + 3 * interval) ==>
              Unheard(Step(s, interval, e), k, src, rid)
  {
    if e.Hello? {
      HelloIsHeard(s, interval, e);
    } else if e.port < |s.ports| {
      var from := SweepLeaves(s, interval, e.port, e.clock);
    }
  }

  lemma {:induction false} RunGrowsOld(s: State, interval: int, events: seq<Event>, k: nat, src: Addr,
                                       rid: RouterId, t: int)
    requires NotHeardAfter(s, k, src, rid, t)
    requires forall i :: 0 <= i < |events| ==> NoLaterHello(s.ports, interval, events[i], k, src, rid, t)
    ensures NotHeardAfter(Run(s, interval, events), k, src, rid, t)
    decreases |events|
  {
    if events != [] {
      var s' := Step(s, interval, events[0]);
      StepGrowsOld(s, interval, events[0], k, src, rid, t);
      forall i | 0 <= i < |events[1..]| ensures NoLaterHello(s'.ports, interval, events[1..][i], k, src, rid, t) {
        assert NoLaterHello(s.ports, interval, events[i + 1], k, src, rid, t);
        StepKeepsPorts(s, interval, events[0], events[i + 1]);
      }
      RunGrowsOld(s', interval, events[1..], k, src, rid, t);
    }
  }

  /**
   After any run in which the neighbour was not heard after `t`, a sweep of its port whose
   readings are all later by more than three intervals removes it.
   */
  lemma RunForgets(s: State, interval: int, events: seq<Event>, k: nat, src: Addr, rid: RouterId, t: int,
                   clock: nat -> int)
    requires NotHeardAfter(s, k, src, rid, t) && forall i: nat :: clock(i) > t + 3 * interval
    requires forall i :: 0 <= i < |events| ==> NoLaterHello(s.ports, interval, events[i], k, src, rid, t)
    ensures Unheard(Step(Run(s, interval, events), interval, Timeout(k, clock)), k, src, rid)
  {
    RunGrowsOld(s, interval, events, k, src, rid, t);
    StepGrowsOld(Run(s, interval, events), interval, Timeout(k, clock), k, src, rid, t);
  }

  predicate SameSubnet(p: Port, q: Port) {
    Net(p.ip, p.mask) == Net(q.ip, q.mask) && p.mask == q.mask
  }

  ghost predicate DistinctSubnets(ports: seq<Port>) {
    forall i, j :: 0 <= i < j < |ports| ==> !SameSubnet(ports[i], ports[j])
  }

  ghost predicate MirrorsPort(own: seq<Iface>, p: Port) {
    Mirrors(own, Net(p.ip, p.mask), p.mask, p.nbrs)
  }

  ghost predicate MirrorsAll(s: State) {
    DistinctSubnets(s.ports) && forall k :: 0 <= k < |s.ports| ==> MirrorsPort(s.own, s.ports[k])
  }

  /** The port has at least one entry on its subnet. */
  ghost predicate HasEntry(own: seq<Iface>, p: Port) {
    Rids(own, Net(p.ip, p.mask), p.mask) != multiset{}
  }

  ghost predicate EntryEach(s: State) {
    DistinctSubnets(s.ports) && forall k :: 0 <= k < |s.ports| ==> HasEntry(s.own, s.ports[k])
  }

  /** What mirroring means entry by entry. */
  lemma MirrorReads(own: seq<Iface>, net: Addr, mask: Addr, nbrs: seq<Nbr>)
    requires BLANK !in NbrRids(nbrs)
    ensures Mirrors(own, net, mask, nbrs) <==>
              && Rids(own, net, mask)[BLANK] == (if nbrs == [] then 1 else 0)
              && forall rid :: rid != BLANK ==> Rids(own, net, mask)[rid] == NbrRids(nbrs)[rid]
  {
    if forall rid :: rid != BLANK ==> Rids(own, net, mask)[rid] == NbrRids(nbrs)[rid] {
      if Rids(own, net, mask)[BLANK] == (if nbrs == [] then 1 else 0) {
        assert forall rid :: Rids(own, net, mask)[rid] == (if nbrs == [] then multiset{BLANK} else NbrRids(nbrs))[rid];
      }
    }
  }

  /** The entry of a freshly started router: one blank interface a port. */
  function Blanks(ports: seq<Port>): seq<Iface> {
    if ports == [] then []
    else
      var p := ports[|ports| - 1];
      Blanks(ports[..|ports| - 1]) + [Iface(Net(p.ip, p.mask), p.mask, BLANK, false)]
  }

  predicate PortOn(p: Port, net: Addr, mask: Addr) {
    Net(p.ip, p.mask) == net && p.mask == mask
  }

  ghost predicate SomePortOn(ports: seq<Port>, net: Addr, mask: Addr) {
    exists k :: 0 <= k < |ports| && PortOn(ports[k], net, mask)
  }

  /** The last port is on a subnet of its own. */
  lemma LastPortOn(ports: seq<Port>, net: Addr, mask: Addr)
    requires DistinctSubnets(ports) && ports != []
    ensures var n := |ports| - 1;
            && (SomePortOn(ports, net, mask) <==> SomePortOn(ports[..n], net, mask) || PortOn(ports[n], net, mask))
            && !(SomePortOn(ports[..n], net, mask) && PortOn(ports[n], net, mask))
  {
    var n := |ports| - 1;
    if k :| 0 <= k < n && PortOn(ports[k], net, mask) {
      assert PortOn(ports[..n][k], net, mask) && !SameSubnet(ports[k], ports[n]);
    }
  }

  lemma {:induction false} BlanksCount(ports: seq<Port>, net: Addr, mask: Addr)
    requires DistinctSubnets(ports)
    ensures Rids(Blanks(ports), net, mask) == if SomePortOn(ports, net, mask) then multiset{BLANK} else multiset{}
  {
    if ports != [] {
      var n := |ports| - 1;
      LastPortOn(ports, net, mask);
      BlanksCount(ports[..n], net, mask);
      RidsConcat(Blanks(ports[..n]), [Iface(Net(ports[n].ip, ports[n].mask), ports[n].mask, BLANK, false)], net, mask);
    }
  }

  /** A router starts out mirroring, whatever else (a default route) it also advertises. */
  lemma {:induction false} StartMirrors(ports: seq<Port>, other: seq<Iface>)
    requires DistinctSubnets(ports) && forall k :: 0 <= k < |ports| ==> ports[k].nbrs == []
    requires forall i, k :: 0 <= i < |other| && 0 <= k < |ports| ==>
               !OnSubnet(other[i], Net(ports[k].ip, ports[k].mask), ports[k].mask)
    ensures MirrorsAll(State(Blanks(ports) + other, ports))
  {
    forall k | 0 <= k < |ports| ensures MirrorsPort(Blanks(ports) + other, ports[k]) {
      var net, mask := Net(ports[k].ip, ports[k].mask), ports[k].mask;
      BlanksCount(ports, net, mask);
      assert PortOn(ports[k], net, mask);
      RidsConcat(Blanks(ports), other, net, mask);
      NoneOnSubnet(other, net, mask);
    }
  }

  lemma {:induction false} NoneOnSubnet(own: seq<Iface>, net: Addr, mask: Addr)
    requires forall i :: 0 <= i < |own| ==> !OnSubnet(own[i], net, mask)
    ensures Rids(own, net, mask) == multiset{}
  {
    if own != [] {
      NoneOnSubnet(own[1..], net, mask);
    }
  }

  lemma {:induction false} NbrRidsUpdate(nbrs: seq<Nbr>, k: nat, n: Nbr)
    requires k < |nbrs| && n.rid == nbrs[k].rid
    ensures NbrRids(nbrs[k := n]) == NbrRids(nbrs)
  {
    if k == 0 {
      assert nbrs[k := n][1..] == nbrs[1..];
    } else {
      assert nbrs[k := n][1..] == nbrs[1..][k - 1 := n];
      NbrRidsUpdate(nbrs[1..], k - 1, n);
    }
  }

  /** A hello keeps the mirror unless it names router zero and passes the tests of interval and mask. */
  lemma HelloMirrorsIff(own: seq<Iface>, p: Port, interval: int, hint: int, mask: Addr, src: Addr, rid: RouterId,
                        now: int)
    requires MirrorsPort(own, p)
    ensures var (own', nbrs') := HelloStep(own, p, interval, hint, mask, src, rid, now);
            MirrorsPort(own', p.(nbrs := nbrs')) <==> rid != BLANK || hint != interval || mask != p.mask
  {
    var k := FindNbr(p.nbrs, src, rid);
    if k >= 0 {
      NbrRidsUpdate(p.nbrs, k, p.nbrs[k].(lastHello := now));
      HeardIsNamed(p.nbrs, k);
    } else if rid != BLANK {
      AddNeighborMirrors(own, Net(p.ip, p.mask), p.mask, p.nbrs, Nbr(rid, src, now));
    } else {
      NbrRidsConcat(p.nbrs, [Nbr(rid, src, now)]);
      assert NbrRids([Nbr(rid, src, now)]) == multiset{BLANK};
    }
  }

  lemma {:induction false} HeardIsNamed(nbrs: seq<Nbr>, k: nat)
    requires k < |nbrs|
    ensures nbrs[k].rid in NbrRids(nbrs)
  {
    if k > 0 {
      HeardIsNamed(nbrs[1..], k - 1);
    }
  }

  lemma TimeoutMirrors(own: seq<Iface>, p: Port, interval: int, clock: nat -> int)
    requires MirrorsPort(own, p)
    ensures var (own', nbrs') := TimeoutStep(own, p, interval, clock);
            MirrorsPort(own', p.(nbrs := nbrs'))
  {
    assert [] + p.nbrs == p.nbrs;
    var (own', nbrs') := TimeoutStep(own, p, interval, clock);
    SweepMirrors(own, Net(p.ip, p.mask), p.mask, [], p.nbrs, Due(p.nbrs, interval, clock));
    assert [] + nbrs' == nbrs';
  }

  /** An event on one port leaves the entries of every other subnet alone. */
  lemma StepFrame(s: State, interval: int, e: Event, q: Port)
    requires e.port < |s.ports| && !SameSubnet(s.ports[e.port], q)
    ensures Rids(Step(s, interval, e).own, Net(q.ip, q.mask), q.mask) == Rids(s.own, Net(q.ip, q.mask), q.mask)
  {
    var p := s.ports[e.port];
    if e.Hello? {
      AddNeighborRids(s.own, Net(p.ip, p.mask), p.mask, e.rid, Net(q.ip, q.mask), q.mask);
    } else {
      SweepFrame(s.own, Net(p.ip, p.mask), p.mask, p.nbrs, Due(p.nbrs, interval, e.clock), Net(q.ip, q.mask), q.mask);
    }
  }

  /** A hello that its port accepts and that names router zero. */
  predicate Poisons(ports: seq<Port>, interval: int, e: Event) {
    e.Hello? && e.rid == BLANK && e.port < |ports| && e.hint == interval && e.mask == ports[e.port].mask
  }

  lemma StepMirrorsPort(s: State, interval: int, e: Event, k: nat)
    requires DistinctSubnets(s.ports) && k < |s.ports| && MirrorsPort(s.own, s.ports[k])
    ensures MirrorsPort(Step(s, interval, e).own, Step(s, interval, e).ports[k]) <==>
            !(Poisons(s.ports, interval, e) && e.port == k)
  {
    if e.port == k {
      if e.Hello? {
        HelloMirrorsIff(s.own, s.ports[k], interval, e.hint, e.mask, e.src, e.rid, e.now);
      } else {
        TimeoutMirrors(s.own, s.ports[k], interval, e.clock);
      }
    } else if e.port < |s.ports| {
      StepFrame(s, interval, e, s.ports[k]);
    }
  }

  lemma StepKeepsSubnets(s: State, interval: int, e: Event)
    requires DistinctSubnets(s.ports)
    ensures var s' := Step(s, interval, e); |s'.ports| == |s.ports| && DistinctSubnets(s'.ports)
  {
    var ports := Step(s, interval, e).ports;
    assert forall k :: 0 <= k < |ports| ==> ports[k].ip == s.ports[k].ip && ports[k].mask == s.ports[k].mask;
  }

  /** The step version: the mirror survives exactly the events that do not poison it. */
  lemma StepMirrorsIff(s: State, interval: int, e: Event)
    requires MirrorsAll(s)
    ensures MirrorsAll(Step(s, interval, e)) <==> !Poisons(s.ports, interval, e)
  {
    var s' := Step(s, interval, e);
    StepKeepsSubnets(s, interval, e);
    forall k | 0 <= k < |s'.ports|
      ensures MirrorsPort(s'.own, s'.ports[k]) <==> !(Poisons(s.ports, interval, e) && e.port == k)
    {
      assert MirrorsPort(s.own, s.ports[k]);
      StepMirrorsPort(s, interval, e, k);
    }
    if Poisons(s.ports, interval, e) {
      assert !MirrorsPort(s'.own, s'.ports[e.port]);
    }
  }

  /** The masks of the ports do not change, and with them what poisons. */
  lemma {:induction false} RunKeepsPoison(s: State, interval: int, events: seq<Event>, e: Event)
    ensures Poisons(Run(s, interval, events).ports, interval, e) <==> Poisons(s.ports, interval, e)
    decreases |events|
  {
    if events != [] {
      RunKeepsPoison(Step(s, interval, events[0]), interval, events[1..], e);
    }
  }

  /** Over any run of hellos and timeouts that does not poison it, our entry mirrors the neighbours of every port. */
  lemma {:induction false} RunMirrors(s: State, interval: int, events: seq<Event>)
    requires MirrorsAll(s)
    requires forall i :: 0 <= i < |events| ==> !Poisons(s.ports, interval, events[i])
    ensures MirrorsAll(Run(s, interval, events))
    decreases |events|
  {
    if events != [] {
      var s' := Step(s, interval, events[0]);
      StepMirrorsIff(s, interval, events[0]);
      forall i | 0 <= i < |events[1..]| ensures !Poisons(s'.ports, interval, events[1..][i]) {
        assert !Poisons(s.ports, interval, events[i + 1]);
      }
      RunMirrors(s', interval, events[1..]);
    }
  }

  lemma {:induction false} RunLast(s: State, interval: int, events: seq<Event>)
    requires events != []
    ensures Run(s, interval, events) == Step(Run(s, interval, events[..|events| - 1]), interval, events[|events| - 1])
    decreases |events|
  {
    if |events| > 1 {
      RunLast(Step(s, interval, events[0]), interval, events[1..]);
      assert events[1..][..|events| - 2] == events[..|events| - 1][1..];
    }
  }

  /** The mirror holds all along a run if and only if no event of the run poisons it. */
  lemma RunMirrorsIff(s: State, interval: int, events: seq<Event>)
    requires MirrorsAll(s)
    ensures (forall n :: 0 <= n <= |events| ==> MirrorsAll(Run(s, interval, events[..n]))) <==>
            (forall i :: 0 <= i < |events| ==> !Poisons(s.ports, interval, events[i]))
  {
    if forall i :: 0 <= i < |events| ==> !Poisons(s.ports, interval, events[i]) {
      forall n | 0 <= n <= |events| ensures MirrorsAll(Run(s, interval, events[..n])) {
        RunMirrors(s, interval, events[..n]);
      }
    }
    if i :| 0 <= i < |events| && Poisons(s.ports, interval, events[i]) {
      var before := Run(s, interval, events[..i]);
      if MirrorsAll(before) {
        RunKeepsPoison(s, interval, events[..i], events[i]);
        StepMirrorsIff(before, interval, events[i]);
        RunLast(s, interval, events[..i + 1]);
        assert events[..i + 1][..i] == events[..i];
        assert !MirrorsAll(Run(s, interval, events[..i + 1]));
      }
    }
  }

  // ----- what the mirror is for: no live neighbour goes unnamed

  /** Every neighbour that has an id is named in our own entry, as often as it is heard. */
  ghost predicate Named(own: seq<Iface>, net: Addr, mask: Addr, nbrs: seq<Nbr>) {
    forall rid :: rid != BLANK ==> NbrRids(nbrs)[rid] <= Rids(own, net, mask)[rid]
  }

  predicate HasLive(nbrs: seq<Nbr>) {
    exists i :: 0 <= i < |nbrs| && nbrs[i].rid != BLANK
  }

  lemma {:induction false} NoneLive(nbrs: seq<Nbr>, rid: RouterId)
    requires !HasLive(nbrs) && rid != BLANK
    ensures NbrRids(nbrs)[rid] == 0
  {
    if nbrs != [] {
      assert nbrs[0].rid == BLANK;
      NoneLive(nbrs[1..], rid);
    }
  }

  lemma UnlessLive(own: seq<Iface>, net: Addr, mask: Addr, nbrs: seq<Nbr>)
    ensures !HasLive(nbrs) ==> Named(own, net, mask, nbrs)
    ensures Rids(own, net, mask) == multiset{BLANK} ==> (Named(own, net, mask, nbrs) <==> !HasLive(nbrs))
  {
    if i :| 0 <= i < |nbrs| && nbrs[i].rid != BLANK {
      HeardIsNamed(nbrs, i);
    } else {
      forall rid | rid != BLANK ensures NbrRids(nbrs)[rid] == 0 {
        NoneLive(nbrs, rid);
      }
    }
  }

  lemma AddNeighborNames(own: seq<Iface>, net: Addr, mask: Addr, nbrs: seq<Nbr>, n: Nbr)
    requires Named(own, net, mask, nbrs)
    ensures Named(AddNeighbor(own, net, mask, n.rid), net, mask, nbrs + [n])
  {
    AddNeighborRids(own, net, mask, n.rid, net, mask);
    NbrRidsConcat(nbrs, [n]);
  }

  /** A due neighbour unnames a live one iff it is called zero and the subnet has a single entry. */
  lemma DropNamesIff(own: seq<Iface>, net: Addr, mask: Addr, before: seq<Nbr>, n: Nbr, after: seq<Nbr>)
    requires Named(own, net, mask, before + [n] + after)
    ensures Named(DropNeighbor(own, net, mask, n.rid), net, mask, before + after) <==>
            !(n.rid == BLANK && |Rids(own, net, mask)| == 1 && HasLive(before + after))
  {
    var left, rids := before + after, Rids(own, net, mask);
    var own' := DropNeighbor(own, net, mask, n.rid);
    DropNeighborRids(own, net, mask, n.rid, net, mask);
    NbrRidsWithout(before, n, after);
    if |rids| == 1 {
      UnlessLive(own', net, mask, left);
      if n.rid != BLANK {
        if i :| 0 <= i < |left| && left[i].rid != BLANK {
          HeardIsNamed(left, i);
          Singleton(rids, n.rid);
          assert false;
        }
      }
    }
  }

  /** The sweep comes to a due neighbour called zero while the subnet has a single entry. */
  predicate Wipes(own: seq<Iface>, net: Addr, mask: Addr, nbrs: seq<Nbr>, due: seq<bool>)
    requires |due| == |nbrs|
    decreases |nbrs|
  {
    if nbrs == [] then false
    else if due[0] then
      || (nbrs[0].rid == BLANK && |Rids(own, net, mask)| == 1)
      || Wipes(DropNeighbor(own, net, mask, nbrs[0].rid), net, mask, nbrs[1..], due[1..])
    else Wipes(own, net, mask, nbrs[1..], due[1..])
  }

  lemma {:induction false} SweepStaysBlank(own: seq<Iface>, net: Addr, mask: Addr, nbrs: seq<Nbr>, due: seq<bool>)
    requires |due| == |nbrs| && Rids(own, net, mask) == multiset{BLANK}
    ensures Rids(Sweep(own, net, mask, nbrs, due).0, net, mask) == multiset{BLANK}
    decreases |nbrs|
  {
    if nbrs != [] {
      if due[0] {
        DropNeighborRids(own, net, mask, nbrs[0].rid, net, mask);
        SweepStaysBlank(DropNeighbor(own, net, mask, nbrs[0].rid), net, mask, nbrs[1..], due[1..]);
      } else {
        SweepStaysBlank(own, net, mask, nbrs[1..], due[1..]);
      }
    }
  }

  /** A sweep leaves a live neighbour unnamed iff it wipes the subnet's single entry and one is left. */
  lemma {:induction false} SweepNamesIff(own: seq<Iface>, net: Addr, mask: Addr, kept: seq<Nbr>, nbrs: seq<Nbr>,
                                         due: seq<bool>)
    requires |due| == |nbrs| && Named(own, net, mask, kept + nbrs)
    ensures var (own', nbrs') := Sweep(own, net, mask, nbrs, due);
            Named(own', net, mask, kept + nbrs') <==> !(Wipes(own, net, mask, nbrs, due) && HasLive(kept + nbrs'))
    decreases |nbrs|
  {
    if nbrs == [] {
      assert kept + nbrs == kept;
    } else {
      assert kept + nbrs == kept + [nbrs[0]] + nbrs[1..];
      if !due[0] {
        SweepNamesIff(own, net, mask, kept + [nbrs[0]], nbrs[1..], due[1..]);
        var (_, rest) := Sweep(own, net, mask, nbrs[1..], due[1..]);
        assert kept + ([nbrs[0]] + rest) == kept + [nbrs[0]] + rest;
      } else if nbrs[0].rid == BLANK && |Rids(own, net, mask)| == 1 {
        WipedNames(own, net, mask, kept, nbrs, due);
      } else {
        DropNamesIff(own, net, mask, kept, nbrs[0], nbrs[1..]);
        SweepNamesIff(DropNeighbor(own, net, mask, nbrs[0].rid), net, mask, kept, nbrs[1..], due[1..]);
      }
    }
  }

  /** Once the single entry is wiped, the sweep ends with a blank one. */
  lemma WipedNames(own: seq<Iface>, net: Addr, mask: Addr, kept: seq<Nbr>, nbrs: seq<Nbr>, due: seq<bool>)
    requires |due| == |nbrs| > 0 && due[0] && nbrs[0].rid == BLANK && |Rids(own, net, mask)| == 1
    ensures var (own', nbrs') := Sweep(own, net, mask, nbrs, due);
            Named(own', net, mask, kept + nbrs') <==> !HasLive(kept + nbrs')
  {
    var (own', nbrs') := Sweep(own, net, mask, nbrs, due);
    DropNeighborRids(own, net, mask, BLANK, net, mask);
    SweepStaysBlank(DropNeighbor(own, net, mask, BLANK), net, mask, nbrs[1..], due[1..]);
    UnlessLive(own', net, mask, kept + nbrs');
  }

  ghost predicate NamedPort(own: seq<Iface>, p: Port) {
    Named(own, Net(p.ip, p.mask), p.mask, p.nbrs)
  }

  ghost predicate NamedAll(s: State) {
    DistinctSubnets(s.ports) && forall k :: 0 <= k < |s.ports| ==> NamedPort(s.own, s.ports[k])
  }

  /** A router that mirrors names every neighbour. */
  lemma MirrorNames(s: State)
    requires MirrorsAll(s)
    ensures NamedAll(s)
  {
    forall k | 0 <= k < |s.ports| ensures NamedPort(s.own, s.ports[k]) {
      assert MirrorsPort(s.own, s.ports[k]);
    }
  }

  /** The sweep of a port wipes its single entry while a neighbour that has an id stays. */
  predicate Erases(s: State, interval: int, e: Event) {
    && e.Timeout? && e.port < |s.ports|
    && var p := s.ports[e.port];
    && Wipes(s.own, Net(p.ip, p.mask), p.mask, p.nbrs, Due(p.nbrs, interval, e.clock))
    && HasLive(TimeoutStep(s.own, p, interval, e.clock).1)
  }

  lemma HelloNames(own: seq<Iface>, p: Port, interval: int, hint: int, mask: Addr, src: Addr, rid: RouterId, now: int)
    requires NamedPort(own, p)
    ensures var (own', nbrs') := HelloStep(own, p, interval, hint, mask, src, rid, now);
            NamedPort(own', p.(nbrs := nbrs'))
  {
    var k := FindNbr(p.nbrs, src, rid);
    if k >= 0 {
      NbrRidsUpdate(p.nbrs, k, p.nbrs[k].(lastHello := now));
    } else {
      AddNeighborNames(own, Net(p.ip, p.mask), p.mask, p.nbrs, Nbr(rid, src, now));
    }
  }

  lemma StepNamesPort(s: State, interval: int, e: Event, k: nat)
    requires DistinctSubnets(s.ports) && k < |s.ports| && NamedPort(s.own, s.ports[k])
    ensures NamedPort(Step(s, interval, e).own, Step(s, interval, e).ports[k]) <==>
            !(Erases(s, interval, e) && e.port == k)
  {
    if e.port == k {
      var p := s.ports[k];
      if e.Hello? {
        HelloNames(s.own, p, interval, e.hint, e.mask, e.src, e.rid, e.now);
      } else {
        var (own', nbrs') := TimeoutStep(s.own, p, interval, e.clock);
        assert [] + p.nbrs == p.nbrs && [] + nbrs' == nbrs';
        SweepNamesIff(s.own, Net(p.ip, p.mask), p.mask, [], p.nbrs, Due(p.nbrs, interval, e.clock));
      }
    } else if e.port < |s.ports| {
      StepFrame(s, interval, e, s.ports[k]);
    }
  }

  /** A step leaves a live neighbour unnamed exactly if it erases it; no hello does, not even one from router zero. */
  lemma StepNamesIff(s: State, interval: int, e: Event)
    requires NamedAll(s)
    ensures NamedAll(Step(s, interval, e)) <==> !Erases(s, interval, e)
  {
    var s' := Step(s, interval, e);
    StepKeepsSubnets(s, interval, e);
    forall k | 0 <= k < |s'.ports|
      ensures NamedPort(s'.own, s'.ports[k]) <==> !(Erases(s, interval, e) && e.port == k)
    {
      assert NamedPort(s.own, s.ports[k]);
      StepNamesPort(s, interval, e, k);
    }
    if Erases(s, interval, e) {
      assert !NamedPort(s'.own, s'.ports[e.port]);
    }
  }

  /** The event after the first `i` of a run erases. */
  predicate ErasesAt(s: State, interval: int, events: seq<Event>, i: nat) {
    i < |events| && Erases(Run(s, interval, events[..i]), interval, events[i])
  }

  /** While no event erases, every live neighbour is named. */
  lemma {:induction false} RunNames(s: State, interval: int, events: seq<Event>, n: nat)
    requires NamedAll(s) && n <= |events| && forall i :: 0 <= i < n ==> !ErasesAt(s, interval, events, i)
    ensures NamedAll(Run(s, interval, events[..n]))
  {
    if n > 0 {
      RunNames(s, interval, events, n - 1);
      RunLast(s, interval, events[..n]);
      assert events[..n][..n - 1] == events[..n - 1];
      StepNamesIff(Run(s, interval, events[..n - 1]), interval, events[n - 1]);
      assert !ErasesAt(s, interval, events, n - 1);
    }
  }

  /** Every live neighbour is named all along a run if and only if no event of it erases. */
  lemma RunNamesIff(s: State, interval: int, events: seq<Event>)
    requires NamedAll(s)
    ensures (forall n :: 0 <= n <= |events| ==> NamedAll(Run(s, interval, events[..n]))) <==>
            (forall i :: 0 <= i < |events| ==> !ErasesAt(s, interval, events, i))
  {
    if forall i :: 0 <= i < |events| ==> !ErasesAt(s, interval, events, i) {
      forall n | 0 <= n <= |events| ensures NamedAll(Run(s, interval, events[..n])) {
        RunNames(s, interval, events, n);
      }
    }
    if i :| 0 <= i < |events| && ErasesAt(s, interval, events, i) {
      if NamedAll(Run(s, interval, events[..i])) {
        StepNamesIff(Run(s, interval, events[..i]), interval, events[i]);
        RunLast(s, interval, events[..i + 1]);
        assert events[..i + 1][..i] == events[..i];
        assert !NamedAll(Run(s, interval, events[..i + 1]));
      }
    }
  }

  lemma StepKeepsEntries(s: State, interval: int, e: Event)
    requires EntryEach(s)
    ensures EntryEach(Step(s, interval, e))
  {
    var s' := Step(s, interval, e);
    StepKeepsSubnets(s, interval, e);
    if e.port < |s.ports| {
      var p := s.ports[e.port];
      assert HasEntry(s.own, p);
      if e.Hello? {
        AddNeighborRids(s.own, Net(p.ip, p.mask), p.mask, e.rid, Net(p.ip, p.mask), p.mask);
      } else {
        SweepKeepsAnEntry(s.own, Net(p.ip, p.mask), p.mask, p.nbrs, Due(p.nbrs, interval, e.clock));
      }
      forall k | 0 <= k < |s'.ports| && k != e.port ensures HasEntry(s'.own, s'.ports[k]) {
        StepFrame(s, interval, e, s.ports[k]);
        assert HasEntry(s.own, s.ports[k]);
      }
    }
  }

  /** Over any run, neighbours named zero included, every port keeps an entry: the sweep's assertion holds. */
  lemma {:induction false} RunKeepsEntries(s: State, interval: int, events: seq<Event>)
    requires EntryEach(s)
    ensures EntryEach(Run(s, interval, events))
    decreases |events|
  {
    if events != [] {
      StepKeepsEntries(s, interval, events[0]);
      RunKeepsEntries(Step(s, interval, events[0]), interval, events[1..]);
    }
  }

  lemma {:induction false} SweepKeepsMasked(own: seq<Iface>, net: Addr, mask: Addr, nbrs: seq<Nbr>, due: seq<bool>)
    requires |due| == |nbrs| && MaskedEntries(own)
    ensures MaskedEntries(Sweep(own, net, mask, nbrs, due).0)
    decreases |nbrs|
  {
    if nbrs != [] {
      if due[0] {
        SweepKeepsMasked(DropNeighbor(own, net, mask, nbrs[0].rid), net, mask, nbrs[1..], due[1..]);
      } else {
        SweepKeepsMasked(own, net, mask, nbrs[1..], due[1..]);
      }
    }
  }

  /** Over any run the subnets in our own entry stay masked, as the merge at our peers needs. */
  lemma {:induction false} RunKeepsMasked(s: State, interval: int, events: seq<Event>)
    requires MaskedEntries(s.own)
    ensures MaskedEntries(Run(s, interval, events).own)
    decreases |events|
  {
    if events != [] {
      var e := events[0];
      if e.port < |s.ports| {
        var p := s.ports[e.port];
        NetTwice(p.ip, p.mask);
        if e.Timeout? {
          SweepKeepsMasked(s.own, Net(p.ip, p.mask), p.mask, p.nbrs, Due(p.nbrs, interval, e.clock));
        }
      }
      RunKeepsMasked(Step(s, interval, e), interval, events[1..]);
    }
  }

  /** Every neighbour that our own entry names is on the subnet of a port. */
  ghost predicate NamesOnPorts(own: seq<Iface>, ports: seq<Port>) {
    forall i :: 0 <= i < |own| && own[i].rid != BLANK ==>
      exists k :: 0 <= k < |ports| && OnSubnet(own[i], Net(ports[k].ip, ports[k].mask), ports[k].mask)
  }

  lemma {:induction false} SweepKeepsNames(own: seq<Iface>, net: Addr, mask: Addr, nbrs: seq<Nbr>, due: seq<bool>,
                                           ports: seq<Port>)
    requires |due| == |nbrs| && NamesOnPorts(own, ports)
    ensures NamesOnPorts(Sweep(own, net, mask, nbrs, due).0, ports)
    decreases |nbrs|
  {
    if nbrs != [] {
      if due[0] {
        SweepKeepsNames(DropNeighbor(own, net, mask, nbrs[0].rid), net, mask, nbrs[1..], due[1..], ports);
      } else {
        SweepKeepsNames(own, net, mask, nbrs[1..], due[1..], ports);
      }
    }
  }

  lemma StepKeepsNames(s: State, interval: int, e: Event)
    requires NamesOnPorts(s.own, s.ports)
    ensures NamesOnPorts(Step(s, interval, e).own, Step(s, interval, e).ports)
  {
    if e.port < |s.ports| {
      var s', p := Step(s, interval, e), s.ports[e.port];
      if e.Timeout? {
        SweepKeepsNames(s.own, Net(p.ip, p.mask), p.mask, p.nbrs, Due(p.nbrs, interval, e.clock), s.ports);
      } else {
        AddKeepsNames(s.own, s.ports, e.port, e.rid);
      }
      assert NamesOnPorts(s'.own, s.ports);
      forall i | 0 <= i < |s'.own| && s'.own[i].rid != BLANK
        ensures exists k ::
                  0 <= k < |s'.ports| && OnSubnet(s'.own[i], Net(s'.ports[k].ip, s'.ports[k].mask), s'.ports[k].mask)
      {
        var k :| 0 <= k < |s.ports| && OnSubnet(s'.own[i], Net(s.ports[k].ip, s.ports[k].mask), s.ports[k].mask);
        assert s'.ports[k].ip == s.ports[k].ip && s'.ports[k].mask == s.ports[k].mask;
      }
    }
  }

  lemma AddKeepsNames(own: seq<Iface>, ports: seq<Port>, k: nat, rid: RouterId)
    requires NamesOnPorts(own, ports) && k < |ports|
    ensures NamesOnPorts(AddNeighbor(own, Net(ports[k].ip, ports[k].mask), ports[k].mask, rid), ports)
  {
    var own' := AddNeighbor(own, Net(ports[k].ip, ports[k].mask), ports[k].mask, rid);
    forall i | 0 <= i < |own'| && own'[i].rid != BLANK
      ensures exists k :: 0 <= k < |ports| && OnSubnet(own'[i], Net(ports[k].ip, ports[k].mask), ports[k].mask)
    {
      if !OnSubnet(own'[i], Net(ports[k].ip, ports[k].mask), ports[k].mask) {
        assert own'[i] == own[i];
      }
    }
  }

  /** Over any run our own entry names neighbours only on the subnets of ports. */
  lemma {:induction false} RunKeepsNames(s: State, interval: int, events: seq<Event>)
    requires NamesOnPorts(s.own, s.ports)
    ensures NamesOnPorts(Run(s, interval, events).own, Run(s, interval, events).ports)
    decreases |events|
  {
    if events != [] {
      StepKeepsNames(s, interval, events[0]);
      RunKeepsNames(Step(s, interval, events[0]), interval, events[1..]);
    }
  }

  /** A port with nobody on it, and the port once it has heard a neighbour calling itself zero, and then router 7. */
  const NOBODY := State([Iface(0, 0, BLANK, false)], [Port(0, 0, [])])
  const HEARD_ZERO := State([Iface(0, 0, 7, false)], [Port(0, 0, [Nbr(BLANK, 1, 0), Nbr(7, 2, 0)])])
  const BLANKED := State([Iface(0, 0, BLANK, false)], [Port(0, 0, [Nbr(7, 2, 0)])])

  lemma ZeroIsHeard()
    ensures Run(NOBODY, 5, [Hello(0, 5, 0, 1, BLANK, 0), Hello(0, 5, 0, 2, 7, 0)]) == HEARD_ZERO
  {
    var own, p0 := [Iface(0, 0, BLANK, false)], Port(0, 0, []);
    var e0, e1 := Hello(0, 5, 0, 1, BLANK, 0), Hello(0, 5, 0, 2, 7, 0);
    var n0, n7 := Nbr(BLANK, 1, 0), Nbr(7, 2, 0);
    assert own[0 := own[0].(rid := BLANK)] == own && [] + [n0] == [n0];
    var s1 := Step(NOBODY, 5, e0);
    assert s1 == State(own, [Port(0, 0, [n0])]);
    assert own[0 := own[0].(rid := 7)] == HEARD_ZERO.own && [n0] + [n7] == [n0, n7];
    var s2 := Step(s1, 5, e1);
    assert s2 == HEARD_ZERO;
    assert [e0, e1][1..] == [e1] && [e1][1..] == [];
    assert Run(s1, 5, [e1]) == Run(s2, 5, []);
  }

  lemma EntryIsBlanked(clock: nat -> int)
    requires clock(0) == 100 && clock(1) == 0
    ensures Step(HEARD_ZERO, 5, Timeout(0, clock)) == BLANKED
  {
    var p, n7, blank := HEARD_ZERO.ports[0], Nbr(7, 2, 0), [Iface(0, 0, BLANK, false)];
    assert Due(p.nbrs, 5, clock) == [true, false];
    assert DropNeighbor(HEARD_ZERO.own, 0, 0, BLANK) == blank;
    assert p.nbrs[1..] == [n7] && [true, false][1..] == [false];
    assert Sweep(blank, 0, 0, [n7][1..], [false][1..]) == (blank, []) && [n7] + [] == [n7];
    assert Net(0, 0) == 0;
    assert Sweep(HEARD_ZERO.own, 0, 0, p.nbrs, [true, false]) == (blank, [n7]);
    assert TimeoutStep(HEARD_ZERO.own, p, 5, clock) == (blank, [n7]);
  }

  lemma BlankedIsUnnamed()
    ensures MirrorsAll(NOBODY) && !NamedAll(BLANKED)
  {
    var blank, n7 := Iface(0, 0, BLANK, false), Nbr(7, 2, 0);
    assert Net(0, 0) == 0;
    assert [blank][1..] == [] && Rids([blank], 0, 0) == multiset{BLANK};
    assert [n7][1..] == [] && NbrRids([n7]) == multiset{n7.rid};
    assert MirrorsPort(NOBODY.own, NOBODY.ports[0]);
    assert NbrRids([n7])[7] == 1 && Rids([blank], 0, 0)[7] == 0;
    assert !NamedPort(BLANKED.own, BLANKED.ports[0]);
  }

  /**
   A neighbour that calls itself zero breaks the mirror: in this run its timeout blanks the
   entry of router 7, which is still a neighbour and is named no more.
   */
  lemma BlankNeighborBreaksMirror(clock: nat -> int)
    requires clock(0) == 100 && clock(1) == 0
    ensures MirrorsAll(NOBODY) && !NamedAll(BLANKED)
    ensures Run(NOBODY, 5, [Hello(0, 5, 0, 1, BLANK, 0), Hello(0, 5, 0, 2, 7, 0), Timeout(0, clock)]) == BLANKED
  {
    var events := [Hello(0, 5, 0, 1, BLANK, 0), Hello(0, 5, 0, 2, 7, 0), Timeout(0, clock)];
    BlankedIsUnnamed();
    ZeroIsHeard();
    EntryIsBlanked(clock);
    RunLast(NOBODY, 5, events);
    assert events[..2] == [Hello(0, 5, 0, 1, BLANK, 0), Hello(0, 5, 0, 2, 7, 0)];
  }

  // ----- the handlers

  class IfaceEntry {
    const ip: Addr
    const mask: Addr
    var nbrs: seq<Nbr>

    constructor (ip: Addr, mask: Addr)
      ensures this.ip == ip && this.mask == mask && nbrs == []
    {
      this.ip, this.mask, nbrs := ip, mask, [];
    }

    ghost function AsPort(): Port
      reads this
    {
      Port(ip, mask, nbrs)
    }
  }

  /** A hello: refresh a known neighbour, or record a new one and tell whether to flood. */
  method ProcessHello(own: PwospfRouter, iface: IfaceEntry, interval: int, hint: int, mask: Addr, src: Addr,
                      rid: RouterId, now: int)
    returns (updateNeighbors: bool)
    modifies own`interfaces, iface`nbrs
    ensures own.interfaces == old(HelloStep(own.interfaces, iface.AsPort(), interval, hint, mask, src, rid, now)).0
    ensures iface.nbrs == old(HelloStep(own.interfaces, iface.AsPort(), interval, hint, mask, src, rid, now)).1
    ensures updateNeighbors <==> |iface.nbrs| > old(|iface.nbrs|)
  {
    updateNeighbors := false;
    if interval != hint {
      return;
    }
    if iface.mask != mask {
      return;
    }
    var match_ := -1;
    for k := 0 to |iface.nbrs|
      invariant match_ == FindNbr(iface.nbrs[..k], src, rid)
    {
      assert iface.nbrs[..k + 1][..k] == iface.nbrs[..k];
      if iface.nbrs[k].ip == src && iface.mask == mask && iface.nbrs[k].rid == rid {
        match_ := k;
      }
    }
    assert iface.nbrs[..|iface.nbrs|] == iface.nbrs;
    if match_ == -1 {
      iface.nbrs := iface.nbrs + [Nbr(rid, src, now)];
      var k := FindEntry(own.interfaces, Net(iface.ip, iface.mask), iface.mask, BLANK);
      if k < |own.interfaces| {
        own.interfaces := own.interfaces[k := own.interfaces[k].(rid := rid)];
      } else {
        own.interfaces := own.interfaces + [Iface(Net(iface.ip, iface.mask), iface.mask, rid, false)];
      }
      updateNeighbors := true;
    } else {
      iface.nbrs := iface.nbrs[match_ := iface.nbrs[match_].(lastHello := now)];
    }
  }

  method FindEntry(list: seq<Iface>, net: Addr, mask: Addr, rid: RouterId) returns (k: nat)
    ensures k == FindRid(list, net, mask, rid)
  {
    k := 0;
    while k < |list| && !(list[k].subnet == net && list[k].mask == mask && list[k].rid == rid)
      invariant k <= |list| && FindRid(list, net, mask, rid) == k + FindRid(list[k..], net, mask, rid)
    {
      k := k + 1;
    }
  }

  /** How many entries are on the subnet. */
  method CountSubnet(list: seq<Iface>, net: Addr, mask: Addr) returns (count: nat)
    ensures count == |Rids(list, net, mask)|
  {
    count := 0;
    for k := 0 to |list|
      invariant count == |Rids(list[..k], net, mask)|
    {
      assert list[..k + 1] == list[..k] + [list[k]];
      RidsConcat(list[..k], [list[k]], net, mask);
      if list[k].subnet == net && list[k].mask == mask {
        count := count + 1;
      }
    }
    assert list[..|list|] == list;
  }

  method FirstOnSubnet(list: seq<Iface>, net: Addr, mask: Addr) returns (k: nat)
    ensures k == FindSubnet(list, net, mask)
  {
    k := 0;
    while k < |list| && !(list[k].subnet == net && list[k].mask == mask)
      invariant k <= |list| && FindSubnet(list, net, mask) == k + FindSubnet(list[k..], net, mask)
    {
      k := k + 1;
    }
  }

  /** The entry of one timed-out neighbour: the last one on the subnet is blanked, one of several is removed. */
  method DropEntry(own: PwospfRouter, net: Addr, mask: Addr, rid: RouterId)
    requires Rids(own.interfaces, net, mask) != multiset{}
    modifies own`interfaces
    ensures own.interfaces == DropNeighbor(old(own.interfaces), net, mask, rid)
  {
    var count := CountSubnet(own.interfaces, net, mask);
    assert count > 0;
    if count == 1 {
      var k := FirstOnSubnet(own.interfaces, net, mask);
      own.interfaces := own.interfaces[k := own.interfaces[k].(rid := BLANK)];
    } else {
      var k := FindEntry(own.interfaces, net, mask, rid);
      if k < |own.interfaces| {
        own.interfaces := own.interfaces[..k] + own.interfaces[k + 1..];
      }
    }
  }

  /** The sweep stands at `list[k]`, which was `nbrs[n]`, and its result is what it makes of the rest. */
  ghost predicate Sweeping(own: seq<Iface>, net: Addr, mask: Addr, list: seq<Nbr>, k: nat, nbrs: seq<Nbr>,
                           due: seq<bool>, n: nat, result: (seq<Iface>, seq<Nbr>))
  {
    && k <= |list| && n <= |nbrs| == |due| && list[k..] == nbrs[n..]
    && result == (Sweep(own, net, mask, nbrs[n..], due[n..]).0,
                  list[..k] + Sweep(own, net, mask, nbrs[n..], due[n..]).1)
  }

  lemma SweepingStart(own: seq<Iface>, net: Addr, mask: Addr, nbrs: seq<Nbr>, due: seq<bool>)
    requires |nbrs| == |due|
    ensures Sweeping(own, net, mask, nbrs, 0, nbrs, due, 0, Sweep(own, net, mask, nbrs, due))
  {
    assert nbrs[0..] == nbrs && due[0..] == due;
    assert nbrs[..0] + Sweep(own, net, mask, nbrs, due).1 == Sweep(own, net, mask, nbrs, due).1;
  }

  lemma SweepingAt(own: seq<Iface>, net: Addr, mask: Addr, list: seq<Nbr>, k: nat, nbrs: seq<Nbr>,
                   due: seq<bool>, n: nat, result: (seq<Iface>, seq<Nbr>))
    requires Sweeping(own, net, mask, list, k, nbrs, due, n, result) && k < |list|
    ensures n < |nbrs| && list[k] == nbrs[n]
  {
    assert list[k..][0] == nbrs[n..][0];
  }

  lemma SweepingNext(own: seq<Iface>, net: Addr, mask: Addr, list: seq<Nbr>, k: nat, nbrs: seq<Nbr>,
                     due: seq<bool>, n: nat, result: (seq<Iface>, seq<Nbr>))
    requires Sweeping(own, net, mask, list, k, nbrs, due, n, result) && k < |list|
    ensures n < |nbrs|
    ensures if due[n]
            then Sweeping(DropNeighbor(own, net, mask, list[k].rid), net, mask, list[..k] + list[k + 1..], k,
                          nbrs, due, n + 1, result)
            else Sweeping(own, net, mask, list, k + 1, nbrs, due, n + 1, result)
  {
    assert list[k..][0] == list[k] && list[k..][1..] == list[k + 1..];
    assert nbrs[n..][0] == nbrs[n] && nbrs[n..][1..] == nbrs[n + 1..] && due[n..][1..] == due[n + 1..];
    if due[n] {
      var left := list[..k] + list[k + 1..];
      assert left[k..] == list[k + 1..] && left[..k] == list[..k];
    } else {
      var rest := Sweep(own, net, mask, nbrs[n + 1..], due[n + 1..]).1;
      assert list[..k] + ([list[k]] + rest) == list[..k + 1] + rest;
    }
  }

  lemma SweepingEnd(own: seq<Iface>, net: Addr, mask: Addr, list: seq<Nbr>, k: nat, nbrs: seq<Nbr>,
                    due: seq<bool>, n: nat, result: (seq<Iface>, seq<Nbr>))
    requires Sweeping(own, net, mask, list, k, nbrs, due, n, result) && k == |list|
    ensures result == (own, list)
  {
    assert nbrs[n..] == [] && list[..k] + [] == list;
  }

  /** Drops the `k`-th neighbour of an interface, and its entry in our own router. */
  method RemoveNeighbor(own: PwospfRouter, iface: IfaceEntry, net: Addr, mask: Addr, k: nat)
    requires k < |iface.nbrs| && Rids(own.interfaces, net, mask) != multiset{}
    modifies own`interfaces, iface`nbrs
    ensures own.interfaces == DropNeighbor(old(own.interfaces), net, mask, old(iface.nbrs[k].rid))
    ensures iface.nbrs == old(iface.nbrs[..k] + iface.nbrs[k + 1..])
    ensures Rids(own.interfaces, net, mask) != multiset{}
  {
    DropNeighborRids(own.interfaces, net, mask, iface.nbrs[k].rid, net, mask);
    DropEntry(own, net, mask, iface.nbrs[k].rid);
    iface.nbrs := iface.nbrs[..k] + iface.nbrs[k + 1..];
  }

  /**
   Removes the neighbours of an interface that have been silent for more than three hello
   intervals, and their entries in our own router. `clock` is what each reading of the time
   returns.
   */
  method DetermineTimedoutInterface(own: PwospfRouter, iface: IfaceEntry, interval: int, clock: nat -> int)
    returns (timedOut: bool)
    requires HasEntry(own.interfaces, iface.AsPort())
    modifies own`interfaces, iface`nbrs
    ensures own.interfaces == old(TimeoutStep(own.interfaces, iface.AsPort(), interval, clock)).0
    ensures iface.nbrs == old(TimeoutStep(own.interfaces, iface.AsPort(), interval, clock)).1
    ensures timedOut <==> |iface.nbrs| < old(|iface.nbrs|)
    ensures HasEntry(own.interfaces, iface.AsPort())
  {
    timedOut := SweepNeighbors(own, iface, Net(iface.ip, iface.mask), iface.mask, interval, clock);
  }

  /** The walk of the sweep. */
  method SweepNeighbors(own: PwospfRouter, iface: IfaceEntry, net: Addr, mask: Addr, interval: int, clock: nat -> int)
    returns (timedOut: bool)
    requires Rids(own.interfaces, net, mask) != multiset{}
    modifies own`interfaces, iface`nbrs
    ensures (own.interfaces, iface.nbrs) ==
            old(Sweep(own.interfaces, net, mask, iface.nbrs, Due(iface.nbrs, interval, clock)))
    ensures timedOut <==> |iface.nbrs| < old(|iface.nbrs|)
    ensures Rids(own.interfaces, net, mask) != multiset{}
  {
    timedOut := false;
    ghost var nbrs, due := iface.nbrs, Due(iface.nbrs, interval, clock);
    ghost var result := Sweep(own.interfaces, net, mask, nbrs, due);
    var k, n := 0, 0;
    SweepingStart(own.interfaces, net, mask, nbrs, due);
    while k < |iface.nbrs|
      invariant 0 <= k && 0 <= n && Sweeping(own.interfaces, net, mask, iface.nbrs, k, nbrs, due, n, result)
      invariant Rids(own.interfaces, net, mask) != multiset{}
      invariant |iface.nbrs| <= |nbrs| && (timedOut <==> |iface.nbrs| < |nbrs|)
      decreases |nbrs| - n
    {
      SweepingAt(own.interfaces, net, mask, iface.nbrs, k, nbrs, due, n, result);
      var isDue := clock(n) - iface.nbrs[k].lastHello > 3 * interval;
      k := VisitNeighbor(own, iface, net, mask, k, isDue, nbrs, due, n, result);
      timedOut := timedOut || isDue;
      n := n + 1;
    }
    SweepingEnd(own.interfaces, net, mask, iface.nbrs, k, nbrs, due, n, result);
  }

  /** One neighbour of the walk. */
  method VisitNeighbor(own: PwospfRouter, iface: IfaceEntry, net: Addr, mask: Addr, k: nat, isDue: bool,
                       ghost nbrs: seq<Nbr>, ghost due: seq<bool>, ghost n: nat, ghost result: (seq<Iface>, seq<Nbr>))
    returns (k': nat)
    requires Sweeping(own.interfaces, net, mask, iface.nbrs, k, nbrs, due, n, result) && k < |iface.nbrs|
    requires Rids(own.interfaces, net, mask) != multiset{} && n < |due| && isDue == due[n]
    modifies own`interfaces, iface`nbrs
    ensures Sweeping(own.interfaces, net, mask, iface.nbrs, k', nbrs, due, n + 1, result)
    ensures Rids(own.interfaces, net, mask) != multiset{}
    ensures |iface.nbrs| == |old(iface.nbrs)| - if isDue then 1 else 0
  {
    SweepingNext(own.interfaces, net, mask, iface.nbrs, k, nbrs, due, n, result);
    if isDue {
      RemoveNeighbor(own, iface, net, mask, k);
      k' := k;
    } else {
      k' := k + 1;
    }
  }
}
