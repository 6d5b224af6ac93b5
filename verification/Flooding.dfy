/**
 Link-state flooding as a network of routers (process_pwospf_lsu_packet,
 add_new_router_neighbor, broadcast_pwospf_lsu_packet, construct_pwospf_lsu_packet and the
 timeout thread in or_pwospf.c). The network may lose, duplicate and reorder packets.
 */
module Flooding {
  import opened PwospfTypes
  import opened Advertisements
  import opened Selection

  const INITIAL_TTL: Word16 := 64

  /** A link-state update. */
  datatype Lsu = Lsu(origin: RouterId, seqno: Word16, ttl: Word16, advs: seq<Adv>)

  /** A neighbour: the router it is, our address on the link, and its own. */
  datatype Link = Link(to: RouterId, local: Addr, remote: Addr)

  /** An update on its way to a neighbour, with the address it was sent from. */
  datatype Packet = Packet(dst: RouterId, src: Addr, lsu: Lsu)

  /** What a router stores for another one. */
  datatype Entry = Entry(seqno: Word16, list: seq<Iface>)

  datatype Node = Node(own: seq<Iface>, seqno: Word16, db: map<RouterId, Entry>, nbrs: seq<Link>, broadcast: bool)

  /** The routers, the packets in flight, and for each router the lists it has advertised so far. */
  datatype Network = Network(nodes: map<RouterId, Node>, wire: seq<Packet>, log: map<RouterId, seq<seq<Adv>>>)

  datatype Event =
    | Deliver(at: nat)
    | Lose(at: nat)
    | Duplicate(at: nat)
    | Expire(rid: RouterId, gone: set<RouterId>)
    | Refresh(rid: RouterId)
    | SetOwn(rid: RouterId, own: seq<Iface>)
    | SetNeighbors(rid: RouterId, nbrs: seq<Link>)
    | SetBroadcast(rid: RouterId, on: bool)

  // ----- the handlers, on values

  function OwnAdvs(own: seq<Iface>): (advs: seq<Adv>)
    ensures |advs| == |own| && forall i :: 0 <= i < |own| ==> advs[i] == Key(own[i])
  {
    if own == [] then [] else OwnAdvs(own[..|own| - 1]) + [Key(own[|own| - 1])]
  }

  /** A copy for every neighbour except one at the address the update came from. */
  function Copies(nbrs: seq<Link>, lsu: Lsu, except: int): (ps: seq<Packet>)
    ensures |ps| <= |nbrs| && forall i :: 0 <= i < |ps| ==> ps[i].lsu == lsu
  {
    if nbrs == [] then []
    else
      var rest := Copies(nbrs[..|nbrs| - 1], lsu, except);
      var n := nbrs[|nbrs| - 1];
      if n.remote == except then rest else rest + [Packet(n.to, n.local, lsu)]
  }

  /** `start_lsu_bcast_flood`: advertise our own entry to every neighbour, unless broadcasting is off. */
  function Flood(net: Network, rid: RouterId): Network
    requires rid in net.nodes
  {
    var n := net.nodes[rid];
    if !n.broadcast then net
    else
      var advs := OwnAdvs(n.own);
      var sent := if rid in net.log then net.log[rid] else [];
      Network(net.nodes[rid := n.(seqno := (n.seqno + 1) % 0x1_0000)],
              net.wire + Copies(n.nbrs, Lsu(rid, n.seqno, INITIAL_TTL, advs), -1),
              net.log[rid := sent + [advs]])
  }

  /** The update is accepted: its origin is not in the database, or has a smaller sequence number there. */
  predicate Accepts(db: map<RouterId, Entry>, lsu: Lsu) {
    lsu.origin !in db || lsu.seqno > db[lsu.origin].seqno
  }

  function Accept(db: map<RouterId, Entry>, lsu: Lsu): map<RouterId, Entry> {
    db[lsu.origin := Entry(lsu.seqno, Merge(if lsu.origin in db then db[lsu.origin].list else [], lsu.advs))]
  }

  /** The update tells something new. */
  predicate Changes(db: map<RouterId, Entry>, lsu: Lsu) {
    lsu.origin !in db || db[lsu.origin].list == [] || Stored(db[lsu.origin].list) != Advertised(lsu.advs)
  }

  /** The 16-bit decrement of the time to live. */
  function LowerTtl(ttl: Word16): Word16 {
    (ttl - 1) % 0x1_0000
  }

  /** The copies a router sends on for an accepted update. */
  function Relay(n: Node, p: Packet): seq<Packet> {
    var ttl := LowerTtl(p.lsu.ttl);
    if ttl > 0 then Copies(n.nbrs, p.lsu.(ttl := ttl), p.src) else []
  }

  function Receive(net: Network, p: Packet): Network {
    if p.dst !in net.nodes || p.lsu.origin == p.dst then net
    else
      var n := net.nodes[p.dst];
      if !Accepts(n.db, p.lsu) then net
      else if Changes(n.db, p.lsu) then Flood(Learnt(net, p), p.dst)
      else Learnt(net, p)
  }

  function Without(ps: seq<Packet>, k: nat): seq<Packet>
    requires k < |ps|
  {
    ps[..k] + ps[k + 1..]
  }

  function Step(net: Network, e: Event): Network {
    match e
    case Deliver(k) =>
      if k < |net.wire| then Receive(net.(wire := Without(net.wire, k)), net.wire[k]) else net
    case Lose(k) =>
      if k < |net.wire| then net.(wire := Without(net.wire, k)) else net
    case Duplicate(k) =>
      if k < |net.wire| then net.(wire := net.wire + [net.wire[k]]) else net
    case Expire(rid, gone) =>
      if rid !in net.nodes || gone * net.nodes[rid].db.Keys == {} then net
      else Flood(Forgotten(net, rid, gone), rid)
    case Refresh(rid) =>
      if rid in net.nodes then Flood(net, rid) else net
    case SetOwn(rid, own) =>
      if rid in net.nodes then net.(nodes := net.nodes[rid := net.nodes[rid].(own := own)]) else net
    case SetNeighbors(rid, nbrs) =>
      if rid in net.nodes then net.(nodes := net.nodes[rid := net.nodes[rid].(nbrs := nbrs)]) else net
    case SetBroadcast(rid, on) =>
      if rid in net.nodes then net.(nodes := net.nodes[rid := net.nodes[rid].(broadcast := on)]) else net
  }

  /** A run: its states, and the event between each of them and the next. */
  datatype Run = Run(states: seq<Network>, events: seq<Event>) {
    ghost predicate Moves(i: nat) {
      i < |events| && i + 1 < |states| && states[i + 1] == Step(states[i], events[i])
    }

    ghost predicate Valid() {
      |states| == |events| + 1 && forall i {:trigger Moves(i)} :: 0 <= i < |events| ==> Moves(i)
    }
  }

  // ----- database agreement

  /** Advertised subnets are masked, as the hello and timeout handlers keep them. */
  ghost predicate GoodEvent(e: Event) {
    e.SetOwn? ==> MaskedEntries(e.own)
  }

  /** The router has not yet advertised more lists than there are sequence numbers. */
  predicate Unwrapped(sent: seq<seq<Adv>>) {
    |sent| <= 0x1_0000
  }

  function AsSet(advs: seq<Adv>): set<Adv> {
    set a | a in advs
  }

  ghost predicate NodeOk(net: Network, rid: RouterId)
    requires rid in net.nodes && rid in net.log
  {
    var n := net.nodes[rid];
    && n.seqno == |net.log[rid]| % 0x1_0000 && MaskedEntries(n.own)
    && (forall k :: 0 <= k < |net.log[rid]| ==> AllMasked(net.log[rid][k]))
    && rid !in n.db
    && forall o :: o in n.db ==> EntryOk(net.log, o, n.db[o])
  }

  /** The stored list is, as a set, what the origin advertised under the stored sequence number. */
  ghost predicate EntryOk(log: map<RouterId, seq<seq<Adv>>>, o: RouterId, e: Entry) {
    o in log && (Unwrapped(log[o]) ==> e.seqno < |log[o]| && Stored(e.list) == AsSet(log[o][e.seqno]))
  }

  ghost predicate PacketOk(log: map<RouterId, seq<seq<Adv>>>, p: Packet) {
    var l := p.lsu;
    && l.origin in log && 1 <= l.ttl <= INITIAL_TTL && AllMasked(l.advs)
    && (Unwrapped(log[l.origin]) ==> l.seqno < |log[l.origin]| && l.advs == log[l.origin][l.seqno])
  }

  ghost predicate Inv(net: Network) {
    && net.nodes.Keys == net.log.Keys
    && (forall rid :: rid in net.nodes ==> NodeOk(net, rid))
    && (forall i :: 0 <= i < |net.wire| ==> PacketOk(net.log, net.wire[i]))
  }

  /** Nothing received, nothing sent. */
  ghost predicate Started(net: Network) {
    && net.nodes.Keys == net.log.Keys && net.wire == []
    && forall rid :: rid in net.nodes ==>
         && net.nodes[rid].db == map[] && net.nodes[rid].seqno == 0 && net.log[rid] == []
         && MaskedEntries(net.nodes[rid].own)
  }

  /** Every router agrees with every origin it stores, as long as that origin's sequence numbers have not wrapped. */
  ghost predicate Agreement(net: Network) {
    forall x, o :: x in net.nodes && o in net.nodes[x].db && o in net.log && Unwrapped(net.log[o]) ==>
      var e := net.nodes[x].db[o];
      e.seqno < |net.log[o]| && Stored(e.list) == AsSet(net.log[o][e.seqno])
  }

  lemma OwnAdvsMasked(own: seq<Iface>)
    requires MaskedEntries(own)
    ensures AllMasked(OwnAdvs(own))
  {
  }

  /** The logs only grow. */
  ghost predicate Extends(log: map<RouterId, seq<seq<Adv>>>, log': map<RouterId, seq<seq<Adv>>>) {
    forall o :: o in log ==> o in log' && log[o] <= log'[o]
  }

  lemma EntryStaysOk(log: map<RouterId, seq<seq<Adv>>>, log': map<RouterId, seq<seq<Adv>>>, o: RouterId, e: Entry)
    requires Extends(log, log') && EntryOk(log, o, e)
    ensures EntryOk(log', o, e)
  {
  }

  lemma PacketStaysOk(log: map<RouterId, seq<seq<Adv>>>, log': map<RouterId, seq<seq<Adv>>>, p: Packet)
    requires Extends(log, log') && PacketOk(log, p)
    ensures PacketOk(log', p)
  {
  }

  lemma FloodKeepsNode(net: Network, rid: RouterId, x: RouterId)
    requires Inv(net) && rid in net.nodes && x in net.nodes && net.nodes[rid].broadcast
    ensures NodeOk(Flood(net, rid), x)
  {
    var net' := Flood(net, rid);
    assert NodeOk(net, rid) && NodeOk(net, x);
    OwnAdvsMasked(net.nodes[rid].own);
    forall o | o in net'.nodes[x].db ensures EntryOk(net'.log, o, net'.nodes[x].db[o]) {
      EntryStaysOk(net.log, net'.log, o, net.nodes[x].db[o]);
    }
  }

  lemma FloodKeepsInv(net: Network, rid: RouterId)
    requires Inv(net) && rid in net.nodes
    ensures Inv(Flood(net, rid)) && Extends(net.log, Flood(net, rid).log)
  {
    var net', n := Flood(net, rid), net.nodes[rid];
    if n.broadcast {
      assert NodeOk(net, rid);
      OwnAdvsMasked(n.own);
      forall x | x in net'.nodes ensures NodeOk(net', x) {
        FloodKeepsNode(net, rid, x);
      }
      forall i | 0 <= i < |net'.wire| ensures PacketOk(net'.log, net'.wire[i]) {
        if i < |net.wire| {
          PacketStaysOk(net.log, net'.log, net.wire[i]);
        }
      }
    }
  }

  lemma AcceptKeepsEntries(net: Network, p: Packet, o: RouterId)
    requires Inv(net) && PacketOk(net.log, p) && p.dst in net.nodes && Accepts(net.nodes[p.dst].db, p.lsu)
    requires o in Accept(net.nodes[p.dst].db, p.lsu)
    ensures EntryOk(net.log, o, Accept(net.nodes[p.dst].db, p.lsu)[o])
  {
    var db := net.nodes[p.dst].db;
    assert NodeOk(net, p.dst);
    if o == p.lsu.origin {
      MaskedMergeIsExact(if o in db then db[o].list else [], p.lsu.advs);
    }
  }

  /** The network once an accepted update is stored and sent on, and before any flood of the receiver's own. */
  function Learnt(net: Network, p: Packet): Network
    requires p.dst in net.nodes
  {
    var n := net.nodes[p.dst];
    net.(nodes := net.nodes[p.dst := n.(db := Accept(n.db, p.lsu))], wire := net.wire + Relay(n, p))
  }

  lemma LearntNode(net: Network, p: Packet, x: RouterId)
    requires Inv(net) && PacketOk(net.log, p) && p.dst in net.nodes && p.lsu.origin != p.dst
    requires Accepts(net.nodes[p.dst].db, p.lsu) && x in net.nodes
    ensures NodeOk(Learnt(net, p), x)
  {
    assert NodeOk(net, x);
    if x == p.dst {
      forall o | o in Learnt(net, p).nodes[x].db ensures EntryOk(net.log, o, Learnt(net, p).nodes[x].db[o]) {
        AcceptKeepsEntries(net, p, o);
      }
    }
  }

  lemma RelayedOk(log: map<RouterId, seq<seq<Adv>>>, n: Node, p: Packet)
    requires PacketOk(log, p)
    ensures forall i :: 0 <= i < |Relay(n, p)| ==> PacketOk(log, Relay(n, p)[i])
  {
  }

  lemma LearntKeepsInv(net: Network, p: Packet)
    requires Inv(net) && PacketOk(net.log, p) && p.dst in net.nodes && p.lsu.origin != p.dst
    requires Accepts(net.nodes[p.dst].db, p.lsu)
    ensures Inv(Learnt(net, p))
  {
    var net' := Learnt(net, p);
    forall x | x in net'.nodes ensures NodeOk(net', x) {
      LearntNode(net, p, x);
    }
    RelayedOk(net.log, net.nodes[p.dst], p);
    forall i | 0 <= i < |net'.wire| ensures PacketOk(net'.log, net'.wire[i]) {
      if i < |net.wire| {
        assert net'.wire[i] == net.wire[i];
      } else {
        assert net'.wire[i] == Relay(net.nodes[p.dst], p)[i - |net.wire|];
      }
    }
  }

  lemma ReceiveKeepsInv(net: Network, p: Packet)
    requires Inv(net) && PacketOk(net.log, p)
    ensures Inv(Receive(net, p)) && Extends(net.log, Receive(net, p).log)
  {
    if p.dst in net.nodes && p.lsu.origin != p.dst && Accepts(net.nodes[p.dst].db, p.lsu) {
      LearntKeepsInv(net, p);
      if Changes(net.nodes[p.dst].db, p.lsu) {
        FloodKeepsInv(Learnt(net, p), p.dst);
      }
    }
  }

  /** A change that touches one node, keeps its number and at most drops entries. */
  lemma NodeChangeKeepsInv(net: Network, rid: RouterId, n: Node)
    requires Inv(net) && rid in net.nodes && n.seqno == net.nodes[rid].seqno && MaskedEntries(n.own)
    requires forall o :: o in n.db ==> o in net.nodes[rid].db && n.db[o] == net.nodes[rid].db[o]
    ensures Inv(net.(nodes := net.nodes[rid := n]))
  {
    var net' := net.(nodes := net.nodes[rid := n]);
    forall x | x in net'.nodes ensures NodeOk(net', x) {
      assert NodeOk(net, x);
    }
  }

  /** The network with some entries of a router forgotten. */
  function Forgotten(net: Network, rid: RouterId, gone: set<RouterId>): Network
    requires rid in net.nodes
  {
    net.(nodes := net.nodes[rid := net.nodes[rid].(db := net.nodes[rid].db - gone)])
  }

  lemma ForgottenKeepsInv(net: Network, rid: RouterId, gone: set<RouterId>)
    requires Inv(net) && rid in net.nodes
    ensures Inv(Forgotten(net, rid, gone))
  {
    assert NodeOk(net, rid);
    NodeChangeKeepsInv(net, rid, net.nodes[rid].(db := net.nodes[rid].db - gone));
  }

  lemma WireChangeKeepsInv(net: Network, wire: seq<Packet>)
    requires Inv(net) && forall i :: 0 <= i < |wire| ==> wire[i] in net.wire
    ensures Inv(net.(wire := wire))
  {
    var net' := net.(wire := wire);
    forall x | x in net'.nodes ensures NodeOk(net', x) {
      assert NodeOk(net, x);
    }
    forall i | 0 <= i < |wire| ensures PacketOk(net.log, wire[i]) {
      var j :| 0 <= j < |net.wire| && net.wire[j] == wire[i];
    }
  }

  lemma DeliverKeepsInv(net: Network, k: nat)
    requires Inv(net) && k < |net.wire|
    ensures Inv(Step(net, Deliver(k)))
  {
    assert PacketOk(net.log, net.wire[k]);
    WireChangeKeepsInv(net, Without(net.wire, k));
    ReceiveKeepsInv(net.(wire := Without(net.wire, k)), net.wire[k]);
  }

  lemma ExpireKeepsInv(net: Network, rid: RouterId, gone: set<RouterId>)
    requires Inv(net) && rid in net.nodes
    ensures Inv(Step(net, Expire(rid, gone)))
  {
    ForgottenKeepsInv(net, rid, gone);
    FloodKeepsInv(Forgotten(net, rid, gone), rid);
  }

  /** What a router is told about itself by its own ports and its operator. */
  predicate Sets(e: Event, rid: RouterId) {
    match e
    case SetOwn(x, _) => x == rid
    case SetNeighbors(x, _) => x == rid
    case SetBroadcast(x, _) => x == rid
    case _ => false
  }

  lemma SetKeepsInv(net: Network, e: Event, rid: RouterId)
    requires Inv(net) && GoodEvent(e) && Sets(e, rid)
    ensures Inv(Step(net, e))
  {
    if rid in net.nodes {
      assert NodeOk(net, rid);
      NodeChangeKeepsInv(net, rid, Step(net, e).nodes[rid]);
    }
  }

  lemma StepKeepsInv(net: Network, e: Event)
    requires Inv(net) && GoodEvent(e)
    ensures Inv(Step(net, e))
  {
    match e
    case Deliver(k) =>
      if k < |net.wire| {
        DeliverKeepsInv(net, k);
      }
    case Lose(k) =>
      if k < |net.wire| {
        WireChangeKeepsInv(net, Without(net.wire, k));
      }
    case Duplicate(k) =>
      if k < |net.wire| {
        WireChangeKeepsInv(net, net.wire + [net.wire[k]]);
      }
    case Expire(rid, gone) =>
      if rid in net.nodes {
        ExpireKeepsInv(net, rid, gone);
      }
    case Refresh(rid) =>
      if rid in net.nodes {
        FloodKeepsInv(net, rid);
      }
    case SetOwn(rid, _) => SetKeepsInv(net, e, rid);
    case SetNeighbors(rid, _) => SetKeepsInv(net, e, rid);
    case SetBroadcast(rid, _) => SetKeepsInv(net, e, rid);
  }

  /** The run sets no router's own entry to unmasked subnets. */
  ghost predicate GoodRun(r: Run) {
    r.Valid() && forall i :: 0 <= i < |r.events| ==> GoodEvent(r.events[i])
  }

  lemma {:induction false} RunKeepsInv(r: Run, k: nat)
    requires GoodRun(r) && Inv(r.states[0]) && k < |r.states|
    ensures Inv(r.states[k])
  {
    if k > 0 {
      RunKeepsInv(r, k - 1);
      assert r.Moves(k - 1);
      StepKeepsInv(r.states[k - 1], r.events[k - 1]);
    }
  }

  lemma StartIsInv(net: Network)
    requires Started(net)
    ensures Inv(net)
  {
    assert forall rid :: rid in net.nodes ==> NodeOk(net, rid);
  }

  lemma InvAgrees(net: Network)
    requires Inv(net)
    ensures Agreement(net)
  {
    forall x, o | x in net.nodes && o in net.nodes[x].db && o in net.log && Unwrapped(net.log[o])
      ensures net.nodes[x].db[o].seqno < |net.log[o]|
      ensures Stored(net.nodes[x].db[o].list) == AsSet(net.log[o][net.nodes[x].db[o].seqno])
    {
      assert NodeOk(net, x) && EntryOk(net.log, o, net.nodes[x].db[o]);
    }
  }

  /**
   Database agreement over every run: whatever is lost, duplicated, reordered or timed out,
   a stored list is exactly what its origin advertised under the stored sequence number.
   */
  lemma RunAgrees(r: Run, k: nat)
    requires GoodRun(r) && Started(r.states[0]) && k < |r.states|
    ensures Agreement(r.states[k])
  {
    StartIsInv(r.states[0]);
    RunKeepsInv(r, k);
    InvAgrees(r.states[k]);
  }

  // ----- sequence numbers only grow

  /** Router `x` stores an entry for `o`. */
  predicate Stores(net: Network, x: RouterId, o: RouterId) {
    x in net.nodes && o in net.nodes[x].db
  }

  /** `x` accepts an update of `o` numbered `q` in this step. */
  predicate AcceptsAt(net: Network, e: Event, x: RouterId, o: RouterId, q: Word16) {
    && e.Deliver? && e.at < |net.wire|
    && var p := net.wire[e.at];
       && p.dst == x && p.lsu.origin == o && p.lsu.seqno == q && x != o
       && x in net.nodes && Accepts(net.nodes[x].db, p.lsu)
  }

  lemma FloodKeepsDatabases(net: Network, rid: RouterId, x: RouterId)
    requires rid in net.nodes && x in net.nodes
    ensures x in Flood(net, rid).nodes && Flood(net, rid).nodes[x].db == net.nodes[x].db
  {
  }

  /** While an entry is kept its sequence number never decreases, and accepting an update raises it to that update's. */
  lemma StepRaisesSeqno(net: Network, e: Event, x: RouterId, o: RouterId)
    requires Stores(Step(net, e), x, o)
    ensures Stores(net, x, o) ==> net.nodes[x].db[o].seqno <= Step(net, e).nodes[x].db[o].seqno
    ensures forall q :: AcceptsAt(net, e, x, o, q) ==>
              && Step(net, e).nodes[x].db[o].seqno == q
              && (Stores(net, x, o) ==> net.nodes[x].db[o].seqno < q)
  {
    if e.Deliver? && e.at < |net.wire| {
      var p := net.wire[e.at];
      if p.dst in net.nodes && p.lsu.origin != p.dst && Accepts(net.nodes[p.dst].db, p.lsu) && x in net.nodes {
        FloodKeepsDatabases(Learnt(net.(wire := Without(net.wire, e.at)), p), p.dst, x);
      }
    }
  }

  /** `x` keeps its entry for `o` from the `i`-th state to the `j`-th. */
  ghost predicate Alive(r: Run, x: RouterId, o: RouterId, i: nat, j: nat) {
    j < |r.states| && forall k :: i <= k <= j ==> Stores(r.states[k], x, o)
  }

  lemma {:induction false} SeqnoGrows(r: Run, x: RouterId, o: RouterId, i: nat, j: nat)
    requires r.Valid() && i <= j && Alive(r, x, o, i, j)
    ensures r.states[i].nodes[x].db[o].seqno <= r.states[j].nodes[x].db[o].seqno
    decreases j
  {
    if i < j {
      SeqnoGrows(r, x, o, i, j - 1);
      assert r.Moves(j - 1);
      StepRaisesSeqno(r.states[j - 1], r.events[j - 1], x, o);
    }
  }

  /**
   In the life of one entry an update is accepted at most once, so a router sends a given
   update on at most once.
   */
  lemma AcceptedOnce(r: Run, x: RouterId, o: RouterId, q: Word16, i: nat, j: nat)
    requires r.Valid() && i < j < |r.events| && Alive(r, x, o, i + 1, j)
    requires AcceptsAt(r.states[i], r.events[i], x, o, q)
    ensures !AcceptsAt(r.states[j], r.events[j], x, o, q)
  {
    SeqnoGrows(r, x, o, i + 1, j);
    AcceptingStores(r, x, o, q, i);
    StoredIsRefused(r.states[j], r.events[j], x, o, q);
  }

  lemma AcceptingStores(r: Run, x: RouterId, o: RouterId, q: Word16, i: nat)
    requires r.Valid() && i < |r.events| && Stores(r.states[i + 1], x, o)
    requires AcceptsAt(r.states[i], r.events[i], x, o, q)
    ensures r.states[i + 1].nodes[x].db[o].seqno == q
  {
    assert r.Moves(i);
    StepRaisesSeqno(r.states[i], r.events[i], x, o);
  }

  lemma StoredIsRefused(s: Network, e: Event, x: RouterId, o: RouterId, q: Word16)
    requires Stores(s, x, o) && s.nodes[x].db[o].seqno >= q
    ensures !AcceptsAt(s, e, x, o, q)
  {
  }

  // ----- who is sent what

  /** The link leads to somebody else than the address. */
  ghost function Elsewhere(except: int): Link -> bool {
    (n: Link) => n.remote != except
  }

  /** The packet carries the update over the link. */
  ghost function Over(lsu: Lsu): (Link, Packet) -> bool {
    (n: Link, p: Packet) => p.dst == n.to && p.src == n.local && p.lsu == lsu
  }

  lemma {:induction false} CopiesAreDrawn(nbrs: seq<Link>, lsu: Lsu, except: int) returns (from: seq<nat>)
    ensures Drawn(Elsewhere(except), Over(lsu), nbrs, Copies(nbrs, lsu, except), from)
  {
    from := [];
    if nbrs != [] {
      var front, n := nbrs[..|nbrs| - 1], nbrs[|nbrs| - 1];
      from := CopiesAreDrawn(front, lsu, except);
      assert front + [n] == nbrs;
      if n.remote == except {
        DrawnPast(Elsewhere(except), Over(lsu), front, n, Copies(front, lsu, except), from);
      } else {
        DrawnNext(Elsewhere(except), Over(lsu), front, n, Copies(front, lsu, except), Packet(n.to, n.local, lsu), from);
        from := from + [|front|];
      }
    }
  }

  /** The packets are one copy of the update for each link that does not lead to the address, in order. */
  ghost predicate OneEach(nbrs: seq<Link>, lsu: Lsu, except: int, ps: seq<Packet>) {
    exists from :: Drawn(Elsewhere(except), Over(lsu), nbrs, ps, from)
  }

  /** The advertisements are our own entries, one by one. */
  ghost predicate Lists(own: seq<Iface>, advs: seq<Adv>) {
    && |advs| == |own|
    && forall i :: 0 <= i < |own| ==>
         advs[i].sub == own[i].subnet && advs[i].mask == own[i].mask && advs[i].rid == own[i].rid
  }

  /** A copy of the update for every link. */
  predicate ToAll(nbrs: seq<Link>, lsu: Lsu, ps: seq<Packet>) {
    |ps| == |nbrs| && forall i :: 0 <= i < |nbrs| ==> ps[i] == Packet(nbrs[i].to, nbrs[i].local, lsu)
  }

  lemma {:induction false} CopiesToAll(nbrs: seq<Link>, lsu: Lsu)
    ensures ToAll(nbrs, lsu, Copies(nbrs, lsu, -1))
  {
    if nbrs != [] {
      var front, n := nbrs[..|nbrs| - 1], nbrs[|nbrs| - 1];
      CopiesToAll(front, lsu);
      assert front + [n] == nbrs;
      ToAllNext(front, n, lsu, Copies(front, lsu, -1));
    }
  }

  lemma ToAllNext(nbrs: seq<Link>, n: Link, lsu: Lsu, ps: seq<Packet>)
    requires ToAll(nbrs, lsu, ps)
    ensures ToAll(nbrs + [n], lsu, ps + [Packet(n.to, n.local, lsu)])
  {
  }

  /**
   What a flood does: every neighbour is sent our list under our number with a time to live of
   64, and the number is taken. A router that may not broadcast does nothing.
   */
  ghost predicate Floods(net: Network, net': Network, rid: RouterId)
    requires rid in net.nodes
  {
    if !net.nodes[rid].broadcast then net' == net else exists advs, ps :: FloodsWith(net, net', rid, advs, ps)
  }

  ghost predicate FloodsWith(net: Network, net': Network, rid: RouterId, advs: seq<Adv>, ps: seq<Packet>)
    requires rid in net.nodes
  {
    var n := net.nodes[rid];
    && Lists(n.own, advs) && ToAll(n.nbrs, Lsu(rid, n.seqno, 64, advs), ps)
    && net'.wire == net.wire + ps
    && net'.log == net.log[rid := (if rid in net.log then net.log[rid] else []) + [advs]]
    && net'.nodes == net.nodes[rid := n.(seqno := if n.seqno == 0xFFFF then 0 else n.seqno + 1)]
  }

  lemma FloodWith(net: Network, rid: RouterId, advs: seq<Adv>, ps: seq<Packet>)
    requires rid in net.nodes && net.nodes[rid].broadcast && advs == OwnAdvs(net.nodes[rid].own)
    requires ToAll(net.nodes[rid].nbrs, Lsu(rid, net.nodes[rid].seqno, 64, advs), ps)
    requires ps == Copies(net.nodes[rid].nbrs, Lsu(rid, net.nodes[rid].seqno, INITIAL_TTL, advs), -1)
    ensures FloodsWith(net, Flood(net, rid), rid, advs, ps)
  {
    assert forall i :: 0 <= i < |net.nodes[rid].own| ==> advs[i] == Key(net.nodes[rid].own[i]);
  }

  lemma FloodFloods(net: Network, rid: RouterId)
    requires rid in net.nodes
    ensures Floods(net, Flood(net, rid), rid)
  {
    var n := net.nodes[rid];
    if n.broadcast {
      var advs := OwnAdvs(n.own);
      var lsu := Lsu(rid, n.seqno, INITIAL_TTL, advs);
      CopiesToAll(n.nbrs, lsu);
      FloodWith(net, rid, advs, Copies(n.nbrs, lsu, -1));
    }
  }

  /** The update tells something we did not know: a router, its first list, or another set of advertisements. */
  ghost predicate IsNews(db: map<RouterId, Entry>, lsu: Lsu) {
    || lsu.origin !in db || db[lsu.origin].list == []
    || exists a :: Holds(db[lsu.origin].list, a) != Told(lsu.advs, a)
  }

  /** The list has an entry for the advertisement. */
  ghost predicate Holds(list: seq<Iface>, a: Adv) {
    exists i :: 0 <= i < |list| && list[i].subnet == a.sub && list[i].mask == a.mask && list[i].rid == a.rid
  }

  /** The update has it, once its subnet is masked. */
  ghost predicate Told(advs: seq<Adv>, a: Adv) {
    exists j :: 0 <= j < |advs| && Net(advs[j].sub, advs[j].mask) == a.sub && advs[j].mask == a.mask
                && advs[j].rid == a.rid
  }

  /**
   What the delivery of an accepted update does: the receiver's entry for its origin takes the
   number and the merged list; every link but those to where it came from is sent a copy that
   lives one hop less, unless it was at its last; and a flood follows exactly if it is news.
   */
  ghost predicate Spreads(net: Network, p: Packet, net': Network)
    requires p.dst in net.nodes
  {
    exists ps, mid ::
      && SpreadsWith(net, p, ps, mid)
      && if IsNews(net.nodes[p.dst].db, p.lsu) then Floods(mid, net', p.dst) else net' == mid
  }

  ghost predicate SpreadsWith(net: Network, p: Packet, ps: seq<Packet>, mid: Network)
    requires p.dst in net.nodes
  {
    var n, l := net.nodes[p.dst], p.lsu;
    && (if l.ttl == 1 then ps == []
        else OneEach(n.nbrs, l.(ttl := if l.ttl == 0 then 0xFFFF else l.ttl - 1), p.src, ps))
    && mid.wire == net.wire + ps && mid.log == net.log
    && mid.nodes.Keys == net.nodes.Keys && (forall x :: x in net.nodes && x != p.dst ==> mid.nodes[x] == net.nodes[x])
    && mid.nodes[p.dst] == n.(db := mid.nodes[p.dst].db)
    && mid.nodes[p.dst].db.Keys == n.db.Keys + {l.origin}
    && (forall o :: o in n.db && o != l.origin ==> mid.nodes[p.dst].db[o] == n.db[o])
    && mid.nodes[p.dst].db[l.origin].seqno == l.seqno
    && mid.nodes[p.dst].db[l.origin].list == Merge(if l.origin in n.db then n.db[l.origin].list else [], l.advs)
  }

  lemma StoredIff(list: seq<Iface>, a: Adv)
    ensures a in Stored(list) <==> Holds(list, a)
  {
    if Holds(list, a) {
      var i :| 0 <= i < |list| && list[i].subnet == a.sub && list[i].mask == a.mask && list[i].rid == a.rid;
      assert Key(list[i]) == a && list[i] in list;
    }
  }

  lemma AdvertisedIff(advs: seq<Adv>, a: Adv)
    ensures a in Advertised(advs) <==> Told(advs, a)
  {
    if Told(advs, a) {
      var j :| 0 <= j < |advs| && Net(advs[j].sub, advs[j].mask) == a.sub && advs[j].mask == a.mask
               && advs[j].rid == a.rid;
      assert Masked(advs[j]) == a && advs[j] in advs;
    }
  }

  lemma NewsIff(db: map<RouterId, Entry>, lsu: Lsu)
    ensures Changes(db, lsu) <==> IsNews(db, lsu)
  {
    if lsu.origin in db {
      var list := db[lsu.origin].list;
      forall a
        ensures a in Stored(list) <==> Holds(list, a)
        ensures a in Advertised(lsu.advs) <==> Told(lsu.advs, a)
      {
        StoredIff(list, a);
        AdvertisedIff(lsu.advs, a);
      }
      if forall a :: Holds(list, a) == Told(lsu.advs, a) {
        assert Stored(list) == Advertised(lsu.advs);
      }
    }
  }

  /** A delivery to another router than its origin spreads an update that is newer than what is stored, and no other. */
  lemma DeliverySpreads(net: Network, p: Packet)
    requires p.dst in net.nodes && p.lsu.origin != p.dst
    ensures var db := net.nodes[p.dst].db;
            if p.lsu.origin !in db || db[p.lsu.origin].seqno < p.lsu.seqno then Spreads(net, p, Receive(net, p))
            else Receive(net, p) == net
  {
    var n := net.nodes[p.dst];
    if Accepts(n.db, p.lsu) {
      var mid, ps := Learnt(net, p), Relay(n, p);
      RelayIsOneEach(n, p);
      NewsIff(n.db, p.lsu);
      FloodFloods(mid, p.dst);
      assert SpreadsWith(net, p, ps, mid);
    }
  }

  lemma RelayIsOneEach(n: Node, p: Packet)
    ensures var l := p.lsu;
            if l.ttl == 1 then Relay(n, p) == []
            else OneEach(n.nbrs, l.(ttl := if l.ttl == 0 then 0xFFFF else l.ttl - 1), p.src, Relay(n, p))
  {
    if p.lsu.ttl != 1 {
      var from := CopiesAreDrawn(n.nbrs, p.lsu.(ttl := LowerTtl(p.lsu.ttl)), p.src);
    }
  }

  /** The second network lacks these entries of the router's database, and nothing else. */
  ghost predicate Forgets(net: Network, rid: RouterId, gone: set<RouterId>, mid: Network)
    requires rid in net.nodes
  {
    && mid.wire == net.wire && mid.log == net.log && mid.nodes.Keys == net.nodes.Keys
    && (forall x :: x in net.nodes && x != rid ==> mid.nodes[x] == net.nodes[x])
    && mid.nodes[rid] == net.nodes[rid].(db := mid.nodes[rid].db)
    && (forall o :: o in mid.nodes[rid].db <==> o in net.nodes[rid].db && o !in gone)
    && forall o :: o in mid.nodes[rid].db ==> mid.nodes[rid].db[o] == net.nodes[rid].db[o]
  }

  /** A timeout forgets the entries, and a flood follows exactly if there was one; a refresh floods. */
  lemma TimeoutForgets(net: Network, rid: RouterId, gone: set<RouterId>)
    requires rid in net.nodes
    ensures Floods(net, Step(net, Refresh(rid)), rid)
    ensures var net' := Step(net, Expire(rid, gone));
            if exists o :: o in gone && o in net.nodes[rid].db
            then exists mid :: Forgets(net, rid, gone, mid) && Floods(mid, net', rid) else net' == net
  {
    FloodFloods(net, rid);
    var mid := Forgotten(net, rid, gone);
    FloodFloods(mid, rid);
    assert Forgets(net, rid, gone, mid);
    if o :| o in gone && o in net.nodes[rid].db {
      assert o in gone * net.nodes[rid].db.Keys;
    }
  }

  /** So each neighbour of the receiver elsewhere has the update on its way to it. */
  lemma NeighborIsSent(net: Network, p: Packet, k: nat)
    requires p.dst in net.nodes && p.lsu.origin != p.dst && Accepts(net.nodes[p.dst].db, p.lsu) && p.lsu.ttl >= 2
    requires k < |net.nodes[p.dst].nbrs| && net.nodes[p.dst].nbrs[k].remote != p.src
    ensures var n := net.nodes[p.dst].nbrs[k];
            Packet(n.to, n.local, p.lsu.(ttl := p.lsu.ttl - 1)) in Receive(net, p).wire
  {
    var nbrs, l := net.nodes[p.dst].nbrs, p.lsu.(ttl := p.lsu.ttl - 1);
    var ps := Relay(net.nodes[p.dst], p);
    RelayIsOneEach(net.nodes[p.dst], p);
    var from :| Drawn(Elsewhere(p.src), Over(l), nbrs, ps, from);
    assert Elsewhere(p.src)(nbrs[k]);
    var b :| 0 <= b < |from| && from[b] == k;
    assert Over(l)(nbrs[k], ps[b]);
    RelayIsSent(net, p, ps[b]);
  }

  lemma RelayIsSent(net: Network, p: Packet, r: Packet)
    requires p.dst in net.nodes && p.lsu.origin != p.dst && Accepts(net.nodes[p.dst].db, p.lsu)
    requires r in Relay(net.nodes[p.dst], p)
    ensures r in Receive(net, p).wire
  {
    assert Learnt(net, p).wire == net.wire + Relay(net.nodes[p.dst], p);
  }

  /**
   A copy sent on for `p` over one of the links: the same update with a strictly lower, still
   positive time to live, and not to the address that `p` came from.
   */
  ghost predicate SentOn(nbrs: seq<Link>, p: Packet, r: Packet) {
    && (exists n :: n in nbrs && n.remote != p.src && r.dst == n.to && r.src == n.local)
    && r.lsu == p.lsu.(ttl := r.lsu.ttl) && 1 <= r.lsu.ttl == p.lsu.ttl - 1
  }

  /** A first-hand packet of router `rid`. */
  predicate FirstHand(rid: RouterId, r: Packet) {
    r.lsu.origin == rid && r.lsu.ttl == INITIAL_TTL
  }

  /** What a delivered packet puts on the wire: nothing unless it is accepted, and never a copy that lives as long. */
  lemma ReceiveSends(net: Network, p: Packet)
    requires p.dst in net.nodes && 1 <= p.lsu.ttl
    ensures net.wire <= Receive(net, p).wire
    ensures p.lsu.origin == p.dst || !Accepts(net.nodes[p.dst].db, p.lsu) ==> Receive(net, p) == net
    ensures forall i :: |net.wire| <= i < |Receive(net, p).wire| ==>
              SentOn(net.nodes[p.dst].nbrs, p, Receive(net, p).wire[i]) || FirstHand(p.dst, Receive(net, p).wire[i])
  {
    var n := net.nodes[p.dst];
    forall i | 0 <= i < |Relay(n, p)| ensures SentOn(n.nbrs, p, Relay(n, p)[i]) {
      RelayIsSentOn(n, p, i);
    }
  }

  lemma RelayIsSentOn(n: Node, p: Packet, i: nat)
    requires 1 <= p.lsu.ttl && i < |Relay(n, p)|
    ensures SentOn(n.nbrs, p, Relay(n, p)[i])
  {
    var l := p.lsu.(ttl := p.lsu.ttl - 1);
    RelayIsOneEach(n, p);
    var from :| Drawn(Elsewhere(p.src), Over(l), n.nbrs, Relay(n, p), from);
    assert Elsewhere(p.src)(n.nbrs[from[i]]) && Over(l)(n.nbrs[from[i]], Relay(n, p)[i]);
  }

  // ----- every flood dies out

  function Pow(b: nat, e: nat): nat {
    if e == 0 then 1 else b * Pow(b, e - 1)
  }

  /** A packet carries the update of `o` numbered `q`. */
  predicate Carries(p: Packet, o: RouterId, q: Word16) {
    p.lsu.origin == o && p.lsu.seqno == q
  }

  /** How many deliveries a packet can still cause when no router has more than `d` neighbours. */
  function Weight(p: Packet, o: RouterId, q: Word16, d: nat): nat {
    if Carries(p, o, q) then Pow(d + 1, p.lsu.ttl) else 0
  }

  function Potential(ps: seq<Packet>, o: RouterId, q: Word16, d: nat): nat {
    if ps == [] then 0 else Potential(ps[..|ps| - 1], o, q, d) + Weight(ps[|ps| - 1], o, q, d)
  }

  lemma {:induction false} PotentialConcat(a: seq<Packet>, b: seq<Packet>, o: RouterId, q: Word16, d: nat)
    ensures Potential(a + b, o, q, d) == Potential(a, o, q, d) + Potential(b, o, q, d)
  {
    if b == [] {
      assert a + b == a;
    } else {
      var n := |b| - 1;
      assert (a + b)[..|a + b| - 1] == a + b[..n];
      PotentialConcat(a, b[..n], o, q, d);
    }
  }

  lemma PotentialWithout(ps: seq<Packet>, k: nat, o: RouterId, q: Word16, d: nat)
    requires k < |ps|
    ensures Potential(Without(ps, k), o, q, d) + Weight(ps[k], o, q, d) == Potential(ps, o, q, d)
  {
    assert ps == (ps[..k] + [ps[k]]) + ps[k + 1..];
    PotentialConcat(ps[..k] + [ps[k]], ps[k + 1..], o, q, d);
    PotentialConcat(ps[..k], [ps[k]], o, q, d);
    PotentialConcat(ps[..k], ps[k + 1..], o, q, d);
    assert [ps[k]][..0] == [];
  }

  /** Equal packets weigh equally. */
  lemma {:induction false} PotentialOfCopies(ps: seq<Packet>, lsu: Lsu, o: RouterId, q: Word16, d: nat)
    requires forall i :: 0 <= i < |ps| ==> ps[i].lsu == lsu
    ensures Potential(ps, o, q, d) == if lsu.origin == o && lsu.seqno == q then |ps| * Pow(d + 1, lsu.ttl) else 0
  {
    if ps != [] {
      PotentialOfCopies(ps[..|ps| - 1], lsu, o, q, d);
    }
  }

  lemma CopiesWeighLess(n: nat, d: nat, t: nat)
    requires n <= d
    ensures n * Pow(d + 1, t) + Pow(d + 1, t) <= Pow(d + 1, t + 1)
  {
    var w := Pow(d + 1, t);
    assert n * w <= d * w;
    assert (d + 1) * w == d * w + w;
  }

  /** Handing a packet over takes at least one from the potential, all of its own weight paying for the copies. */
  lemma RelayWeighsLess(n: Node, p: Packet, o: RouterId, q: Word16, d: nat)
    requires |n.nbrs| <= d && 1 <= p.lsu.ttl
    ensures Potential(Relay(n, p), o, q, d) <= Weight(p, o, q, d)
    ensures Carries(p, o, q) ==> Potential(Relay(n, p), o, q, d) < Weight(p, o, q, d)
  {
    var t := LowerTtl(p.lsu.ttl);
    assert t == p.lsu.ttl - 1;
    var copies := Relay(n, p);
    PotentialOfCopies(copies, p.lsu.(ttl := t), o, q, d);
    CopiesWeighLess(|copies|, d, t);
    PowPositive(d + 1, t);
  }

  lemma {:induction false} PowPositive(b: nat, e: nat)
    requires b > 0
    ensures Pow(b, e) > 0
  {
    if e > 0 {
      PowPositive(b, e - 1);
    }
  }

  /** The origin is not about to use the number again. */
  ghost predicate NumberUsed(net: Network, o: RouterId, q: Word16) {
    o in net.nodes ==> net.nodes[o].seqno != q
  }

  /** The step duplicates a packet of the update. */
  predicate Copying(net: Network, e: Event, o: RouterId, q: Word16) {
    e.Duplicate? && e.at < |net.wire| && Carries(net.wire[e.at], o, q)
  }

  /** The step creates no new packet of the update. */
  ghost predicate Quiet(net: Network, e: Event, o: RouterId, q: Word16) {
    !Copying(net, e, o, q) && NumberUsed(net, o, q)
  }

  ghost predicate Degree(net: Network, d: nat) {
    forall x :: x in net.nodes ==> |net.nodes[x].nbrs| <= d
  }

  /** The step hands a packet of the update over to its destination. */
  predicate Hands(net: Network, e: Event, o: RouterId, q: Word16) {
    e.Deliver? && e.at < |net.wire| && Carries(net.wire[e.at], o, q)
  }

  lemma FloodPotential(net: Network, rid: RouterId, o: RouterId, q: Word16, d: nat)
    requires rid in net.nodes && !(rid == o && net.nodes[rid].seqno == q)
    ensures Potential(Flood(net, rid).wire, o, q, d) == Potential(net.wire, o, q, d)
  {
    var n := net.nodes[rid];
    if n.broadcast {
      var lsu := Lsu(rid, n.seqno, INITIAL_TTL, OwnAdvs(n.own));
      var copies := Copies(n.nbrs, lsu, -1);
      PotentialConcat(net.wire, copies, o, q, d);
      PotentialOfCopies(copies, lsu, o, q, d);
    }
  }

  lemma ReceivePotential(net: Network, p: Packet, o: RouterId, q: Word16, d: nat)
    requires Degree(net, d) && 1 <= p.lsu.ttl && NumberUsed(net, o, q)
    ensures Potential(Receive(net, p).wire, o, q, d) <= Potential(net.wire, o, q, d) + Weight(p, o, q, d)
    ensures Carries(p, o, q) ==>
            Potential(Receive(net, p).wire, o, q, d) < Potential(net.wire, o, q, d) + Weight(p, o, q, d)
  {
    PowPositive(d + 1, p.lsu.ttl);
    if p.dst in net.nodes && p.lsu.origin != p.dst && Accepts(net.nodes[p.dst].db, p.lsu) {
      var n := net.nodes[p.dst];
      PotentialConcat(net.wire, Relay(n, p), o, q, d);
      RelayWeighsLess(n, p, o, q, d);
      FloodPotential(Learnt(net, p), p.dst, o, q, d);
    }
  }

  lemma DeliverPotential(net: Network, k: nat, o: RouterId, q: Word16, d: nat)
    requires Inv(net) && Degree(net, d) && NumberUsed(net, o, q) && k < |net.wire|
    ensures Potential(Step(net, Deliver(k)).wire, o, q, d) <= Potential(net.wire, o, q, d)
    ensures Carries(net.wire[k], o, q) ==>
            Potential(Step(net, Deliver(k)).wire, o, q, d) < Potential(net.wire, o, q, d)
  {
    assert PacketOk(net.log, net.wire[k]);
    PotentialWithout(net.wire, k, o, q, d);
    ReceivePotential(net.(wire := Without(net.wire, k)), net.wire[k], o, q, d);
  }

  lemma ExpirePotential(net: Network, rid: RouterId, gone: set<RouterId>, o: RouterId, q: Word16, d: nat)
    requires NumberUsed(net, o, q)
    ensures Potential(Step(net, Expire(rid, gone)).wire, o, q, d) == Potential(net.wire, o, q, d)
  {
    if rid in net.nodes {
      FloodPotential(Forgotten(net, rid, gone), rid, o, q, d);
    }
  }

  lemma RefreshPotential(net: Network, rid: RouterId, o: RouterId, q: Word16, d: nat)
    requires NumberUsed(net, o, q)
    ensures Potential(Step(net, Refresh(rid)).wire, o, q, d) == Potential(net.wire, o, q, d)
  {
    if rid in net.nodes {
      FloodPotential(net, rid, o, q, d);
    }
  }

  /** A setting sends nothing. */
  lemma SetSendsNothing(net: Network, e: Event, rid: RouterId)
    requires Sets(e, rid)
    ensures Step(net, e).wire == net.wire && Step(net, e).log == net.log
  {
  }

  /** A quiet step never raises the potential of an update, and handing a packet over lowers it. */
  lemma StepPotential(net: Network, e: Event, o: RouterId, q: Word16, d: nat)
    requires Inv(net) && Degree(net, d) && Quiet(net, e, o, q)
    ensures Potential(Step(net, e).wire, o, q, d) <= Potential(net.wire, o, q, d)
    ensures Hands(net, e, o, q) ==> Potential(Step(net, e).wire, o, q, d) < Potential(net.wire, o, q, d)
  {
    match e
    case Deliver(k) =>
      if k < |net.wire| {
        DeliverPotential(net, k, o, q, d);
      }
    case Lose(k) =>
      if k < |net.wire| {
        PotentialWithout(net.wire, k, o, q, d);
      }
    case Duplicate(k) =>
      if k < |net.wire| {
        PotentialConcat(net.wire, [net.wire[k]], o, q, d);
        assert [net.wire[k]][..0] == [];
      }
    case Expire(rid, gone) => ExpirePotential(net, rid, gone, o, q, d);
    case Refresh(rid) => RefreshPotential(net, rid, o, q, d);
    case SetOwn(rid, _) => SetSendsNothing(net, e, rid);
    case SetNeighbors(rid, _) => SetSendsNothing(net, e, rid);
    case SetBroadcast(rid, _) => SetSendsNothing(net, e, rid);
  }

  lemma {:induction false} PowMonotone(b: nat, e: nat, f: nat)
    requires b > 0 && e <= f
    ensures Pow(b, e) <= Pow(b, f)
  {
    if e < f {
      PowMonotone(b, e, f - 1);
      PowPositive(b, f - 1);
      MulLe(1, b, Pow(b, f - 1));
    }
  }

  /** A duplicated packet weighs no more than a fresh one: its time to live is at most 64. */
  lemma CopyingPotential(net: Network, e: Event, o: RouterId, q: Word16, d: nat)
    requires Inv(net) && Copying(net, e, o, q)
    ensures Potential(Step(net, e).wire, o, q, d) <= Potential(net.wire, o, q, d) + Pow(d + 1, INITIAL_TTL)
  {
    var p := net.wire[e.at];
    assert PacketOk(net.log, p);
    PotentialConcat(net.wire, [p], o, q, d);
    assert [p][..0] == [];
    PowMonotone(d + 1, p.lsu.ttl, INITIAL_TTL);
  }

  /** One step: a delivery takes from the potential, and only a duplication adds to it. */
  lemma PaidStep(s: Network, e: Event, s': Network, o: RouterId, q: Word16, d: nat)
    requires s' == Step(s, e) && Inv(s) && Degree(s, d) && NumberUsed(s, o, q)
    ensures Potential(s'.wire, o, q, d) + (if Hands(s, e, o, q) then 1 else 0)
            <= Potential(s.wire, o, q, d) + if Copying(s, e, o, q) then Pow(d + 1, INITIAL_TTL) else 0
  {
    if Copying(s, e, o, q) {
      CopyingPotential(s, e, o, q, d);
    } else {
      StepPotential(s, e, o, q, d);
    }
  }

  /** How often packets of the update are handed over in the first `k` steps. */
  function Handed(r: Run, o: RouterId, q: Word16, k: nat): nat
    requires k <= |r.events| < |r.states|
  {
    if k == 0 then 0 else Handed(r, o, q, k - 1) + (if Hands(r.states[k - 1], r.events[k - 1], o, q) then 1 else 0)
  }

  /** How often the network duplicates one of them. */
  function Dups(r: Run, o: RouterId, q: Word16, k: nat): nat
    requires k <= |r.events| < |r.states|
  {
    if k == 0 then 0 else Dups(r, o, q, k - 1) + (if Copying(r.states[k - 1], r.events[k - 1], o, q) then 1 else 0)
  }

  /**
   Every flood dies out: from any state, as long as its origin does not reuse the number, an
   update is handed over at most as often as its potential says, with each duplication paid
   for once by the weight of a fresh packet.
   */
  lemma {:induction false} FloodDiesOut(r: Run, o: RouterId, q: Word16, d: nat, k: nat)
    requires GoodRun(r) && Inv(r.states[0]) && k <= |r.events|
    requires forall i :: 0 <= i < k ==> Degree(r.states[i], d) && NumberUsed(r.states[i], o, q)
    ensures Handed(r, o, q, k) + Potential(r.states[k].wire, o, q, d)
            <= Potential(r.states[0].wire, o, q, d) + Dups(r, o, q, k) * Pow(d + 1, INITIAL_TTL)
  {
    if k > 0 {
      FloodDiesOut(r, o, q, d, k - 1);
      PaidMove(r, o, q, d, k);
      PayOnce(Dups(r, o, q, k - 1), Copying(r.states[k - 1], r.events[k - 1], o, q), Pow(d + 1, INITIAL_TTL));
    }
  }

  lemma PaidMove(r: Run, o: RouterId, q: Word16, d: nat, k: nat)
    requires GoodRun(r) && Inv(r.states[0]) && 0 < k <= |r.events|
    requires Degree(r.states[k - 1], d) && NumberUsed(r.states[k - 1], o, q)
    ensures Potential(r.states[k].wire, o, q, d) + (if Hands(r.states[k - 1], r.events[k - 1], o, q) then 1 else 0)
            <= Potential(r.states[k - 1].wire, o, q, d)
               + if Copying(r.states[k - 1], r.events[k - 1], o, q) then Pow(d + 1, INITIAL_TTL) else 0
  {
    RunKeepsInv(r, k - 1);
    assert r.Moves(k - 1);
    PaidStep(r.states[k - 1], r.events[k - 1], r.states[k], o, q, d);
  }

  lemma PayOnce(n: nat, b: bool, w: nat)
    ensures (n + if b then 1 else 0) * w == n * w + if b then w else 0
  {
  }

  /** Without duplications the potential at the start is the bound. */
  lemma UnduplicatedFloodDiesOut(r: Run, o: RouterId, q: Word16, d: nat, k: nat)
    requires GoodRun(r) && Inv(r.states[0]) && k <= |r.events| && Dups(r, o, q, k) == 0
    requires forall i :: 0 <= i < k ==> Degree(r.states[i], d) && NumberUsed(r.states[i], o, q)
    ensures Handed(r, o, q, k) + Potential(r.states[k].wire, o, q, d) <= Potential(r.states[0].wire, o, q, d)
  {
    FloodDiesOut(r, o, q, d, k);
    assert Dups(r, o, q, k) * Pow(d + 1, INITIAL_TTL) == 0;
  }

  /** A flood of its own starts with at most `d` packets of time to live 64. */
  lemma FloodStartsBounded(net: Network, rid: RouterId, d: nat)
    requires rid in net.nodes && |net.nodes[rid].nbrs| <= d
    requires Potential(net.wire, rid, net.nodes[rid].seqno, d) == 0
    ensures Potential(Flood(net, rid).wire, rid, net.nodes[rid].seqno, d) <= d * Pow(d + 1, INITIAL_TTL)
  {
    var n := net.nodes[rid];
    var lsu := Lsu(rid, n.seqno, INITIAL_TTL, OwnAdvs(n.own));
    var copies := Copies(n.nbrs, lsu, -1);
    PotentialConcat(net.wire, copies, rid, n.seqno, d);
    PotentialOfCopies(copies, lsu, rid, n.seqno, d);
    MulLe(|copies|, d, Pow(d + 1, INITIAL_TTL));
    MulLe(0, d, Pow(d + 1, INITIAL_TTL));
  }

  // ----- one number over a whole run

  lemma {:induction false} NoneCarried(ps: seq<Packet>, o: RouterId, q: Word16, d: nat)
    requires forall i :: 0 <= i < |ps| ==> !Carries(ps[i], o, q)
    ensures Potential(ps, o, q, d) == 0
  {
    if ps != [] {
      NoneCarried(ps[..|ps| - 1], o, q, d);
    }
  }

  /** A number that the origin has not come to is in no packet. */
  lemma UnusedIsAbsent(net: Network, o: RouterId, q: Word16, d: nat)
    requires Inv(net) && o in net.log && |net.log[o]| <= q
    ensures forall i :: 0 <= i < |net.wire| ==> !Carries(net.wire[i], o, q)
    ensures Potential(net.wire, o, q, d) == 0
  {
    forall i | 0 <= i < |net.wire| ensures !Carries(net.wire[i], o, q) {
      assert PacketOk(net.log, net.wire[i]);
    }
    NoneCarried(net.wire, o, q, d);
  }

  /** A flood adds at most `d` fresh packets of one update. */
  lemma FloodAdds(net: Network, rid: RouterId, o: RouterId, q: Word16, d: nat)
    requires rid in net.nodes && |net.nodes[rid].nbrs| <= d
    ensures Potential(Flood(net, rid).wire, o, q, d) <= Potential(net.wire, o, q, d) + d * Pow(d + 1, INITIAL_TTL)
  {
    var n := net.nodes[rid];
    var lsu := Lsu(rid, n.seqno, INITIAL_TTL, OwnAdvs(n.own));
    var copies := Copies(n.nbrs, lsu, -1);
    PotentialConcat(net.wire, copies, o, q, d);
    PotentialOfCopies(copies, lsu, o, q, d);
    MulLe(|copies|, d, Pow(d + 1, INITIAL_TTL));
    MulLe(0, d, Pow(d + 1, INITIAL_TTL));
  }

  /** A delivery of another update adds no more than a flood. */
  lemma ReceiveAdds(net: Network, p: Packet, o: RouterId, q: Word16, d: nat)
    requires Degree(net, d) && !Carries(p, o, q)
    ensures Potential(Receive(net, p).wire, o, q, d) <= Potential(net.wire, o, q, d) + d * Pow(d + 1, INITIAL_TTL)
  {
    MulLe(0, d, Pow(d + 1, INITIAL_TTL));
    if p.dst in net.nodes && p.lsu.origin != p.dst && Accepts(net.nodes[p.dst].db, p.lsu) {
      var n := net.nodes[p.dst];
      var relay := Relay(n, p);
      PotentialConcat(net.wire, relay, o, q, d);
      NoneCarried(relay, o, q, d);
      FloodAdds(Learnt(net, p), p.dst, o, q, d);
    }
  }

  /** So does any step while no packet of the update is on its way. */
  lemma StepAdds(net: Network, e: Event, o: RouterId, q: Word16, d: nat)
    requires Degree(net, d) && forall i :: 0 <= i < |net.wire| ==> !Carries(net.wire[i], o, q)
    ensures Potential(Step(net, e).wire, o, q, d) <= d * Pow(d + 1, INITIAL_TTL)
  {
    NoneCarried(net.wire, o, q, d);
    MulLe(0, d, Pow(d + 1, INITIAL_TTL));
    match e
    case Deliver(k) =>
      if k < |net.wire| {
        PotentialWithout(net.wire, k, o, q, d);
        ReceiveAdds(net.(wire := Without(net.wire, k)), net.wire[k], o, q, d);
      }
    case Lose(k) =>
      if k < |net.wire| {
        PotentialWithout(net.wire, k, o, q, d);
      }
    case Duplicate(k) =>
      if k < |net.wire| {
        NoneCarried(net.wire + [net.wire[k]], o, q, d);
      }
    case Expire(rid, gone) =>
      if rid in net.nodes {
        FloodAdds(Forgotten(net, rid, gone), rid, o, q, d);
      }
    case Refresh(rid) =>
      if rid in net.nodes {
        FloodAdds(net, rid, o, q, d);
      }
    case SetOwn(_, _) =>
    case SetNeighbors(_, _) =>
    case SetBroadcast(_, _) =>
  }

  /** The logs only grow. */
  lemma StepExtends(net: Network, e: Event)
    requires Inv(net)
    ensures Extends(net.log, Step(net, e).log)
  {
    match e
    case Deliver(k) =>
      if k < |net.wire| {
        ReceiveExtends(net.(wire := Without(net.wire, k)), net.wire[k]);
      }
    case Expire(rid, gone) =>
      if rid in net.nodes {
        FloodExtends(Forgotten(net, rid, gone), rid);
      }
    case Refresh(rid) =>
      if rid in net.nodes {
        FloodExtends(net, rid);
      }
    case _ =>
  }

  lemma FloodExtends(net: Network, rid: RouterId)
    requires rid in net.nodes && rid in net.log
    ensures Extends(net.log, Flood(net, rid).log)
  {
  }

  lemma ReceiveExtends(net: Network, p: Packet)
    requires net.nodes.Keys == net.log.Keys
    ensures Extends(net.log, Receive(net, p).log)
  {
    if p.dst in net.nodes {
      FloodExtends(Learnt(net, p), p.dst);
    }
  }

  /** The origin has come past the number. */
  predicate Flooded(net: Network, o: RouterId, q: Word16)
    requires o in net.log
  {
    |net.log[o]| > q
  }

  /** The deliveries of one update so far, paid for by its flood and by the duplications. */
  ghost predicate Paid(r: Run, o: RouterId, q: Word16, d: nat, k: nat)
    requires k <= |r.events| < |r.states|
  {
    && o in r.states[k].log
    && Handed(r, o, q, k) + Potential(r.states[k].wire, o, q, d)
       <= ((if Flooded(r.states[k], o, q) then d else 0) + Dups(r, o, q, k)) * Pow(d + 1, INITIAL_TTL)
  }

  lemma PaidNext(r: Run, o: RouterId, q: Word16, d: nat, k: nat)
    requires GoodRun(r) && Inv(r.states[0]) && k < |r.events| && Paid(r, o, q, d, k)
    requires Degree(r.states[k], d) && o in r.states[k + 1].log
    requires |r.states[k].log[o]| <= |r.states[k + 1].log[o]| <= 0xFFFF
    ensures Paid(r, o, q, d, k + 1)
  {
    RunKeepsInv(r, k);
    RunKeepsInv(r, k + 1);
    if |r.states[k].log[o]| == q {
      StepOnce(r, o, q, d, k);
      FirstUse(r, o, q, d, k);
    } else {
      assert NodeOk(r.states[k], o);
      LaterStep(r, o, q, d, k);
    }
  }

  lemma StepOnce(r: Run, o: RouterId, q: Word16, d: nat, k: nat)
    requires r.Valid() && k < |r.events| && Inv(r.states[k]) && Degree(r.states[k], d)
    requires o in r.states[k].log && |r.states[k].log[o]| == q
    ensures Potential(r.states[k + 1].wire, o, q, d) <= d * Pow(d + 1, INITIAL_TTL)
  {
    assert r.Moves(k);
    UnusedIsAbsent(r.states[k], o, q, d);
    StepAdds(r.states[k], r.events[k], o, q, d);
  }

  /** A step at which the origin is not about to use the number. */
  lemma LaterStep(r: Run, o: RouterId, q: Word16, d: nat, k: nat)
    requires GoodRun(r) && Inv(r.states[0]) && k < |r.events| && Paid(r, o, q, d, k)
    requires Degree(r.states[k], d) && NumberUsed(r.states[k], o, q) && o in r.states[k + 1].log
    requires |r.states[k].log[o]| <= |r.states[k + 1].log[o]|
    ensures Paid(r, o, q, d, k + 1)
  {
    PaidMove(r, o, q, d, k + 1);
    PayMore(if Flooded(r.states[k], o, q) then d else 0, if Flooded(r.states[k + 1], o, q) then d else 0,
            Dups(r, o, q, k), Copying(r.states[k], r.events[k], o, q), Pow(d + 1, INITIAL_TTL));
  }

  /** The step at which the origin may come to the number. */
  lemma FirstUse(r: Run, o: RouterId, q: Word16, d: nat, k: nat)
    requires GoodRun(r) && k < |r.events| && Paid(r, o, q, d, k) && Inv(r.states[k]) && Inv(r.states[k + 1])
    requires |r.states[k].log[o]| == q && o in r.states[k + 1].log && q <= |r.states[k + 1].log[o]|
    requires Potential(r.states[k + 1].wire, o, q, d) <= d * Pow(d + 1, INITIAL_TTL)
    ensures Paid(r, o, q, d, k + 1)
  {
    var s, s', w := r.states[k], r.states[k + 1], Pow(d + 1, INITIAL_TTL);
    UnusedIsAbsent(s, o, q, d);
    assert Handed(r, o, q, k + 1) == Handed(r, o, q, k) && Dups(r, o, q, k + 1) == Dups(r, o, q, k);
    if Flooded(s', o, q) {
      PayMore(0, d, Dups(r, o, q, k), false, w);
      SplitPay(d, Dups(r, o, q, k), w);
    } else {
      UnusedIsAbsent(s', o, q, d);
    }
  }

  lemma SplitPay(d: nat, n: nat, w: nat)
    ensures (d + n) * w == d * w + n * w
  {
  }

  lemma PayMore(c: nat, c': nat, n: nat, b: bool, w: nat)
    requires c <= c'
    ensures (c + n) * w + (if b then w else 0) <= (c' + n + if b then 1 else 0) * w
  {
    var m := n + if b then 1 else 0;
    assert (c + m) * w <= (c' + m) * w;
    PayOnce(c + n, b, w);
  }

  /**
   Over any run from the start, each update of a router, in the life of its numbers, is
   handed over at most (d + n) (d + 1)^64 times, where d bounds the neighbours of a router and
   n counts the duplications of its packets.
   */
  lemma {:induction false} UpdateIsBounded(r: Run, o: RouterId, q: Word16, d: nat, k: nat)
    requires GoodRun(r) && Started(r.states[0]) && k <= |r.events| && o in r.states[k].log
    requires forall i :: 0 <= i < k ==> Degree(r.states[i], d)
    requires |r.states[k].log[o]| <= 0xFFFF
    ensures Handed(r, o, q, k) <= (d + Dups(r, o, q, k)) * Pow(d + 1, INITIAL_TTL)
  {
    UpdateIsPaid(r, o, q, d, k);
    PayMore(if Flooded(r.states[k], o, q) then d else 0, d, Dups(r, o, q, k), false, Pow(d + 1, INITIAL_TTL));
  }

  lemma {:induction false} UpdateIsPaid(r: Run, o: RouterId, q: Word16, d: nat, k: nat)
    requires GoodRun(r) && Started(r.states[0]) && k <= |r.events| && o in r.states[k].log
    requires forall i :: 0 <= i < k ==> Degree(r.states[i], d)
    requires |r.states[k].log[o]| <= 0xFFFF
    ensures Paid(r, o, q, d, k)
  {
    StartIsInv(r.states[0]);
    if k > 0 {
      LoggedBefore(r, o, k - 1);
      UpdateIsPaid(r, o, q, d, k - 1);
      PaidNext(r, o, q, d, k - 1);
    }
  }

  /** A router that has a log had one before, and no longer one. */
  lemma LoggedBefore(r: Run, o: RouterId, k: nat)
    requires GoodRun(r) && Inv(r.states[0]) && k < |r.events| && o in r.states[k + 1].log
    ensures o in r.states[k].log && |r.states[k].log[o]| <= |r.states[k + 1].log[o]|
  {
    RunKeepsInv(r, k);
    RunKeepsInv(r, k + 1);
    assert r.Moves(k);
    StepExtends(r.states[k], r.events[k]);
    StepKeepsRouters(r.states[k], r.events[k]);
  }

  lemma StepKeepsRouters(net: Network, e: Event)
    ensures Step(net, e).nodes.Keys == net.nodes.Keys
  {
  }

  lemma MulLe(a: nat, b: nat, c: nat)
    requires a <= b
    ensures a * c <= b * c
  {
  }
}
