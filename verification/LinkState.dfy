/**
 The handler of link-state updates as it edits a router's own lists
 (process_pwospf_lsu_packet, add_new_router_neighbor, propagate_pwospf_changes,
 determine_active_interfaces, construct_pwospf_lsu_packet, broadcast_pwospf_lsu_packet and the
 timeout thread in or_pwospf.c), proved to take the steps of the network in Flooding.
 */
module LinkState {
  import opened PwospfTypes
  import opened Advertisements
  import opened Flooding
  import opened Selection
  import ShortestPath
  import Neighbors

  /** An interface of ours and the neighbours heard on it. */
  datatype LinkPort = LinkPort(active: bool, ip: Addr, nbrs: seq<Neighbors.Nbr>)

  function Links(ip: Addr, nbrs: seq<Neighbors.Nbr>): (links: seq<Link>)
    ensures |links| == |nbrs| && forall k :: 0 <= k < |nbrs| ==> links[k] == Link(nbrs[k].rid, ip, nbrs[k].ip)
  {
    if nbrs == [] then []
    else
      var n := nbrs[|nbrs| - 1];
      Links(ip, nbrs[..|nbrs| - 1]) + [Link(n.rid, ip, n.ip)]
  }

  /** The links that are sent a copy, in the order of the two nested walks. */
  function Reach(ports: seq<LinkPort>): seq<Link> {
    if ports == [] then []
    else
      var p := ports[|ports| - 1];
      Reach(ports[..|ports| - 1]) + if p.active then Links(p.ip, p.nbrs) else []
  }

  // ----- one router's part of a step

  function NodeFlood(rid: RouterId, n: Node): (Node, seq<Packet>) {
    if !n.broadcast then (n, [])
    else (n.(seqno := (n.seqno + 1) % 0x1_0000), Copies(n.nbrs, Lsu(rid, n.seqno, INITIAL_TTL, OwnAdvs(n.own)), -1))
  }

  function NodeReceive(rid: RouterId, n: Node, p: Packet): (Node, seq<Packet>) {
    if p.lsu.origin == rid || !Accepts(n.db, p.lsu) then (n, [])
    else
      var (n', relay) := NodeLearn(rid, n, p);
      if !Changes(n.db, p.lsu) then (n', relay)
      else
        var (n'', sent) := NodeFlood(rid, n');
        (n'', relay + sent)
  }

  /** The node once it has stored an update, and what it sends on. */
  function NodeLearn(rid: RouterId, n: Node, p: Packet): (Node, seq<Packet>) {
    if Accepts(n.db, p.lsu) then (n.(db := Accept(n.db, p.lsu)), Relay(n, p)) else (n, [])
  }

  lemma QueueSplits(queue: seq<Packet>, relay: seq<Packet>, sent: seq<Packet>)
    ensures queue + relay + sent == queue + (relay + sent)
  {
  }

  function NodeExpire(rid: RouterId, n: Node, gone: set<RouterId>): (Node, seq<Packet>) {
    if gone * n.db.Keys == {} then (n, []) else NodeFlood(rid, n.(db := n.db - gone))
  }

  /** The second network differs in one node and in what that node sends. */
  ghost predicate Local(net: Network, net': Network, rid: RouterId, n: Node, sent: seq<Packet>) {
    net'.nodes == net.nodes[rid := n] && net'.wire == net.wire + sent
  }

  lemma FloodIsLocal(net: Network, rid: RouterId)
    requires rid in net.nodes
    ensures var (n, sent) := NodeFlood(rid, net.nodes[rid]); Local(net, Flood(net, rid), rid, n, sent)
  {
  }

  lemma LocalTwice(net: Network, net': Network, net'': Network, rid: RouterId, n: Node, n': Node,
                   sent: seq<Packet>, sent': seq<Packet>)
    requires Local(net, net', rid, n, sent) && Local(net', net'', rid, n', sent')
    ensures Local(net, net'', rid, n', sent + sent')
  {
    assert net.nodes[rid := n][rid := n'] == net.nodes[rid := n'];
    QueueSplits(net.wire, sent, sent');
  }

  /** A delivery changes the receiver and adds what it sends, and nothing else but its log. */
  lemma ReceiveIsLocal(net: Network, p: Packet)
    requires p.dst in net.nodes
    ensures var (n, sent) := NodeReceive(p.dst, net.nodes[p.dst], p); Local(net, Receive(net, p), p.dst, n, sent)
  {
    if p.lsu.origin != p.dst && Accepts(net.nodes[p.dst].db, p.lsu) {
      var (n, relay) := NodeLearn(p.dst, net.nodes[p.dst], p);
      assert Local(net, Learnt(net, p), p.dst, n, relay);
      if Changes(net.nodes[p.dst].db, p.lsu) {
        var (n', sent) := NodeFlood(p.dst, n);
        FloodIsLocal(Learnt(net, p), p.dst);
        LocalTwice(net, Learnt(net, p), Receive(net, p), p.dst, n, n', relay, sent);
      }
    }
  }

  lemma ExpireIsLocal(net: Network, rid: RouterId, gone: set<RouterId>)
    requires rid in net.nodes
    ensures var (n, sent) := NodeExpire(rid, net.nodes[rid], gone);
            Local(net, Step(net, Expire(rid, gone)), rid, n, sent)
  {
    if gone * net.nodes[rid].db.Keys != {} {
      var n := net.nodes[rid].(db := net.nodes[rid].db - gone);
      var (n', sent) := NodeFlood(rid, n);
      assert Local(net, Forgotten(net, rid, gone), rid, n, []);
      FloodIsLocal(Forgotten(net, rid, gone), rid);
      LocalTwice(net, Forgotten(net, rid, gone), Step(net, Expire(rid, gone)), rid, n, n', [], sent);
      assert [] + sent == sent;
    }
  }

  // ----- lists without their flags

  function Plain(list: seq<Iface>): seq<Iface> {
    seq(|list|, i requires 0 <= i < |list| => list[i].(active := false))
  }

  lemma StoredPlain(list: seq<Iface>)
    ensures Stored(Plain(list)) == Stored(list)
  {
    forall a | a in Stored(list) ensures a in Stored(Plain(list)) {
      var i :| 0 <= i < |list| && Key(list[i]) == a;
      assert Plain(list)[i] in Plain(list);
    }
    forall a | a in Stored(Plain(list)) ensures a in Stored(list) {
      var i :| 0 <= i < |list| && Key(Plain(list)[i]) == a;
      assert list[i] in list;
    }
  }

  lemma {:induction false} FreshIsPlain(advs: seq<Adv>)
    ensures Plain(Fresh(advs)) == Fresh(advs)
  {
    if advs != [] {
      FreshIsPlain(advs[..|advs| - 1]);
    }
  }

  lemma {:induction false} PlainAddNew(list: seq<Iface>, advs: seq<Adv>)
    ensures Plain(AddNew(list, advs)) == AddNew(Plain(list), advs)
  {
    if advs != [] {
      PlainAddNew(list, advs[..|advs| - 1]);
      StoredPlain(AddNew(list, advs[..|advs| - 1]));
    }
  }

  lemma {:induction false} PlainPrune(list: seq<Iface>, keep: set<Adv>)
    ensures Plain(Prune(list, keep)) == Prune(Plain(list), keep)
  {
    if list != [] {
      PlainPrune(list[1..], keep);
      assert Plain(list)[1..] == Plain(list[1..]);
    }
  }

  /** Merging does not look at the flags. */
  lemma PlainMerge(list: seq<Iface>, advs: seq<Adv>)
    ensures Plain(Merge(list, advs)) == Merge(Plain(list), advs)
  {
    FreshIsPlain(advs);
    PlainAddNew(list, advs);
    PlainPrune(AddNew(list, advs), Advertised(advs));
  }

  lemma {:induction false} PlainAdvs(own: seq<Iface>)
    ensures OwnAdvs(Plain(own)) == OwnAdvs(own)
  {
    if own != [] {
      var n := |own| - 1;
      assert Plain(own)[..n] == Plain(own[..n]);
      PlainAdvs(own[..n]);
    }
  }

  lemma {:induction false} CopiesConcat(a: seq<Link>, b: seq<Link>, lsu: Lsu, except: int)
    ensures Copies(a + b, lsu, except) == Copies(a, lsu, except) + Copies(b, lsu, except)
  {
    if b == [] {
      assert a + b == a;
    } else {
      assert (a + b)[..|a + b| - 1] == a + b[..|b| - 1];
      CopiesConcat(a, b[..|b| - 1], lsu, except);
    }
  }

  /** One more interface adds the copies for its neighbours if it is active. */
  lemma ReachNext(queue: seq<Packet>, ports: seq<LinkPort>, i: nat, lsu: Lsu, except: int)
    requires i < |ports|
    ensures queue + Copies(Reach(ports[..i + 1]), lsu, except) ==
            queue + Copies(Reach(ports[..i]), lsu, except)
            + if ports[i].active then Copies(Links(ports[i].ip, ports[i].nbrs), lsu, except) else []
  {
    assert ports[..i + 1][..i] == ports[..i];
    var links := if ports[i].active then Links(ports[i].ip, ports[i].nbrs) else [];
    assert Reach(ports[..i + 1]) == Reach(ports[..i]) + links;
    CopiesConcat(Reach(ports[..i]), links, lsu, except);
    QueueSplits(queue, Copies(Reach(ports[..i]), lsu, except), Copies(links, lsu, except));
  }

  /** One more neighbour adds its copy unless it is at the address. */
  lemma LinksNext(ip: Addr, nbrs: seq<Neighbors.Nbr>, j: nat, lsu: Lsu, except: int)
    requires j < |nbrs|
    ensures Copies(Links(ip, nbrs[..j + 1]), lsu, except) ==
            Copies(Links(ip, nbrs[..j]), lsu, except) +
            if nbrs[j].ip == except then [] else [Packet(nbrs[j].rid, ip, lsu)]
  {
    assert nbrs[..j + 1][..j] == nbrs[..j];
    var links := Links(ip, nbrs[..j + 1]);
    assert links[..j] == Links(ip, nbrs[..j]) && links[j] == Link(nbrs[j].rid, ip, nbrs[j].ip);
  }

  // ----- who is sent what

  /** A neighbour, by the places of its interface and its own. */
  datatype Place = Place(port: nat, nbr: nat)

  /** The walk comes to the first place before the second. */
  predicate Earlier(a: Place, b: Place) {
    a.port < b.port || (a.port == b.port && a.nbr < b.nbr)
  }

  /** A neighbour of an active interface, at another address. */
  predicate Receives(ports: seq<LinkPort>, except: int, at: Place) {
    && at.port < |ports| && ports[at.port].active && at.nbr < |ports[at.port].nbrs|
    && ports[at.port].nbrs[at.nbr].ip != except
  }

  /** The packets are one copy for each such neighbour, sent from its interface, in the order of the walk. */
  ghost predicate SentTo(ports: seq<LinkPort>, lsu: Lsu, except: int, ps: seq<Packet>, places: seq<Place>) {
    && |places| == |ps| && (forall a, b :: 0 <= a < b < |places| ==> Earlier(places[a], places[b]))
    && (forall b :: 0 <= b < |places| ==> Receives(ports, except, places[b]) && CopyAt(ports, lsu, ps[b], places[b]))
    && forall at :: Receives(ports, except, at) ==> at in places
  }

  predicate CopyAt(ports: seq<LinkPort>, lsu: Lsu, p: Packet, at: Place)
    requires at.port < |ports| && at.nbr < |ports[at.port].nbrs|
  {
    p.dst == ports[at.port].nbrs[at.nbr].rid && p.src == ports[at.port].ip && p.lsu == lsu
  }

  ghost predicate ReachesAll(ports: seq<LinkPort>, lsu: Lsu, except: int, ps: seq<Packet>) {
    exists places :: SentTo(ports, lsu, except, ps, places)
  }

  /** The walk over the interfaces finds a place for each copy. */
  lemma {:induction false} CopiesReach(ports: seq<LinkPort>, lsu: Lsu, except: int) returns (places: seq<Place>)
    ensures SentTo(ports, lsu, except, Copies(Reach(ports), lsu, except), places)
  {
    places := [];
    if ports != [] {
      var n := |ports| - 1;
      var front, port := ports[..n], ports[n];
      places := CopiesReach(front, lsu, except);
      assert front + [port] == ports;
      var ps := Copies(Reach(front), lsu, except);
      if port.active {
        var from := CopiesAreDrawn(Links(port.ip, port.nbrs), lsu, except);
        CopiesConcat(Reach(front), Links(port.ip, port.nbrs), lsu, except);
        ActivePort(front, port, lsu, except, ps, Copies(Links(port.ip, port.nbrs), lsu, except), places, from);
        assert Reach(ports) == Reach(front) + Links(port.ip, port.nbrs);
        places := places + PlacesOn(n, from);
      } else {
        assert Reach(ports) == Reach(front);
        InactivePort(front, port, lsu, except, ps, places);
      }
    }
  }

  /** The places of some neighbours of one interface. */
  function PlacesOn(port: nat, nbrs: seq<nat>): seq<Place> {
    seq(|nbrs|, b requires 0 <= b < |nbrs| => Place(port, nbrs[b]))
  }

  lemma InactivePort(ports: seq<LinkPort>, port: LinkPort, lsu: Lsu, except: int, ps: seq<Packet>, places: seq<Place>)
    requires SentTo(ports, lsu, except, ps, places) && !port.active
    ensures SentTo(ports + [port], lsu, except, ps, places)
  {
    var all := ports + [port];
    forall at | Receives(all, except, at) ensures at in places {
      assert Receives(ports, except, at);
    }
  }

  lemma ActivePort(ports: seq<LinkPort>, port: LinkPort, lsu: Lsu, except: int, ps: seq<Packet>, more: seq<Packet>,
                   places: seq<Place>, from: seq<nat>)
    requires SentTo(ports, lsu, except, ps, places) && port.active
    requires Drawn(Elsewhere(except), Over(lsu), Links(port.ip, port.nbrs), more, from)
    ensures SentTo(ports + [port], lsu, except, ps + more, places + PlacesOn(|ports|, from))
  {
    var all, links, here := ports + [port], Links(port.ip, port.nbrs), places + PlacesOn(|ports|, from);
    forall at | Receives(all, except, at) ensures at in here {
      if at.port < |ports| {
        assert Receives(ports, except, at);
      } else {
        assert Elsewhere(except)(links[at.nbr]);
        var b :| 0 <= b < |from| && from[b] == at.nbr;
        assert here[|places| + b] == at;
      }
    }
    forall b | 0 <= b < |here| ensures Receives(all, except, here[b]) && CopyAt(all, lsu, (ps + more)[b], here[b]) {
      if b >= |places| {
        var k := from[b - |places|];
        assert Elsewhere(except)(links[k]) && Over(lsu)(links[k], more[b - |places|]);
        assert links[k] == Link(port.nbrs[k].rid, port.ip, port.nbrs[k].ip) && all[|ports|] == port;
      } else {
        assert Receives(ports, except, places[b]) && CopyAt(ports, lsu, ps[b], places[b]);
      }
    }
  }

  // ----- what the lists stand for

  /** The value a router entry stands for in a node. */
  ghost predicate EntryAgrees(me: RouterId, n: Node, r: PwospfRouter)
    reads r
  {
    if r.routerId == me then n.own == Plain(r.interfaces) && n.seqno == r.seqno
    else r.routerId in n.db && n.db[r.routerId] == Flooding.Entry(r.seqno, Plain(r.interfaces))
  }

  ghost predicate HasId(routers: seq<PwospfRouter>, rid: RouterId) {
    exists i :: 0 <= i < |routers| && routers[i].routerId == rid
  }

  ghost predicate DistinctIds(routers: seq<PwospfRouter>) {
    forall i, j :: 0 <= i < j < |routers| ==> routers[i].routerId != routers[j].routerId
  }

  /** The router list stands for the node: entry by entry, and no entry missing. */
  ghost predicate StandsFor(me: RouterId, routers: seq<PwospfRouter>, n: Node)
    reads routers
  {
    && (forall i :: 0 <= i < |routers| ==> EntryAgrees(me, n, routers[i]))
    && forall o :: o in n.db ==> o != me && HasId(routers, o)
  }

  lemma HasIdAppend(routers: seq<PwospfRouter>, r: PwospfRouter)
    ensures forall o :: HasId(routers + [r], o) <==> HasId(routers, o) || r.routerId == o
  {
    forall o ensures HasId(routers + [r], o) <==> HasId(routers, o) || r.routerId == o {
      if HasId(routers, o) {
        var i :| 0 <= i < |routers| && routers[i].routerId == o;
        assert (routers + [r])[i].routerId == o;
      }
      assert (routers + [r])[|routers|] == r;
    }
  }

  lemma OneWithId(routers: seq<PwospfRouter>, k: nat)
    requires DistinctIds(routers) && k < |routers|
    ensures forall r :: r in routers && r.routerId == routers[k].routerId ==> r == routers[k]
  {
  }

  /** The list has an entry for the router, last heard at the time. */
  ghost predicate HeardAt(routers: seq<PwospfRouter>, o: RouterId, now: int)
    reads routers
  {
    exists j :: 0 <= j < |routers| && routers[j].routerId == o && routers[j].lastUpdate == now
  }

  /** What a router works through: updates that arrive and checks of the timeout thread. */
  datatype Work = Hear(p: Packet, now: int) | Check(now: int, interval: int)

  /** A check later than three intervals after the time. */
  predicate TooLate(w: Work, now: int) {
    w.Check? && w.now - now > 3 * w.interval
  }

  /** None of the first checks is. */
  predicate InTime(work: seq<Work>, n: nat, now: int) {
    forall k :: 0 <= k < n && k < |work| ==> !TooLate(work[k], now)
  }

  lemma InTimeNext(work: seq<Work>, n: nat, now: int)
    requires n < |work|
    ensures InTime(work, n + 1, now) <==> InTime(work, n, now) && !TooLate(work[n], now)
  {
  }

  // ----- active interfaces

  /** The database the flags are judged by: it does not change while they are set. */
  datatype Db = Db(ids: seq<RouterId>, lists: seq<seq<Iface>>)

  predicate Linked(a: Iface, b: Iface) {
    a.subnet == b.subnet && a.mask == b.mask && a.rid != BLANK && b.rid != BLANK
  }

  ghost predicate InDb(db: Db, i: int, c: int) {
    |db.ids| == |db.lists| && 0 <= i < |db.lists| && 0 <= c < |db.lists[i]|
  }

  /** The router that the entry names lists the same subnet, with a neighbour. */
  ghost predicate Answers(db: Db, i: int, c: int)
    requires InDb(db, i, c)
  {
    exists j, b :: InDb(db, j, b) && db.ids[j] == db.lists[i][c].rid && Linked(db.lists[i][c], db.lists[j][b])
  }

  /** Entry `b` of router `j` names the owner of entry `c` of router `i`, on the same subnet. */
  ghost predicate Asks(db: Db, j: int, b: int, i: int, c: int)
    requires InDb(db, j, b) && InDb(db, i, c)
  {
    db.lists[j][b].rid == db.ids[i] && Linked(db.lists[j][b], db.lists[i][c])
  }

  /** The walk comes to entry `c` of router `i` before it comes to entry `b` of router `j`. */
  predicate Before(i: int, c: int, j: int, b: int) {
    i < j || (i == j && c < b)
  }

  /** The entry is asked by one that the walk comes to after it, and before entry `a` of router `z`. */
  ghost predicate AskedUntil(db: Db, i: int, c: int, z: int, a: int)
    requires InDb(db, i, c)
  {
    exists j, b :: InDb(db, j, b) && Before(i, c, j, b) && Before(j, b, z, a) && Asks(db, j, b, i, c)
  }

  /** What the flag of an entry is once every router has been walked: answered, or asked later. */
  ghost predicate Linking(db: Db, i: int, c: int)
    requires InDb(db, i, c)
  {
    Answers(db, i, c) || AskedUntil(db, i, c, |db.lists|, 0)
  }

  /** Where both ends name each other, an entry is asked only if it is answered. */
  ghost predicate Mutual(db: Db) {
    forall i, c, j, b :: InDb(db, i, c) && InDb(db, j, b) && Asks(db, j, b, i, c) ==> Answers(db, i, c)
  }

  ghost predicate Shaped(db: Db, routers: seq<PwospfRouter>)
    reads routers
  {
    && |db.ids| == |db.lists| == |routers|
    && forall i :: 0 <= i < |routers| ==>
         routers[i].routerId == db.ids[i] && Plain(routers[i].interfaces) == db.lists[i]
  }

  lemma ShapedLength(db: Db, routers: seq<PwospfRouter>, z: nat)
    requires Shaped(db, routers) && z < |routers|
    ensures |routers[z].interfaces| == |db.lists[z]|
  {
    assert |Plain(routers[z].interfaces)| == |routers[z].interfaces|;
  }

  /** The flag says that the entry is answered, or asked by one the walk has come to since. */
  ghost predicate FlagOk(db: Db, r: PwospfRouter, i: int, c: int, z: int, a: int)
    requires InDb(db, i, c)
    reads r
  {
    c < |r.interfaces| && (r.interfaces[c].active <==> Answers(db, i, c) || AskedUntil(db, i, c, z, a))
  }

  /** So say all flags of the routers before `z`, and of `z` before entry `a`. */
  ghost predicate Judged(db: Db, routers: seq<PwospfRouter>, z: nat, a: nat)
    requires |db.lists| == |routers|
    reads routers
  {
    forall i, c :: InDb(db, i, c) && Before(i, c, z, a) ==> FlagOk(db, routers[i], i, c, z, a)
  }

  /** After the walk the flags are exactly what the database says. */
  lemma JudgedIsLinking(db: Db, routers: seq<PwospfRouter>, i: nat, c: nat)
    requires |db.lists| == |routers| && Judged(db, routers, |routers|, 0) && InDb(db, i, c)
    ensures c < |routers[i].interfaces| && (routers[i].interfaces[c].active <==> Linking(db, i, c))
  {
    assert FlagOk(db, routers[i], i, c, |routers|, 0);
  }

  /** The two entries have the same subnet and mask, and each names a neighbour there. */
  predicate OneSubnet(a: Iface, b: Iface) {
    a.subnet == b.subnet && a.mask == b.mask && a.rid != 0 && b.rid != 0
  }

  /**
   In a database whose links are mutual, an entry is active iff the router it names lists the
   same subnet, with a neighbour.
   */
  lemma ActiveIffAnswered(db: Db, routers: seq<PwospfRouter>, i: nat, c: nat)
    requires |db.lists| == |routers| && Judged(db, routers, |routers|, 0) && Mutual(db) && InDb(db, i, c)
    ensures c < |routers[i].interfaces| &&
            (routers[i].interfaces[c].active <==>
               exists j, b :: InDb(db, j, b) && db.ids[j] == db.lists[i][c].rid &&
                              OneSubnet(db.lists[i][c], db.lists[j][b]))
  {
    JudgedIsLinking(db, routers, i, c);
    if j, b :| InDb(db, j, b) && db.ids[j] == db.lists[i][c].rid && OneSubnet(db.lists[i][c], db.lists[j][b]) {
      assert Answers(db, i, c);
    }
    if Answers(db, i, c) {
      var j, b :| InDb(db, j, b) && db.ids[j] == db.lists[i][c].rid && Linked(db.lists[i][c], db.lists[j][b]);
      assert OneSubnet(db.lists[i][c], db.lists[j][b]);
    }
  }

  /** A later entry can keep active what its named router does not answer: a link that only one end still lists. */
  lemma OneSidedLinkIsActive(db: Db, routers: seq<PwospfRouter>, i: nat, c: nat, j: nat, b: nat)
    requires |db.lists| == |routers| && Judged(db, routers, |routers|, 0)
    requires InDb(db, i, c) && InDb(db, j, b) && (i < j || (i == j && c < b))
    requires db.lists[j][b].rid == db.ids[i] && OneSubnet(db.lists[j][b], db.lists[i][c])
    ensures c < |routers[i].interfaces| && routers[i].interfaces[c].active
  {
    JudgedIsLinking(db, routers, i, c);
    assert Asks(db, j, b, i, c) && Before(i, c, j, b) && Before(j, b, |db.lists|, 0);
  }

  class RouterState {
    const routerId: RouterId
    var routers: seq<PwospfRouter>
    var ports: seq<LinkPort>
    var broadcast: bool
    var queue: seq<Packet>

    /** One entry per router, and one of them our own. */
    ghost predicate Valid()
      reads this
    {
      DistinctIds(routers) && HasId(routers, routerId)
    }

    ghost predicate Abs(n: Node)
      reads this, routers
    {
      StandsFor(routerId, routers, n) && n.nbrs == Reach(ports) && n.broadcast == broadcast
    }

    /** Queues a copy for every neighbour on an active interface but one at the address `except`. */
    method BroadcastLsu(lsu: Lsu, except: int)
      modifies this`queue
      ensures queue == old(queue) + Copies(Reach(ports), lsu, except)
      ensures old(queue) <= queue && ReachesAll(ports, lsu, except, queue[|old(queue)|..])
    {
      for i := 0 to |ports|
        invariant queue == old(queue) + Copies(Reach(ports[..i]), lsu, except)
      {
        ReachNext(old(queue), ports, i, lsu, except);
        if ports[i].active {
          QueueCopies(ports[i].ip, ports[i].nbrs, lsu, except);
        }
      }
      assert ports[..|ports|] == ports;
      ghost var places := CopiesReach(ports, lsu, except);
      assert queue[|old(queue)|..] == Copies(Reach(ports), lsu, except);
    }

    /** The walk over the neighbours of one interface. */
    method QueueCopies(ip: Addr, nbrs: seq<Neighbors.Nbr>, lsu: Lsu, except: int)
      modifies this`queue
      ensures queue == old(queue) + Copies(Links(ip, nbrs), lsu, except)
    {
      for j := 0 to |nbrs|
        invariant queue == old(queue) + Copies(Links(ip, nbrs[..j]), lsu, except)
      {
        LinksNext(ip, nbrs, j, lsu, except);
        if nbrs[j].ip != except {
          queue := queue + [Packet(nbrs[j].rid, ip, lsu)];
        }
      }
      assert nbrs[..|nbrs|] == nbrs;
    }

    /** Advertises our own entry under its next number. */
    method StartLsuFlood(now: int, ghost n: Node)
      requires Valid() && Abs(n)
      modifies this`queue, routers
      ensures Valid() && Abs(NodeFlood(routerId, n).0)
      ensures queue == old(queue) + NodeFlood(routerId, n).1
      ensures old(queue) <= queue && if !broadcast then queue == old(queue) else
                ReachesAll(ports, Lsu(routerId, n.seqno, 64, OwnAdvs(n.own)), -1, queue[|old(queue)|..])
      ensures forall i :: 0 <= i < |routers| ==> routers[i].interfaces == old(routers[i].interfaces)
      ensures forall r :: r in routers && r.routerId != routerId ==> r.lastUpdate == old(r.lastUpdate)
    {
      if !broadcast {
        return;
      }
      var lsu := ConstructLsu(now, n);
      BroadcastLsu(lsu, -1);
    }

    /** Builds the update of our own entry and takes the next number. */
    method ConstructLsu(now: int, ghost n: Node) returns (lsu: Lsu)
      requires Valid() && Abs(n) && broadcast
      modifies routers
      ensures Abs(NodeFlood(routerId, n).0) && lsu == Lsu(routerId, n.seqno, INITIAL_TTL, OwnAdvs(n.own))
      ensures forall i :: 0 <= i < |routers| ==> routers[i].interfaces == old(routers[i].interfaces)
      ensures forall r :: r in routers && r.routerId != routerId ==> r.lastUpdate == old(r.lastUpdate)
    {
      var own, k := ShortestPath.GetRouterByRid(routerId, routers);
      assert EntryAgrees(routerId, n, own);
      PlainAdvs(own.interfaces);
      var advs := BuildAdvs(own.interfaces);
      lsu := Lsu(routerId, own.seqno, INITIAL_TTL, advs);
      own.seqno := (own.seqno + 1) % 0x1_0000;
      own.lastUpdate := now;
      ghost var n' := NodeFlood(routerId, n).0;
      forall i | 0 <= i < |routers| ensures EntryAgrees(routerId, n', routers[i]) {
        assert old(EntryAgrees(routerId, n, routers[i]));
      }
    }

    /** The advertisements of our own entry, in list order. */
    method BuildAdvs(own: seq<Iface>) returns (advs: seq<Adv>)
      ensures advs == OwnAdvs(own)
    {
      advs := [];
      for i := 0 to |own|
        invariant advs == OwnAdvs(own[..i])
      {
        assert own[..i + 1][..i] == own[..i];
        advs := advs + [Adv(own[i].subnet, own[i].mask, own[i].rid)];
      }
      assert own[..|own|] == own;
    }

    /** An update of a router we did not know. */
    method AddNewRouter(p: Lsu, now: int, ghost n: Node)
      requires Valid() && Abs(n) && !HasId(routers, p.origin)
      modifies this`routers
      ensures Valid() && Abs(n.(db := Accept(n.db, p))) && Changes(n.db, p)
      ensures |routers| == |old(routers)| + 1 && old(routers) <= routers && fresh(routers[|old(routers)|])
      ensures var r := routers[|old(routers)|]; r.routerId == p.origin && r.lastUpdate == now
    {
      var r := Heard(p, now);
      JoinStands(routerId, routers, r, n, p);
      routers := routers + [r];
    }

    /** The entry that an update makes of a router we did not know. */
    method Heard(p: Lsu, now: int) returns (r: PwospfRouter)
      ensures fresh(r) && Tells(r, p) && r.lastUpdate == now
    {
      r := new PwospfRouter(p.origin);
      r.seqno, r.lastUpdate := p.seqno, now;
      var changed := PopulateInterfaceList(r, p.advs);
      FreshIsPlain(p.advs);
    }

    /** A newer update of a router we know. The result says whether it tells something new. */
    method Update(r: PwospfRouter, p: Lsu, now: int, ghost n: Node) returns (changed: bool)
      requires Valid() && Abs(n) && r in routers && r.routerId == p.origin != routerId && p.seqno > r.seqno
      modifies r
      ensures Valid() && Abs(n.(db := Accept(n.db, p))) && changed == Changes(n.db, p)
      ensures r.lastUpdate == now
    {
      assert EntryAgrees(routerId, n, r);
      r.lastUpdate := now;
      r.seqno := p.seqno;
      PlainMerge(r.interfaces, p.advs);
      StoredPlain(r.interfaces);
      changed := PopulateInterfaceList(r, p.advs);
      ghost var n' := n.(db := Accept(n.db, p));
      forall i | 0 <= i < |routers| ensures EntryAgrees(routerId, n', routers[i]) {
        assert old(EntryAgrees(routerId, n, routers[i]));
      }
    }

    /** Sets one flag. */
    method Activate(r: PwospfRouter, c: nat, ghost db: Db, ghost i: nat)
      requires Shaped(db, routers) && DistinctIds(routers) && i < |routers| && routers[i] == r && InDb(db, i, c)
      modifies r`interfaces
      ensures Shaped(db, routers) && FlagSet(r.interfaces, old(r.interfaces), c, true)
    {
      assert r.interfaces[c].(active := false) == Plain(r.interfaces)[c];
      r.interfaces := r.interfaces[c := r.interfaces[c].(active := true)];
      assert Plain(r.interfaces) == db.lists[i];
    }

    /** Clears the flag of the entry that is looked at next. */
    method Deactivate(r: PwospfRouter, c: nat, ghost db: Db, ghost i: nat)
      requires Shaped(db, routers) && DistinctIds(routers) && i < |routers| && routers[i] == r && InDb(db, i, c)
      requires Judged(db, routers, i, c)
      modifies r`interfaces
      ensures Shaped(db, routers) && FlagSet(r.interfaces, old(r.interfaces), c, false)
      ensures Judged(db, routers, i, c)
    {
      assert r.interfaces[c].(active := false) == Plain(r.interfaces)[c];
      r.interfaces := r.interfaces[c := r.interfaces[c].(active := false)];
      assert Plain(r.interfaces) == db.lists[i];
    }

    /** Looks for the link of one entry in the list of the router it names. */
    method MatchEntry(x: PwospfRouter, y: PwospfRouter, ghost db: Db, ghost z: nat, ghost j: nat, a: nat)
      requires DistinctIds(routers) && Shaped(db, routers) && Judged(db, routers, z, a) && InDb(db, z, a)
      requires routers[z] == x && j < |routers| && routers[j] == y && y.routerId == db.lists[z][a].rid
      requires a < |x.interfaces| && !x.interfaces[a].active
      modifies x`interfaces, y`interfaces
      ensures Shaped(db, routers) && Judged(db, routers, z, a + 1)
    {
      for b := 0 to |y.interfaces|
        invariant Shaped(db, routers) && |y.interfaces| == |db.lists[j]| && InDb(db, z, a)
        invariant Matching(db, routers, z, a, j, b)
      {
        var this_, another := x.interfaces[a], y.interfaces[b];
        assert this_.(active := false) == Plain(x.interfaces)[a] && another.(active := false) == Plain(y.interfaces)[b];
        if this_.subnet == another.subnet && this_.mask == another.mask && !(this_.rid == 0 || another.rid == 0) {
          Activate(x, a, db, z);
          Activate(y, b, db, j);
        }
      }
      MatchingEnds(db, routers, z, a, j, |y.interfaces|);
    }

    /** Sets the flags of one router's entries, and of those they are linked with. */
    method DetermineActiveInterfaces(x: PwospfRouter, ghost db: Db, ghost z: nat)
      requires DistinctIds(routers) && Shaped(db, routers) && Judged(db, routers, z, 0) && z < |routers| &&
               routers[z] == x
      modifies routers`interfaces
      ensures Shaped(db, routers) && Judged(db, routers, z + 1, 0)
    {
      ShapedLength(db, routers, z);
      for a := 0 to |x.interfaces|
        invariant Shaped(db, routers) && Judged(db, routers, z, a) && |x.interfaces| == |db.lists[z]|
      {
        DetermineEntry(x, db, z, a);
      }
      NextRouter(db, routers, z, |x.interfaces|);
    }

    /** Sets the flag of one entry, and of those it is linked with. */
    method DetermineEntry(x: PwospfRouter, ghost db: Db, ghost z: nat, a: nat)
      requires DistinctIds(routers) && Shaped(db, routers) && Judged(db, routers, z, a) && z < |routers| &&
               routers[z] == x && a < |x.interfaces| == |db.lists[z]|
      modifies routers`interfaces
      ensures Shaped(db, routers) && Judged(db, routers, z, a + 1) && |x.interfaces| == |db.lists[z]|
    {
      Deactivate(x, a, db, z);
      assert x.interfaces[a].(active := false) == Plain(x.interfaces)[a];
      var y, j := ShortestPath.GetRouterByRid(x.interfaces[a].rid, routers);
      if y != null {
        MatchEntry(x, y, db, z, j, a);
      } else {
        UnansweredEntry(db, routers, z, a);
      }
      ShapedLength(db, routers, z);
    }

    /** The flags of every router are set again. */
    method SettleFlags() returns (ghost db: Db)
      requires DistinctIds(routers)
      modifies routers`interfaces
      ensures Shaped(db, routers) && Judged(db, routers, |routers|, 0) && db == old(DbOf(routers))
    {
      db := DbOf(routers);
      for z := 0 to |routers|
        invariant Shaped(db, routers) && Judged(db, routers, z, 0)
      {
        DetermineActiveInterfaces(routers[z], db, z);
      }
    }

    /** After a change: the flags are settled, and our own entry is advertised. */
    method Propagate(now: int, ghost n: Node) returns (ghost db: Db)
      requires Valid() && Abs(n)
      modifies this`queue, routers
      ensures Valid() && Abs(NodeFlood(routerId, n).0) && queue == old(queue) + NodeFlood(routerId, n).1
      ensures Shaped(db, routers) && Judged(db, routers, |routers|, 0)
      ensures forall r :: r in routers && r.routerId != routerId ==> r.lastUpdate == old(r.lastUpdate)
    {
      db := Settle(n);
      assert forall r :: r in routers ==> r.lastUpdate == old(r.lastUpdate);
      FloodSettled(now, n, db);
    }

    method Settle(ghost n: Node) returns (ghost db: Db)
      requires Valid() && Abs(n)
      modifies routers`interfaces
      ensures Valid() && Abs(n) && Shaped(db, routers) && Judged(db, routers, |routers|, 0)
    {
      db := SettleFlags();
      forall i | 0 <= i < |routers| ensures EntryAgrees(routerId, n, routers[i]) {
        assert old(EntryAgrees(routerId, n, routers[i]));
      }
    }

    /** A flood leaves the flags alone. */
    method FloodSettled(now: int, ghost n: Node, ghost db: Db)
      requires Valid() && Abs(n) && Shaped(db, routers) && Judged(db, routers, |routers|, 0)
      modifies this`queue, routers
      ensures Valid() && Abs(NodeFlood(routerId, n).0) && queue == old(queue) + NodeFlood(routerId, n).1
      ensures Shaped(db, routers) && Judged(db, routers, |routers|, 0)
      ensures forall r :: r in routers && r.routerId != routerId ==> r.lastUpdate == old(r.lastUpdate)
    {
      StartLsuFlood(now, n);
      forall i, c | InDb(db, i, c) ensures FlagOk(db, routers[i], i, c, |routers|, 0) {
        assert old(FlagOk(db, routers[i], i, c, |routers|, 0));
      }
    }

    /** A link-state update arrives: the router takes its part of the network's delivery step. */
    method ProcessLsu(p: Packet, now: int, ghost n: Node) returns (ghost db: Db)
      requires Valid() && Abs(n)
      modifies this`queue, this`routers, routers
      ensures Valid() && Abs(NodeReceive(routerId, n, p).0)
      ensures queue == old(queue) + NodeReceive(routerId, n, p).1
      ensures p.lsu.origin != routerId && Accepts(n.db, p.lsu) && Changes(n.db, p.lsu) ==>
                Shaped(db, routers) && Judged(db, routers, |routers|, 0)
      ensures forall r :: r in routers && r.routerId != routerId ==>
                if r.routerId == p.lsu.origin && Accepts(n.db, p.lsu) then r.lastUpdate == now
                else r in old(routers) && r.lastUpdate == old(r.lastUpdate)
      ensures forall i :: 0 <= i < |routers| ==> routers[i] in old(routers) || fresh(routers[i])
    {
      db := DbOf(routers);
      if routerId == p.lsu.origin {
        return;
      }
      var rebroadcast, update := Learn(p.lsu, now, n);
      db := PassOn(p, now, rebroadcast, update, n);
    }

    /** The second half of the handler: the update is sent on, and a change is advertised. */
    method PassOn(p: Packet, now: int, rebroadcast: bool, update: bool, ghost n: Node) returns (ghost db: Db)
      requires Valid() && Abs(NodeLearn(routerId, n, p).0) && p.lsu.origin != routerId
      requires rebroadcast == Accepts(n.db, p.lsu) && update == (Accepts(n.db, p.lsu) && Changes(n.db, p.lsu))
      modifies this`queue, routers
      ensures Valid() && Abs(NodeReceive(routerId, n, p).0)
      ensures queue == old(queue) + NodeReceive(routerId, n, p).1
      ensures update ==> Shaped(db, routers) && Judged(db, routers, |routers|, 0)
      ensures forall r :: r in routers && r.routerId != routerId ==> r.lastUpdate == old(r.lastUpdate)
    {
      db := DbOf(routers);
      ghost var (n', relay) := NodeLearn(routerId, n, p);
      RelayUpdate(p, rebroadcast, n);
      if update {
        db := Propagate(now, n');
        QueueSplits(old(queue), relay, NodeFlood(routerId, n').1);
      }
    }

    /** The update is sent on with its time to live lowered, if it was accepted and any is left. */
    method RelayUpdate(p: Packet, rebroadcast: bool, ghost n: Node)
      requires n.nbrs == Reach(ports)
      modifies this`queue
      ensures queue == old(queue) + if rebroadcast then Relay(n, p) else []
      ensures rebroadcast && p.lsu.ttl >= 2 ==>
                ReachesAll(ports, p.lsu.(ttl := p.lsu.ttl - 1), p.src, queue[|old(queue)|..])
    {
      var ttl: Word16 := (p.lsu.ttl - 1) % 0x1_0000;
      assert ttl == LowerTtl(p.lsu.ttl);
      if rebroadcast && ttl > 0 {
        BroadcastLsu(p.lsu.(ttl := ttl), p.src);
        assert Relay(n, p) == Copies(n.nbrs, p.lsu.(ttl := ttl), p.src);
      } else {
        assert queue + [] == queue;
      }
    }

    /** The first half of the handler: the update is stored if it is new. */
    method Learn(lsu: Lsu, now: int, ghost n: Node) returns (rebroadcast: bool, update: bool)
      requires Valid() && Abs(n) && lsu.origin != routerId
      modifies this`routers, routers
      ensures Valid() && Abs(if Accepts(n.db, lsu) then n.(db := Accept(n.db, lsu)) else n)
      ensures rebroadcast == Accepts(n.db, lsu) && update == (Accepts(n.db, lsu) && Changes(n.db, lsu))
      ensures forall i :: 0 <= i < |routers| ==> routers[i] in old(routers) || fresh(routers[i])
      ensures forall r :: r in routers && r.routerId != routerId ==>
                if r.routerId == lsu.origin && Accepts(n.db, lsu) then r.lastUpdate == now
                else r in old(routers) && r.lastUpdate == old(r.lastUpdate)
    {
      rebroadcast, update := false, false;
      var r, k := ShortestPath.GetRouterByRid(lsu.origin, routers);
      if r != null {
        assert EntryAgrees(routerId, n, r);
        if r.seqno != lsu.seqno && lsu.seqno > r.seqno {
          rebroadcast := true;
          update := Renew(r, k, lsu, now, n);
        }
      } else {
        rebroadcast := true;
        NotStored(lsu.origin, n);
        Admit(lsu, now, n);
        update := true;
      }
    }

    /** The branch of a known router: its entry is renewed and no other touched. */
    method Renew(r: PwospfRouter, ghost k: nat, p: Lsu, now: int, ghost n: Node) returns (changed: bool)
      requires Valid() && Abs(n) && k < |routers| && routers[k] == r
      requires r.routerId == p.origin != routerId && p.seqno > r.seqno
      modifies r
      ensures Valid() && Abs(n.(db := Accept(n.db, p))) && changed == Changes(n.db, p)
      ensures forall x :: x in routers && x.routerId != routerId ==>
                x.lastUpdate == if x.routerId == p.origin then now else old(x.lastUpdate)
    {
      OneWithId(routers, k);
      changed := Update(r, p, now, n);
    }

    /** The branch of a new router: it is heard now, and the others stay as they are. */
    method Admit(p: Lsu, now: int, ghost n: Node)
      requires Valid() && Abs(n) && !HasId(routers, p.origin)
      modifies this`routers
      ensures Valid() && Abs(n.(db := Accept(n.db, p))) && Changes(n.db, p)
      ensures forall i :: 0 <= i < |routers| ==> routers[i] in old(routers) || fresh(routers[i])
      ensures forall r :: r in routers && r.routerId != routerId ==>
                if r.routerId == p.origin then r.lastUpdate == now
                else r in old(routers) && r.lastUpdate == old(r.lastUpdate)
    {
      ghost var all := routers;
      AddNewRouter(p, now, n);
      LastIsNew(all, routers, p.origin);
    }

    lemma LastIsNew(all: seq<PwospfRouter>, more: seq<PwospfRouter>, o: RouterId)
      requires |more| == |all| + 1 && all <= more && !HasId(all, o) && more[|all|].routerId == o
      ensures forall r :: r in more ==> if r.routerId == o then r == more[|all|] else r in all
    {
      forall r | r in more ensures if r.routerId == o then r == more[|all|] else r in all {
        var i :| 0 <= i < |more| && more[i] == r;
        if i < |all| {
          assert all[i] == r;
        }
      }
    }

    lemma NotStored(o: RouterId, n: Node)
      requires Abs(n) && forall i :: 0 <= i < |routers| ==> routers[i].routerId != o
      ensures o !in n.db && !HasId(routers, o)
    {
    }

    /** Routers that have been silent for three intervals are forgotten: the router's part of that step. */
    method ExpireRouters(now: int, interval: int, ghost n: Node) returns (ghost gone: set<RouterId>)
      requires Valid() && Abs(n)
      modifies this`queue, this`routers, routers
      ensures Valid() && Abs(NodeExpire(routerId, n, gone).0)
      ensures queue == old(queue) + NodeExpire(routerId, n, gone).1
      ensures old(AreSilent(gone, routers, now, interval))
      ensures forall r :: r in routers ==>
                r in old(routers) && (r.routerId != routerId ==> r.lastUpdate == old(r.lastUpdate))
      ensures forall r :: r in old(routers) ==>
                (r in routers <==> r.routerId == routerId || now - old(r.lastUpdate) <= 3 * interval)
    {
      var timeout;
      timeout, gone := RemoveSilent(now, interval, n);
      if timeout {
        ghost var db := Propagate(now, n.(db := n.db - gone));
      }
    }

    /** One piece of work on a router that was heard at `now`, and not since. */
    method Serve(w: Work, o: RouterId, now: int, ghost n: Node) returns (ghost n': Node)
      requires Valid() && Abs(n) && o != routerId && (w.Hear? ==> w.p.lsu.origin != o)
      modifies this`queue, this`routers, routers
      ensures Valid() && Abs(n')
      ensures forall i :: 0 <= i < |routers| ==> routers[i] in old(routers) || fresh(routers[i])
      ensures old(!HasId(routers, o)) ==> !HasId(routers, o)
      ensures old(HeardAt(routers, o, now)) ==> if TooLate(w, now) then !HasId(routers, o) else HeardAt(routers, o, now)
    {
      match w
      case Hear(p, t) => n' := ServeUpdate(p, t, o, now, n);
      case Check(t, interval) => n' := ServeCheck(t, interval, o, now, n);
    }

    method ServeUpdate(p: Packet, t: int, o: RouterId, now: int, ghost n: Node) returns (ghost n': Node)
      requires Valid() && Abs(n) && o != routerId && p.lsu.origin != o
      modifies this`queue, this`routers, routers
      ensures Valid() && Abs(n')
      ensures forall i :: 0 <= i < |routers| ==> routers[i] in old(routers) || fresh(routers[i])
      ensures old(!HasId(routers, o)) ==> !HasId(routers, o)
      ensures old(HeardAt(routers, o, now)) ==> HeardAt(routers, o, now)
    {
      n' := NodeReceive(routerId, n, p).0;
      ghost var all := routers;
      ghost var db := ProcessLsu(p, t, n);
      assert o in n'.db <==> o in n.db;
      assert old(HasId(routers, o)) <==> o in n.db by {
        assert forall i :: 0 <= i < |all| ==> old(EntryAgrees(routerId, n, all[i]));
      }
      if o in n'.db {
        ghost var j :| 0 <= j < |routers| && routers[j].routerId == o;
        assert routers[j] in routers;
        ghost var k :| 0 <= k < |all| && all[k] == routers[j];
      } else {
        assert forall i :: 0 <= i < |routers| ==> EntryAgrees(routerId, n', routers[i]);
      }
    }

    method ServeCheck(t: int, interval: int, o: RouterId, now: int, ghost n: Node) returns (ghost n': Node)
      requires Valid() && Abs(n) && o != routerId
      modifies this`queue, this`routers, routers
      ensures Valid() && Abs(n')
      ensures forall i :: 0 <= i < |routers| ==> routers[i] in old(routers) || fresh(routers[i])
      ensures old(!HasId(routers, o)) ==> !HasId(routers, o)
      ensures old(HeardAt(routers, o, now)) ==>
                if t - now > 3 * interval then !HasId(routers, o) else HeardAt(routers, o, now)
    {
      ghost var all := routers;
      ghost var gone := ExpireRouters(t, interval, n);
      n' := NodeExpire(routerId, n, gone).0;
      if j :| 0 <= j < |all| && all[j].routerId == o && old(all[j].lastUpdate) == now {
        OneWithId(all, j);
        if t - now <= 3 * interval {
          assert all[j] in routers;
        }
      }
    }

    /**
     A router heard at `now` and not since is in the list, after any work, if and only if every
     check was made within three intervals of that time.
     */
    method ServeAll(work: seq<Work>, o: RouterId, now: int, ghost n: Node) returns (ghost n': Node)
      requires Valid() && Abs(n) && o != routerId && HeardAt(routers, o, now)
      requires forall k :: 0 <= k < |work| && work[k].Hear? ==> work[k].p.lsu.origin != o
      modifies this`queue, this`routers, routers
      ensures Valid() && Abs(n')
      ensures HasId(routers, o) <==> InTime(work, |work|, now)
    {
      n' := n;
      for k := 0 to |work|
        invariant Valid() && Abs(n')
        invariant forall i :: 0 <= i < |routers| ==> routers[i] in old(routers) || fresh(routers[i])
        invariant if InTime(work, k, now) then HeardAt(routers, o, now) else !HasId(routers, o)
      {
        InTimeNext(work, k, now);
        n' := Serve(work[k], o, now, n');
      }
    }

    /** An update that is accepted now is heard now. */
    method HearNow(p: Packet, now: int, ghost n: Node) returns (ghost n': Node)
      requires Valid() && Abs(n) && p.lsu.origin != routerId && Accepts(n.db, p.lsu)
      modifies this`queue, this`routers, routers
      ensures Valid() && Abs(n') && HeardAt(routers, p.lsu.origin, now)
    {
      n' := NodeReceive(routerId, n, p).0;
      ghost var db := ProcessLsu(p, now, n);
      assert p.lsu.origin in n'.db;
      ghost var j :| 0 <= j < |routers| && routers[j].routerId == p.lsu.origin;
      assert routers[j] in routers;
    }

    /** Our own entry is never silent. */
    predicate Silent(r: PwospfRouter, now: int, interval: int)
      reads r
    {
      r.routerId != routerId && now - r.lastUpdate > interval * 3
    }

    /** The ids are those of the silent routers. */
    ghost predicate AreSilent(gone: set<RouterId>, all: seq<PwospfRouter>, now: int, interval: int)
      reads all
    {
      forall o :: o in gone <==> exists r :: r in all && r.routerId == o && Silent(r, now, interval)
    }

    /** At the end of the walk the routers gone are the silent ones. */
    lemma GoneIsSilent(all: seq<PwospfRouter>, list: seq<PwospfRouter>, gone: set<RouterId>, now: int, interval: int)
      requires Forgot(all, list, gone, now, interval) && AllHeard(list, |list|, now, interval)
      ensures AreSilent(gone, all, now, interval)
    {
    }

    /** What the walk has done: only silent routers are gone, and each is noted. */
    ghost predicate Forgot(all: seq<PwospfRouter>, list: seq<PwospfRouter>, gone: set<RouterId>, now: int,
                           interval: int)
      reads all
    {
      && (forall i :: 0 <= i < |list| ==> list[i] in all)
      && (forall r :: r in all ==> r in list || (Silent(r, now, interval) && r.routerId in gone))
      && forall o :: o in gone ==> exists r :: r in all && r.routerId == o && Silent(r, now, interval)
    }

    lemma ForgotNext(all: seq<PwospfRouter>, list: seq<PwospfRouter>, gone: set<RouterId>, now: int, interval: int,
                     k: nat)
      requires Forgot(all, list, gone, now, interval) && k < |list| && Silent(list[k], now, interval)
      ensures Forgot(all, list[..k] + list[k + 1..], gone + {list[k].routerId}, now, interval)
    {
      assert forall x :: x in list <==> x in list[..k] + list[k + 1..] || x == list[k];
    }

    /** Removes one entry that is not our own. */
    method Forget(k: nat, ghost n: Node)
      requires Valid() && Abs(n) && k < |routers| && routers[k].routerId != routerId
      modifies this`routers
      ensures Valid() && Abs(n.(db := n.db - {old(routers)[k].routerId})) && old(routers)[k].routerId in n.db
      ensures routers == old(routers)[..k] + old(routers)[k + 1..]
    {
      assert EntryAgrees(routerId, n, routers[k]);
      ForgetStands(routerId, routers, k, n);
      routers := routers[..k] + routers[k + 1..];
    }

    /** The walk of the timeout thread. */
    method RemoveSilent(now: int, interval: int, ghost n: Node) returns (timeout: bool, ghost gone: set<RouterId>)
      requires Valid() && Abs(n)
      modifies this`routers
      ensures Valid() && Abs(n.(db := n.db - gone)) && timeout == (gone * n.db.Keys != {}) && (!timeout ==> gone == {})
      ensures old(AreSilent(gone, routers, now, interval))
      ensures forall i :: 0 <= i < |routers| ==> routers[i] in old(routers)
      ensures forall r :: r in old(routers) ==>
                (r in routers <==> r.routerId == routerId || now - r.lastUpdate <= 3 * interval)
    {
      timeout, gone := false, {};
      ghost var all := routers;
      var k := 0;
      assert n.db - {} == n.db;
      while k < |routers|
        invariant k <= |routers| && Valid() && Abs(n.(db := n.db - gone)) && Forgot(all, routers, gone, now, interval)
        invariant gone <= n.db.Keys && timeout == (gone != {}) && AllHeard(routers, k, now, interval)
        decreases |routers| - k
      {
        if Silent(routers[k], now, interval) {
          gone := ForgetSilent(k, all, gone, now, interval, n);
          timeout := true;
        } else {
          HeardNext(routers, k, now, interval);
          k := k + 1;
        }
      }
      GoneIsSilent(all, routers, gone, now, interval);
    }

    /** The routers before the cursor are not silent. */
    ghost predicate AllHeard(list: seq<PwospfRouter>, k: nat, now: int, interval: int)
      reads list
    {
      forall i :: 0 <= i < k && i < |list| ==> !Silent(list[i], now, interval)
    }

    lemma HeardNext(list: seq<PwospfRouter>, k: nat, now: int, interval: int)
      requires k < |list| && AllHeard(list, k, now, interval) && !Silent(list[k], now, interval)
      ensures AllHeard(list, k + 1, now, interval)
    {
    }

    lemma HeardStay(list: seq<PwospfRouter>, k: nat, now: int, interval: int)
      requires k < |list| && AllHeard(list, k, now, interval)
      ensures AllHeard(list[..k] + list[k + 1..], k, now, interval)
    {
    }

    /** Removes the silent router under the cursor. */
    method ForgetSilent(k: nat, ghost all: seq<PwospfRouter>, ghost gone: set<RouterId>, now: int, interval: int,
                        ghost n: Node)
      returns (ghost gone': set<RouterId>)
      requires Valid() && Abs(n.(db := n.db - gone)) && gone <= n.db.Keys && Forgot(all, routers, gone, now, interval)
      requires k < |routers| && Silent(routers[k], now, interval) && AllHeard(routers, k, now, interval)
      modifies this`routers
      ensures Valid() && Abs(n.(db := n.db - gone')) && gone' <= n.db.Keys && gone' != {}
      ensures Forgot(all, routers, gone', now, interval)
      ensures |routers| == |old(routers)| - 1 && AllHeard(routers, k, now, interval)
    {
      ForgotNext(all, routers, gone, now, interval, k);
      HeardStay(routers, k, now, interval);
      WithoutTwice(n.db, gone, routers[k].routerId);
      gone' := gone + {routers[k].routerId};
      Forget(k, n.(db := n.db - gone));
    }
  }

  lemma WithoutTwice(db: map<RouterId, Flooding.Entry>, gone: set<RouterId>, o: RouterId)
    ensures db - gone - {o} == db - (gone + {o})
  {
  }

  /** The entry says what a first update says. */
  ghost predicate Tells(r: PwospfRouter, p: Lsu)
    reads r
  {
    r.routerId == p.origin && r.seqno == p.seqno && Plain(r.interfaces) == Merge([], p.advs)
  }

  /** An entry for a router we did not know may be added with its place in the database. */
  lemma JoinStands(me: RouterId, routers: seq<PwospfRouter>, r: PwospfRouter, n: Node, p: Lsu)
    requires DistinctIds(routers) && HasId(routers, me) && StandsFor(me, routers, n)
    requires !HasId(routers, p.origin) && Tells(r, p)
    ensures DistinctIds(routers + [r]) && HasId(routers + [r], me)
    ensures StandsFor(me, routers + [r], n.(db := Accept(n.db, p))) && Changes(n.db, p)
  {
    HasIdAppend(routers, r);
    var all, n' := routers + [r], n.(db := Accept(n.db, p));
    forall i | 0 <= i < |all| ensures EntryAgrees(me, n', all[i]) {
      if i < |routers| {
        assert EntryAgrees(me, n, routers[i]);
      }
    }
  }

  /** An entry that is not our own may be removed with its place in the database. */
  lemma ForgetStands(me: RouterId, routers: seq<PwospfRouter>, k: nat, n: Node)
    requires DistinctIds(routers) && HasId(routers, me) && StandsFor(me, routers, n)
    requires k < |routers| && routers[k].routerId != me
    ensures var rest := routers[..k] + routers[k + 1..];
            DistinctIds(rest) && HasId(rest, me) && StandsFor(me, rest, n.(db := n.db - {routers[k].routerId}))
  {
    var rest, n' := routers[..k] + routers[k + 1..], n.(db := n.db - {routers[k].routerId});
    OthersLeft(routers, k);
    forall i | 0 <= i < |rest| ensures EntryAgrees(me, n', rest[i]) {
      assert EntryAgrees(me, n, routers[if i < k then i else i + 1]);
    }
  }

  lemma OthersLeft(routers: seq<PwospfRouter>, k: nat)
    requires DistinctIds(routers) && k < |routers|
    ensures var rest := routers[..k] + routers[k + 1..];
            DistinctIds(rest) && forall o :: o != routers[k].routerId && HasId(routers, o) ==> HasId(rest, o)
  {
    var rest := routers[..k] + routers[k + 1..];
    forall o | o != routers[k].routerId && HasId(routers, o) ensures HasId(rest, o) {
      var i :| 0 <= i < |routers| && routers[i].routerId == o;
      assert rest[if i < k then i else i - 1] == routers[i];
    }
  }

  /** The database the list holds. */
  ghost function DbOf(routers: seq<PwospfRouter>): (db: Db)
    reads routers
    ensures Shaped(db, routers)
  {
    Db(seq(|routers|, i requires 0 <= i < |routers| => routers[i].routerId),
       seq(|routers|, i requires 0 <= i < |routers| reads routers => Plain(routers[i].interfaces)))
  }

  ghost predicate FlagSet(list: seq<Iface>, was: seq<Iface>, c: nat, on: bool) {
    |list| == |was| && c < |was| && list == was[c := was[c].(active := on)]
  }

  /** One of the first `n` entries of router `j` is linked with entry `a` of router `z`. */
  ghost predicate LinkedBefore(db: Db, z: nat, a: nat, j: nat, n: nat)
    requires InDb(db, z, a) && j < |db.lists|
  {
    exists b :: 0 <= b < n && b < |db.lists[j]| && Linked(db.lists[z][a], db.lists[j][b])
  }

  /**
   The flags while entry `a` of router `z` is matched with the first `n` entries of router
   `j`, the one it names: its own says whether one is linked, those entries are set if they
   are, and the others settled before are as they were.
   */
  ghost predicate Matching(db: Db, routers: seq<PwospfRouter>, z: nat, a: nat, j: nat, n: nat)
    requires |db.lists| == |routers| && InDb(db, z, a) && j < |db.lists|
    reads routers
  {
    && a < |routers[z].interfaces| && (routers[z].interfaces[a].active <==> LinkedBefore(db, z, a, j, n))
    && forall i, c :: InDb(db, i, c) && Before(i, c, z, a) ==>
         && c < |routers[i].interfaces|
         && (routers[i].interfaces[c].active <==>
               || Answers(db, i, c) || AskedUntil(db, i, c, z, a)
               || (i == j && c < n && Linked(db.lists[z][a], db.lists[j][c])))
  }

  /** Asked before the next entry: asked before this one, or by this one. */
  lemma AskedNext(db: Db, i: int, c: int, z: int, a: int)
    requires InDb(db, i, c) && InDb(db, z, a) && Before(i, c, z, a)
    ensures AskedUntil(db, i, c, z, a + 1) <==> AskedUntil(db, i, c, z, a) || Asks(db, z, a, i, c)
  {
    assert Before(z, a, z, a + 1);
  }

  lemma MatchingEnds(db: Db, routers: seq<PwospfRouter>, z: nat, a: nat, j: nat, n: nat)
    requires DistinctIds(routers) && Shaped(db, routers) && InDb(db, z, a) && j < |db.lists| &&
             db.ids[j] == db.lists[z][a].rid
    requires n == |db.lists[j]| && Matching(db, routers, z, a, j, n)
    ensures Judged(db, routers, z, a + 1)
  {
    NamesOne(db, routers, z, a, j);
    forall i, c | InDb(db, i, c) && Before(i, c, z, a + 1) ensures FlagOk(db, routers[i], i, c, z, a + 1) {
      if i == z && c == a {
        assert !AskedUntil(db, i, c, z, a + 1);
      } else {
        AskedNext(db, i, c, z, a);
        assert db.ids[i] == db.ids[j] <==> i == j;
      }
    }
  }

  /** An entry whose router is unknown is not answered, and asks nobody. */
  lemma UnansweredEntry(db: Db, routers: seq<PwospfRouter>, z: nat, a: nat)
    requires Shaped(db, routers) && Judged(db, routers, z, a) && InDb(db, z, a)
    requires a < |routers[z].interfaces| && !routers[z].interfaces[a].active
    requires forall i :: 0 <= i < |routers| ==> routers[i].routerId != db.lists[z][a].rid
    ensures Judged(db, routers, z, a + 1)
  {
    forall i, c | InDb(db, i, c) && Before(i, c, z, a + 1) ensures FlagOk(db, routers[i], i, c, z, a + 1) {
      if i == z && c == a {
        assert !AskedUntil(db, i, c, z, a + 1) && !Answers(db, z, a);
      } else {
        assert FlagOk(db, routers[i], i, c, z, a);
        AskedNext(db, i, c, z, a);
      }
    }
  }

  lemma NextRouter(db: Db, routers: seq<PwospfRouter>, z: nat, n: nat)
    requires |db.ids| == |db.lists| == |routers| && z < |routers| && n == |db.lists[z]| && Judged(db, routers, z, n)
    ensures Judged(db, routers, z + 1, 0)
  {
    forall i, c | InDb(db, i, c) && Before(i, c, z + 1, 0) ensures FlagOk(db, routers[i], i, c, z + 1, 0) {
      assert FlagOk(db, routers[i], i, c, z, n);
      assert forall j, b :: InDb(db, j, b) ==> (Before(j, b, z, n) <==> Before(j, b, z + 1, 0));
    }
  }

  /** With distinct identifiers the named router is the only one that can answer. */
  lemma NamesOne(db: Db, routers: seq<PwospfRouter>, z: nat, a: nat, j: nat)
    requires DistinctIds(routers) && Shaped(db, routers) && InDb(db, z, a) && j < |routers| &&
             db.ids[j] == db.lists[z][a].rid
    ensures Answers(db, z, a) <==> exists b :: 0 <= b < |db.lists[j]| && Linked(db.lists[z][a], db.lists[j][b])
  {
    assert forall k :: 0 <= k < |routers| && db.ids[k] == db.ids[j] ==> k == j;
    if b :| 0 <= b < |db.lists[j]| && Linked(db.lists[z][a], db.lists[j][b]) {
      assert InDb(db, j, b);
    }
  }

  /**
   The own entry that hellos and timeouts leave is one the network may be told to advertise:
   its subnets are masked, as the agreement of the databases needs.
   */
  lemma RunSetsGoodOwn(s: Neighbors.State, interval: int, events: seq<Neighbors.Event>, rid: RouterId)
    requires MaskedEntries(s.own)
    ensures GoodEvent(SetOwn(rid, Neighbors.Run(s, interval, events).own))
  {
    Neighbors.RunKeepsMasked(s, interval, events);
  }
}
