/**
 The end of the route computation (compute_rtable in or_dijkstra.c): every route wrapper is
 given an interface and a gateway. The interfaces are those of the hello protocol, so what
 our own entry mirrors is what makes the lookups succeed.
 */
module Forwarding {
  import opened PwospfTypes
  import opened ShortestPath
  import opened Routes
  import Neighbors
  import opened Selection
  import RoutingTable

  datatype NamedPort = NamedPort(name: string, port: Neighbors.Port)

  // ----- the lookups

  /** Where the neighbour is in the list, or the list's length. */
  function NbrAt(nbrs: seq<Neighbors.Nbr>, rid: RouterId): (k: nat)
    ensures k <= |nbrs| && (k < |nbrs| ==> nbrs[k].rid == rid) && forall i :: 0 <= i < k ==> nbrs[i].rid != rid
  {
    if nbrs == [] || nbrs[0].rid == rid then 0 else 1 + NbrAt(nbrs[1..], rid)
  }

  predicate Hears(p: NamedPort, rid: RouterId) {
    NbrAt(p.port.nbrs, rid) < |p.port.nbrs|
  }

  predicate OnPort(p: NamedPort, ip: Addr, mask: Addr) {
    Net(p.port.ip, p.port.mask) == ip && p.port.mask == mask
  }

  /** The first interface on which a router is heard; none for the blank identifier. */
  method GetIfaceByRid(rid: RouterId, ports: seq<NamedPort>) returns (i: nat)
    ensures i <= |ports| && (i < |ports| ==> rid != BLANK && Hears(ports[i], rid))
    ensures rid != BLANK ==> forall j :: 0 <= j < i ==> !Hears(ports[j], rid)
    ensures rid == BLANK ==> i == |ports|
  {
    if rid == BLANK {
      return |ports|;
    }
    i := 0;
    while i < |ports|
      invariant i <= |ports| && forall j :: 0 <= j < i ==> !Hears(ports[j], rid)
    {
      var k := GetNbrByRid(ports[i], rid);
      if k < |ports[i].port.nbrs| {
        return;
      }
      i := i + 1;
    }
  }

  method GetNbrByRid(p: NamedPort, rid: RouterId) returns (k: nat)
    ensures k == NbrAt(p.port.nbrs, rid)
  {
    k := 0;
    while k < |p.port.nbrs| && p.port.nbrs[k].rid != rid
      invariant k <= |p.port.nbrs| && NbrAt(p.port.nbrs, rid) == k + NbrAt(p.port.nbrs[k..], rid)
    {
      k := k + 1;
    }
  }

  method GetIfaceBySubnetMask(ip: Addr, mask: Addr, ports: seq<NamedPort>) returns (i: nat)
    ensures i <= |ports| && (i < |ports| ==> OnPort(ports[i], ip, mask))
    ensures forall j :: 0 <= j < i ==> !OnPort(ports[j], ip, mask)
  {
    i := 0;
    while i < |ports| && !OnPort(ports[i], ip, mask)
      invariant i <= |ports| && forall j :: 0 <= j < i ==> !OnPort(ports[j], ip, mask)
    {
      i := i + 1;
    }
  }

  // ----- what a finished route says

  /** The interface chosen for a wrapper: the first that hears its next router, or else the first on its subnet. */
  ghost predicate Chosen(ports: seq<NamedPort>, w: RouteWrapper, i: int) {
    && 0 <= i < |ports|
    && if w.nextRid != BLANK && exists j :: 0 <= j < |ports| && Hears(ports[j], w.nextRid)
       then Hears(ports[i], w.nextRid) && forall j :: 0 <= j < i ==> !Hears(ports[j], w.nextRid)
       else OnPort(ports[i], w.ip, w.mask) && forall j :: 0 <= j < i ==> !OnPort(ports[j], w.ip, w.mask)
  }

  ghost predicate HasIface(ports: seq<NamedPort>, w: RouteWrapper) {
    exists i :: Chosen(ports, w, i)
  }

  /** The `k`-th neighbour is the router, at the address. */
  predicate IsNbr(nbrs: seq<Neighbors.Nbr>, k: int, rid: RouterId, ip: Addr) {
    0 <= k < |nbrs| && nbrs[k].rid == rid && nbrs[k].ip == ip
  }

  ghost predicate Finished(ports: seq<NamedPort>, w: RouteWrapper, r: RoutingTable.Route) {
    && r.ip == w.ip && r.mask == w.mask && r.isActive && !r.isStatic
    && exists i :: Chosen(ports, w, i) && r.iface == ports[i].name
         && if w.direct then r.gw == 0
            else exists k :: IsNbr(ports[i].port.nbrs, k, w.nextRid, r.gw)
  }

  /** Every subnet of an interface is advertised by our own entry, so its wrapper is direct. */
  ghost predicate PortsAreDirect(ports: seq<NamedPort>, ws: seq<RouteWrapper>) {
    forall a, i :: 0 <= a < |ws| && 0 <= i < |ports| && OnPort(ports[i], ws[a].ip, ws[a].mask) ==> ws[a].direct
  }

  /** The routes are those of the wrappers that have an interface, in order. */
  ghost predicate RoutesFor(ports: seq<NamedPort>, ws: seq<RouteWrapper>, rs: seq<RoutingTable.Route>) {
    if ws == [] then rs == []
    else if HasIface(ports, ws[|ws| - 1]) then
      rs != [] && Finished(ports, ws[|ws| - 1], rs[|rs| - 1]) && RoutesFor(ports, ws[..|ws| - 1], rs[..|rs| - 1])
    else RoutesFor(ports, ws[..|ws| - 1], rs)
  }

  /** One wrapper. The neighbour the code asserts to exist does exist. */
  method FinishRoute(ports: seq<NamedPort>, w: RouteWrapper) returns (found: bool, r: RoutingTable.Route)
    requires forall i :: 0 <= i < |ports| && OnPort(ports[i], w.ip, w.mask) ==> w.direct
    ensures found <==> HasIface(ports, w)
    ensures found ==> Finished(ports, w, r)
  {
    r := RoutingTable.Route(w.ip, 0, w.mask, "", false, true);
    var i := GetIfaceByRid(w.nextRid, ports);
    if i == |ports| {
      i := GetIfaceBySubnetMask(w.ip, w.mask, ports);
      if i == |ports| {
        return false, r;
      }
    }
    assert Chosen(ports, w, i);
    r := r.(iface := ports[i].name);
    if !w.direct {
      var k := GetNbrByRid(ports[i], w.nextRid);
      assert k < |ports[i].port.nbrs|;
      r := r.(gw := ports[i].port.nbrs[k].ip);
      assert IsNbr(ports[i].port.nbrs, k, w.nextRid, r.gw);
    }
    found := true;
  }

  /** The loop over the wrappers. */
  method FinishRoutes(ports: seq<NamedPort>, ws: seq<RouteWrapper>) returns (rs: seq<RoutingTable.Route>)
    requires PortsAreDirect(ports, ws)
    ensures RoutesFor(ports, ws, rs)
  {
    rs := [];
    for a := 0 to |ws|
      invariant RoutesFor(ports, ws[..a], rs)
    {
      assert ws[..a + 1][..a] == ws[..a];
      var found, r := FinishRoute(ports, ws[a]);
      if found {
        assert (rs + [r])[..|rs|] == rs;
        rs := rs + [r];
      }
    }
    assert ws[..|ws|] == ws;
  }

  // ----- the routes lead where they should

  /** Our own entry mirrors the ports, has an entry on each subnet, and no neighbour elsewhere. */
  ghost predicate OwnEntryOk(own: seq<Iface>, ports: seq<NamedPort>) {
    && (forall i :: 0 <= i < |ports| ==>
          Neighbors.MirrorsPort(own, ports[i].port) && Neighbors.HasEntry(own, ports[i].port))
    && (forall k :: 0 <= k < |own| ==> Net(own[k].subnet, own[k].mask) == own[k].subnet)
    && forall k :: 0 <= k < |own| && own[k].rid != BLANK ==>
         exists i :: 0 <= i < |ports| && OnPort(ports[i], own[k].subnet, own[k].mask)
  }

  /** What the computation asks of our own entry holds after every run of hellos and timeouts. */
  lemma RunOwnEntryOk(s: Neighbors.State, interval: int, events: seq<Neighbors.Event>, ports: seq<NamedPort>)
    requires Neighbors.MirrorsAll(s) && MaskedEntries(s.own) && Neighbors.NamesOnPorts(s.own, s.ports)
    requires forall i :: 0 <= i < |events| ==> !Neighbors.Poisons(s.ports, interval, events[i])
    requires var s' := Neighbors.Run(s, interval, events);
             |ports| == |s'.ports| && forall i :: 0 <= i < |ports| ==> ports[i].port == s'.ports[i]
    ensures OwnEntryOk(Neighbors.Run(s, interval, events).own, ports)
  {
    var s' := Neighbors.Run(s, interval, events);
    Neighbors.RunMirrors(s, interval, events);
    Neighbors.RunKeepsMasked(s, interval, events);
    Neighbors.RunKeepsNames(s, interval, events);
    forall i | 0 <= i < |ports|
      ensures Neighbors.MirrorsPort(s'.own, ports[i].port) && Neighbors.HasEntry(s'.own, ports[i].port)
    {
      assert Neighbors.MirrorsPort(s'.own, s'.ports[i]);
    }
    forall k | 0 <= k < |s'.own| ensures Net(s'.own[k].subnet, s'.own[k].mask) == s'.own[k].subnet {
      assert s'.own[k] in s'.own;
    }
    forall k | 0 <= k < |s'.own| && s'.own[k].rid != BLANK
      ensures exists i :: 0 <= i < |ports| && OnPort(ports[i], s'.own[k].subnet, s'.own[k].mask)
    {
      var i :| 0 <= i < |s'.ports| &&
          Neighbors.OnSubnet(s'.own[k], Net(s'.ports[i].ip, s'.ports[i].mask), s'.ports[i].mask);
      assert OnPort(ports[i], s'.own[k].subnet, s'.own[k].mask);
    }
  }

  lemma {:induction false} RidsHas(own: seq<Iface>, net: Addr, mask: Addr, rid: RouterId)
    ensures rid in Neighbors.Rids(own, net, mask) <==>
            exists k :: 0 <= k < |own| && Neighbors.OnSubnet(own[k], net, mask) && own[k].rid == rid
  {
    if own != [] {
      RidsHas(own[1..], net, mask, rid);
      if k :| 0 <= k < |own[1..]| && Neighbors.OnSubnet(own[1..][k], net, mask) && own[1..][k].rid == rid {
        assert own[k + 1] == own[1..][k];
      }
    }
  }

  lemma {:induction false} NbrRidsHas(nbrs: seq<Neighbors.Nbr>, rid: RouterId)
    ensures rid in Neighbors.NbrRids(nbrs) <==> NbrAt(nbrs, rid) < |nbrs|
  {
    if nbrs != [] {
      NbrRidsHas(nbrs[1..], rid);
    }
  }

  /** Every neighbour our own entry names is heard on a port of that subnet. */
  lemma OwnEntryIsHeard(own: seq<Iface>, ports: seq<NamedPort>, k: nat) returns (i: nat)
    requires OwnEntryOk(own, ports) && k < |own| && own[k].rid != BLANK
    ensures i < |ports| && OnPort(ports[i], own[k].subnet, own[k].mask) && Hears(ports[i], own[k].rid)
  {
    i :| 0 <= i < |ports| && OnPort(ports[i], own[k].subnet, own[k].mask);
    var p := ports[i].port;
    assert Neighbors.MirrorsPort(own, p);
    RidsHas(own, own[k].subnet, own[k].mask, own[k].rid);
    NbrRidsHas(p.nbrs, own[k].rid);
    assert p.nbrs == [] ==> own[k].rid !in multiset{BLANK};
  }

  /** The subnet of a port is advertised by our own entry: the assertion in the loop holds. */
  lemma PortsAdvertised(g: Graph, source: RouterId, l: Labels, ours: nat, ws: seq<RouteWrapper>, ports: seq<NamedPort>)
    requires Sized(g, l) && ours < |g.ids| && ExactRoutes(g, source, l, ours, ws) && OwnEntryOk(g.links[ours], ports)
    ensures PortsAreDirect(ports, ws)
  {
    forall a, i | 0 <= a < |ws| && 0 <= i < |ports| && OnPort(ports[i], ws[a].ip, ws[a].mask) ensures ws[a].direct {
      var p, own := ports[i].port, g.links[ours];
      assert Neighbors.HasEntry(own, p) && ExactWrapper(g, source, l, ours, ws[a]);
      var rid :| rid in Neighbors.Rids(own, ws[a].ip, ws[a].mask);
      RidsHas(own, ws[a].ip, ws[a].mask, rid);
      var k :| 0 <= k < |own| && Neighbors.OnSubnet(own[k], ws[a].ip, ws[a].mask) && own[k].rid == rid;
      assert Advertises(g, ours, k, ws[a].ip, ws[a].mask);
    }
  }

  /** The router that begins a shortest path is named by our own entry, hence heard on a port. */
  lemma FirstHopIsHeard(g: Graph, source: RouterId, ours: nat, v: nat, rid: RouterId, ports: seq<NamedPort>)
    returns (i: nat)
    requires g.WellFormed() && ours < |g.ids| && g.ids[ours] == source && OwnEntryOk(g.links[ours], ports)
    requires BeginsShortestPath(g, source, v, rid)
    ensures rid != BLANK && i < |ports| && Hears(ports[i], rid)
  {
    var p :| ShortestPathTo(g, source, p, v) && |p| > 1 && g.ids[p[1]] == rid;
    assert Edge(g, p[0], p[0 + 1]) && p[0] == ours;
    var k :| 0 <= k < |g.links[ours]| && Leads(g.links[ours][k], rid);
    i := OwnEntryIsHeard(g.links[ours], ports, k);
  }

  /**
   The gateway of a route is a neighbour heard on the route's interface, and it begins a
   shortest path to the nearest router that advertises the subnet.
   */
  ghost predicate GoodGateway(g: Graph, source: RouterId, l: Labels, ports: seq<NamedPort>, r: RoutingTable.Route)
    requires Sized(g, l)
  {
    exists v, m, i, k ::
      && NearestAdvertiser(g, l, r.ip, r.mask, v, m) && 0 <= i < |ports| && 0 <= k < |ports[i].port.nbrs|
      && r.iface == ports[i].name && r.gw == ports[i].port.nbrs[k].ip
      && BeginsShortestPath(g, source, v, ports[i].port.nbrs[k].rid)
  }

  /**
   A subnet that is not ours and whose nearest advertiser is reachable gets a route, and the
   route's gateway is a neighbour that begins a shortest path there.
   */
  lemma RemoteRoutesLead(g: Graph, source: RouterId, l: Labels, ours: nat, w: RouteWrapper, ports: seq<NamedPort>)
    requires g.WellFormed() && Sized(g, l) && ours < |g.ids| && g.ids[ours] == source
    requires ExactWrapper(g, source, l, ours, w) && OwnEntryOk(g.links[ours], ports)
    requires !w.direct && 0 < w.distance < 0xFFFF
    ensures HasIface(ports, w)
    ensures forall r :: Finished(ports, w, r) ==> GoodGateway(g, source, l, ports, r)
  {
    var v, m :| Nearest16(g, source, l, w, v, m);
    var h := FirstHopIsHeard(g, source, ours, v, w.nextRid, ports);
    var i := FirstThatHears(ports, w.nextRid, h);
    assert Chosen(ports, w, i);
    forall r | Finished(ports, w, r) ensures GoodGateway(g, source, l, ports, r) {
      var j :| Chosen(ports, w, j) && r.iface == ports[j].name
               && exists k :: IsNbr(ports[j].port.nbrs, k, w.nextRid, r.gw);
      var k :| IsNbr(ports[j].port.nbrs, k, w.nextRid, r.gw);
    }
  }

  lemma {:induction false} FirstThatHears(ports: seq<NamedPort>, rid: RouterId, h: nat) returns (i: nat)
    requires h < |ports| && Hears(ports[h], rid)
    ensures i <= h && Hears(ports[i], rid) && forall j :: 0 <= j < i ==> !Hears(ports[j], rid)
  {
    if j :| 0 <= j < h && Hears(ports[j], rid) {
      i := FirstThatHears(ports, rid, j);
    } else {
      i := h;
    }
  }

  // ----- the whole list of routes

  predicate IsRoute(rs: seq<RoutingTable.Route>, a: int, ip: Addr, mask: Addr) {
    0 <= a < |rs| && rs[a].ip == ip && rs[a].mask == mask
  }

  ghost function HasIfaceIn(ports: seq<NamedPort>): RouteWrapper -> bool {
    w => HasIface(ports, w)
  }

  ghost function FinishedIn(ports: seq<NamedPort>): (RouteWrapper, RoutingTable.Route) -> bool {
    (w, r) => Finished(ports, w, r)
  }

  lemma {:induction false} RoutesAreDrawn(ports: seq<NamedPort>, ws: seq<RouteWrapper>, rs: seq<RoutingTable.Route>)
    returns (from: seq<nat>)
    requires RoutesFor(ports, ws, rs)
    ensures Drawn(HasIfaceIn(ports), FinishedIn(ports), ws, rs, from)
    decreases |ws|
  {
    from := [];
    if ws != [] {
      var front, w := ws[..|ws| - 1], ws[|ws| - 1];
      assert front + [w] == ws;
      if HasIface(ports, w) {
        var n := |rs| - 1;
        from := RoutesAreDrawn(ports, front, rs[..n]);
        DrawnNext(HasIfaceIn(ports), FinishedIn(ports), front, w, rs[..n], rs[n], from);
        from := from + [|front|];
        assert rs[..n] + [rs[n]] == rs;
      } else {
        from := RoutesAreDrawn(ports, front, rs);
        DrawnPast(HasIfaceIn(ports), FinishedIn(ports), front, w, rs, from);
      }
    }
  }

  /** Every wrapper with an interface has a route. */
  lemma WrapperHasRoute(ports: seq<NamedPort>, ws: seq<RouteWrapper>, rs: seq<RoutingTable.Route>, a: nat)
    returns (b: nat)
    requires RoutesFor(ports, ws, rs) && a < |ws| && HasIface(ports, ws[a])
    ensures b < |rs| && Finished(ports, ws[a], rs[b])
  {
    var from := RoutesAreDrawn(ports, ws, rs);
    assert HasIfaceIn(ports)(ws[a]);
    b :| b < |from| && from[b] == a;
    assert FinishedIn(ports)(ws[a], rs[b]);
  }

  /** No subnet has two routes. */
  ghost predicate OneRouteEach(rs: seq<RoutingTable.Route>) {
    forall a, b :: 0 <= a < b < |rs| ==> rs[a].ip != rs[b].ip || rs[a].mask != rs[b].mask
  }

  lemma RoutesAreOneEach(ports: seq<NamedPort>, ws: seq<RouteWrapper>, rs: seq<RoutingTable.Route>)
    requires RoutesFor(ports, ws, rs) && OneEach(ws)
    ensures OneRouteEach(rs)
  {
    var from := RoutesAreDrawn(ports, ws, rs);
    forall a, b | 0 <= a < b < |rs| ensures rs[a].ip != rs[b].ip || rs[a].mask != rs[b].mask {
      assert from[a] < from[b];
      assert FinishedIn(ports)(ws[from[a]], rs[a]) && FinishedIn(ports)(ws[from[b]], rs[b]);
    }
  }

  /** Some router that can be reached advertises the subnet, and we do not. */
  ghost predicate Remote(g: Graph, l: Labels, ours: nat, ip: Addr, mask: Addr)
    requires Sized(g, l)
  {
    && (exists v, k :: Advertises(g, v, k, ip, mask) && l.dist[v] < INFINITE)
    && forall k :: !Advertises(g, ours, k, ip, mask)
  }

  /** The routes are active and marked as computed; those of our own subnets need no gateway. */
  ghost predicate Marked(g: Graph, ours: nat, rs: seq<RoutingTable.Route>)
    requires |g.ids| == |g.links|
  {
    forall b :: 0 <= b < |rs| ==>
      && rs[b].isActive && !rs[b].isStatic
      && ((exists k :: Advertises(g, ours, k, rs[b].ip, rs[b].mask)) ==> rs[b].gw == 0)
  }

  lemma RoutesAreMarked(g: Graph, source: RouterId, l: Labels, ours: nat, ws: seq<RouteWrapper>,
                        ports: seq<NamedPort>, rs: seq<RoutingTable.Route>)
    requires Sized(g, l) && ExactRoutes(g, source, l, ours, ws) && RoutesFor(ports, ws, rs)
    ensures Marked(g, ours, rs)
  {
    var from := RoutesAreDrawn(ports, ws, rs);
    forall b | 0 <= b < |rs|
      ensures rs[b].isActive && !rs[b].isStatic
      ensures (exists k :: Advertises(g, ours, k, rs[b].ip, rs[b].mask)) ==> rs[b].gw == 0
    {
      var w := ws[from[b]];
      assert FinishedIn(ports)(w, rs[b]) && ExactWrapper(g, source, l, ours, w);
    }
  }

  /** Each such subnet has exactly one route, with a good gateway. */
  ghost predicate RoutesLead(g: Graph, source: RouterId, l: Labels, ours: nat, ports: seq<NamedPort>,
                             rs: seq<RoutingTable.Route>)
    requires Sized(g, l)
  {
    && OneRouteEach(rs) && Marked(g, ours, rs)
    && forall ip, mask :: Remote(g, l, ours, ip, mask) ==>
         exists a :: IsRoute(rs, a, ip, mask) && GoodGateway(g, source, l, ports, rs[a])
  }

  lemma RemoteHasRoute(g: Graph, source: RouterId, l: Labels, ours: nat, ws: seq<RouteWrapper>, ports: seq<NamedPort>,
                       rs: seq<RoutingTable.Route>, ip: Addr, mask: Addr)
    returns (b: nat)
    requires g.WellFormed() && SearchResult(g, source, l) && ShortDistances(l)
    requires ours < |g.ids| && g.ids[ours] == source
    requires ExactRoutes(g, source, l, ours, ws) && OwnEntryOk(g.links[ours], ports) && RoutesFor(ports, ws, rs)
    requires Remote(g, l, ours, ip, mask)
    ensures IsRoute(rs, b, ip, mask) && GoodGateway(g, source, l, ports, rs[b])
  {
    var v, k :| Advertises(g, v, k, ip, mask) && l.dist[v] < INFINITE;
    var a :| 0 <= a < |ws| && ws[a].ip == ip && ws[a].mask == mask;
    assert ExactWrapper(g, source, l, ours, ws[a]);
    var u, m :| Nearest16(g, source, l, ws[a], u, m);
    assert l.dist[u] <= l.dist[v] && Sound(g, source, l, u);
    assert u != ours && g.ids[u] != source;
    RemoteRoutesLead(g, source, l, ours, ws[a], ports);
    b := WrapperHasRoute(ports, ws, rs, a);
  }

  /** Every reachable subnet that is not ours has one route, by a neighbour that begins a shortest path to it. */
  lemma TableLeads(g: Graph, source: RouterId, l: Labels, ours: nat, ws: seq<RouteWrapper>, ports: seq<NamedPort>,
                   rs: seq<RoutingTable.Route>)
    requires g.WellFormed() && SearchResult(g, source, l) && ShortDistances(l)
    requires ours < |g.ids| && g.ids[ours] == source
    requires ExactRoutes(g, source, l, ours, ws) && OwnEntryOk(g.links[ours], ports) && RoutesFor(ports, ws, rs)
    ensures RoutesLead(g, source, l, ours, ports, rs)
  {
    RoutesAreOneEach(ports, ws, rs);
    RoutesAreMarked(g, source, l, ours, ws, ports, rs);
    forall ip, mask | Remote(g, l, ours, ip, mask)
      ensures exists a :: IsRoute(rs, a, ip, mask) && GoodGateway(g, source, l, ports, rs[a])
    {
      var a := RemoteHasRoute(g, source, l, ours, ws, ports, rs, ip, mask);
    }
  }

  // ----- subnets that cannot be reached

  /**
   Whatever its distance, a subnet that is not ours gets a route if and only if the router it
   is laid at is heard on a port: an unreachable one too.
   */
  lemma RoutedIff(ports: seq<NamedPort>, ws: seq<RouteWrapper>, a: nat)
    requires PortsAreDirect(ports, ws) && a < |ws| && !ws[a].direct
    ensures HasIface(ports, ws[a]) <==>
            ws[a].nextRid != BLANK && exists j :: 0 <= j < |ports| && Hears(ports[j], ws[a].nextRid)
  {
    var w := ws[a];
    if w.nextRid != BLANK && exists j :: 0 <= j < |ports| && Hears(ports[j], w.nextRid) {
      var j :| 0 <= j < |ports| && Hears(ports[j], w.nextRid);
      var i := FirstThatHears(ports, w.nextRid, j);
      assert Chosen(ports, w, i);
    }
  }

  /** The nearest advertiser of a direct wrapper is ourselves: it carries the neighbour of one of our entries. */
  ghost predicate OursAt(g: Graph, ours: nat, w: RouteWrapper, k: int)
    requires |g.ids| == |g.links| && ours < |g.ids|
  {
    Advertises(g, ours, k, w.ip, w.mask) && w.nextRid == g.links[ours][k].rid
  }

  /**
   A subnet of ours leaves by an interface on that subnet if and only if no earlier
   interface hears the same neighbour: with two links to one router, the route of the second
   takes the first.
   */
  lemma DirectRouteIff(g: Graph, ours: nat, w: RouteWrapper, ports: seq<NamedPort>, k: nat, own: nat, i: nat)
    requires |g.ids| == |g.links| && ours < |g.ids| && OwnEntryOk(g.links[ours], ports) && OursAt(g, ours, w, k)
    requires own < |ports| && OnPort(ports[own], w.ip, w.mask)
    requires forall j :: 0 <= j < |ports| && OnPort(ports[j], w.ip, w.mask) ==> j == own
    requires Chosen(ports, w, i)
    ensures OnPort(ports[i], w.ip, w.mask) <==>
            w.nextRid == BLANK || forall j :: 0 <= j < own ==> !Hears(ports[j], w.nextRid)
  {
    if w.nextRid != BLANK {
      var h := OwnEntryIsHeard(g.links[ours], ports, k);
      assert h == own;
    }
  }

  const SMALL: Addr := 0xFFFF_FFFC

  /** Routers 1 and 7 with two links between them. */
  const TWO_LINKS: Graph := Graph([1, 7], [[Iface(4, SMALL, 7, true), Iface(8, SMALL, 7, true)],
                                           [Iface(4, SMALL, 1, true), Iface(8, SMALL, 1, true)]])

  /** The ports of router 1. */
  const PARALLEL: seq<NamedPort> := [NamedPort("eth0", Neighbors.Port(4, SMALL, [Neighbors.Nbr(7, 5, 0)])),
                                     NamedPort("eth1", Neighbors.Port(8, SMALL, [Neighbors.Nbr(7, 9, 0)]))]

  lemma SmallNets()
    ensures Net(4, SMALL) == 4 && Net(8, SMALL) == 8
  {
  }

  lemma ParallelRids()
    ensures Neighbors.Rids(TWO_LINKS.links[0], 4, SMALL) == Neighbors.Rids(TWO_LINKS.links[0], 8, SMALL) == multiset{7}
    ensures Neighbors.NbrRids([Neighbors.Nbr(7, 5, 0)]) == Neighbors.NbrRids([Neighbors.Nbr(7, 9, 0)]) == multiset{7}
  {
    var own, last := TWO_LINKS.links[0], [Iface(8, SMALL, 7, true)];
    assert own[1..] == last && last[1..] == [];
    assert Neighbors.Rids(last, 8, SMALL) == multiset{7} && Neighbors.Rids(last, 4, SMALL) == multiset{};
  }

  /** The example is one that hellos lead to. */
  lemma ParallelIsMirrored()
    ensures TWO_LINKS.WellFormed() && OwnEntryOk(TWO_LINKS.links[0], PARALLEL)
  {
    var own := TWO_LINKS.links[0];
    SmallNets();
    ParallelRids();
    forall i | 0 <= i < 2
      ensures Neighbors.MirrorsPort(own, PARALLEL[i].port) && Neighbors.HasEntry(own, PARALLEL[i].port)
    {
      assert i == 0 || i == 1;
    }
    assert OnPort(PARALLEL[0], 4, SMALL) && OnPort(PARALLEL[1], 8, SMALL);
  }

  lemma ParallelChoice(w: RouteWrapper)
    requires w.nextRid == 7
    ensures Chosen(PARALLEL, w, 0)
  {
    assert NbrAt([Neighbors.Nbr(7, 5, 0)], 7) == 0;
    assert Hears(PARALLEL[0], 7);
  }

  /** The wrapper of a subnet that router 1 has on both links carries router 7. */
  lemma TwoLinksWrapper(l: Labels, w: RouteWrapper)
    requires TWO_LINKS.WellFormed() && SearchResult(TWO_LINKS, 1, l) && ExactWrapper(TWO_LINKS, 1, l, 0, w)
    requires Advertises(TWO_LINKS, 0, 1, w.ip, w.mask)
    ensures w.nextRid == 7
  {
    var v, m :| Nearest16(TWO_LINKS, 1, l, w, v, m);
    assert Sound(TWO_LINKS, 1, l, 0) && Sound(TWO_LINKS, 1, l, v);
    assert TWO_LINKS.ids[v] == 1;
  }

  /** Every computation for the two links sends the subnet behind `eth1` out of `eth0`. */
  lemma ParallelLinksMisdirect(l: Labels, ws: seq<RouteWrapper>)
    requires TWO_LINKS.WellFormed() && SearchResult(TWO_LINKS, 1, l) && ExactRoutes(TWO_LINKS, 1, l, 0, ws)
    ensures exists a :: 0 <= a < |ws| && ws[a].ip == 8 && ws[a].mask == SMALL && Chosen(PARALLEL, ws[a], 0)
    ensures !OnPort(PARALLEL[0], 8, SMALL) && OnPort(PARALLEL[1], 8, SMALL)
  {
    SmallNets();
    assert Advertises(TWO_LINKS, 0, 1, 8, SMALL);
    var a :| 0 <= a < |ws| && ws[a].ip == 8 && ws[a].mask == SMALL;
    TwoLinksWrapper(l, ws[a]);
    ParallelChoice(ws[a]);
  }

  /** Router 9 lists a subnet and names our neighbour 7 there, but no link leads to it. */
  const CUT_OFF: Graph :=
    Graph([1, 7, 9], [[Iface(4, SMALL, 7, true)], [Iface(4, SMALL, 1, true)], [Iface(16, SMALL, 7, false)]])

  lemma CutOffIsFar(l: Labels)
    requires CUT_OFF.WellFormed() && SearchResult(CUT_OFF, 1, l)
    ensures l.dist[2] == INFINITE
  {
    forall u: nat | u < 3 ensures !Edge(CUT_OFF, u, 2) {
      assert u == 0 || u == 1 || u == 2;
    }
    assert Sound(CUT_OFF, 1, l, 2);
  }

  lemma CutOffWrapper(l: Labels, w: RouteWrapper)
    requires CUT_OFF.WellFormed() && SearchResult(CUT_OFF, 1, l) && l.prev[2] == -1 && ExactWrapper(CUT_OFF, 1, l, 0, w)
    requires w.ip == 16
    ensures w.distance == 0xFFFF && w.nextRid == 7
  {
    var v, m :| Nearest16(CUT_OFF, 1, l, w, v, m);
    OnlyNineIsFar(v, m, w.mask);
    CutOffIsFar(l);
  }

  lemma OnlyNineIsFar(v: int, m: int, mask: Addr)
    requires Advertises(CUT_OFF, v, m, 16, mask)
    ensures v == 2 && m == 0
  {
    SmallNets();
    assert v == 0 || v == 1 || v == 2;
  }

  /** That subnet is routed by 7 all the same: the wrapper of distance 0xFFFF has an interface. */
  lemma CutOffIsRouted(l: Labels, ws: seq<RouteWrapper>)
    requires CUT_OFF.WellFormed() && SearchResult(CUT_OFF, 1, l) && l.prev[2] == -1 && ExactRoutes(CUT_OFF, 1, l, 0, ws)
    ensures exists a :: 0 <= a < |ws| && ws[a].ip == 16 && ws[a].distance == 0xFFFF && HasIface(PARALLEL, ws[a])
  {
    assert Net(16, SMALL) == 16;
    assert Advertises(CUT_OFF, 2, 0, 16, SMALL);
    var a :| 0 <= a < |ws| && ws[a].ip == 16 && ws[a].mask == SMALL;
    CutOffWrapper(l, ws[a]);
    ParallelChoice(ws[a]);
  }

  // ----- the whole computation

  /**
   The search, the wrappers and the finished routes of one run. It ends and is exact whatever
   earlier runs left in the predecessors, and leaves them fit for the next run.
   */
  method ComputeRtable(ourId: RouterId, routers: seq<PwospfRouter>, ports: seq<NamedPort>, ghost g: Graph,
                       ghost ours: nat, ghost was: seq<int>)
    returns (rs: seq<RoutingTable.Route>, ghost ws: seq<RouteWrapper>, ghost l: Labels)
    requires RouterList(routers) && Describes(g, routers) && |routers| < 0x1_0000
    requires ours < |routers| && routers[ours].routerId == ourId && OwnEntryOk(g.links[ours], ports)
    requires Points(routers, was) && Anchored(g.ids, ourId, was)
    modifies routers
    ensures g.WellFormed() && Describes(g, routers) && SearchResult(g, ourId, l) && ExactRoutes(g, ourId, l, ours, ws)
    ensures RoutesFor(ports, ws, rs) && RoutesLead(g, ourId, l, ours, ports, rs)
    ensures Inherits(g, ourId, was, l) && Points(routers, l.prev) && Anchored(g.ids, ourId, l.prev)
  {
    l := Recompute(ourId, routers, g, was);
    FewRoutersAreShort(g, ourId, l);
    var wrappers := BuildRouteWrapperList(ourId, routers, g, l, ours);
    PortsAdvertised(g, ourId, l, ours, wrappers, ports);
    rs := FinishRoutes(ports, wrappers);
    ws := wrappers;
    TableLeads(g, ourId, l, ours, ws, ports, rs);
  }
}
