/**
 What the routes of several routers do together, once their databases agree on one topology:
 a packet comes one hop nearer to its subnet with every router, so it arrives, in the least
 number of hops, and visits no router twice.
 */
module LoopFree {
  import opened PwospfTypes
  import opened ShortestPath
  import opened Routes
  import opened Forwarding
  import RoutingTable

  /** What router `u` computes on the topology. */
  ghost predicate Knows(g: Graph, u: int, l: Labels) {
    g.WellFormed() && 0 <= u < |g.ids| && SearchResult(g, g.ids[u], l)
  }

  lemma HopCountOf(g: Graph, u: nat, l: Labels, v: nat)
    requires Knows(g, u, l) && v < |g.ids|
    ensures IsHopCount(g, g.ids[u], v, l.dist[v]) && 0 <= l.dist[v] <= INFINITE
  {
    SearchIsCorrect(g, g.ids[u], l);
    assert Sound(g, g.ids[u], l, v);
  }

  /** A path from a neighbour is one hop longer from here. */
  lemma NeighborIsNoNearer(g: Graph, u: nat, lu: Labels, h: nat, lh: Labels, v: nat)
    requires Knows(g, u, lu) && Knows(g, h, lh) && v < |g.ids| && Edge(g, u, h) && lh.dist[v] < INFINITE
    ensures lu.dist[v] <= lh.dist[v] + 1
  {
    HopCountOf(g, u, lu, v);
    HopCountOf(g, h, lh, v);
    var q :| PathTo(g, g.ids[h], q, v) && |q| - 1 == lh.dist[v];
    assert q[0] == h;
    var p := [u] + q;
    forall i | 0 <= i < |p| - 1 ensures Edge(g, p[i], p[i + 1]) {
      if i > 0 {
        assert Edge(g, q[i - 1], q[i - 1 + 1]);
      }
    }
    assert PathTo(g, g.ids[u], p, v);
  }

  /** The router that begins a shortest path from here is exactly one hop nearer. */
  lemma HopDescends(g: Graph, u: nat, lu: Labels, h: nat, lh: Labels, v: nat)
    requires Knows(g, u, lu) && Knows(g, h, lh) && v < |g.ids| && 0 < lu.dist[v] < INFINITE
    requires BeginsShortestPath(g, g.ids[u], v, g.ids[h])
    ensures lh.dist[v] == lu.dist[v] - 1 && Edge(g, u, h)
  {
    HopCountOf(g, u, lu, v);
    HopCountOf(g, h, lh, v);
    var p :| ShortestPathTo(g, g.ids[u], p, v) && |p| > 1 && g.ids[p[1]] == g.ids[h];
    var best :| PathTo(g, g.ids[u], best, v) && |best| - 1 == lu.dist[v];
    assert p[0] == u && p[1] == h && Edge(g, p[0], p[0 + 1]);
    var q := p[1..];
    forall i | 0 <= i < |q| - 1 ensures Edge(g, q[i], q[i + 1]) {
      assert Edge(g, p[i + 1], p[i + 1 + 1]);
    }
    assert PathTo(g, g.ids[h], q, v);
    NeighborIsNoNearer(g, u, lu, h, lh, v);
  }

  /** Some router advertises the subnet, the nearest of them `d` hops away. */
  ghost predicate SubnetAt(g: Graph, l: Labels, ip: Addr, mask: Addr, d: int)
    requires Sized(g, l)
  {
    exists v, k :: NearestAdvertiser(g, l, ip, mask, v, k) && l.dist[v] == d
  }

  /** `h` begins a shortest path from `u` to a router that is nearest to `u` among those that advertise the subnet. */
  ghost predicate Forwards(g: Graph, u: int, lu: Labels, h: int, ip: Addr, mask: Addr)
    requires Sized(g, lu)
  {
    && 0 <= u < |g.ids| && 0 <= h < |g.ids|
    && exists v, k :: NearestAdvertiser(g, lu, ip, mask, v, k) && 0 < lu.dist[v] < INFINITE
                      && BeginsShortestPath(g, g.ids[u], v, g.ids[h])
  }

  /** The gateway of a computed route is the address of such a router. */
  lemma GatewayForwards(g: Graph, u: nat, l: Labels, ports: seq<NamedPort>, r: RoutingTable.Route)
    returns (h: nat, i: nat, k: nat)
    requires Knows(g, u, l) && Remote(g, l, u, r.ip, r.mask) && GoodGateway(g, g.ids[u], l, ports, r)
    ensures Forwards(g, u, l, h, r.ip, r.mask)
    ensures i < |ports| && k < |ports[i].port.nbrs| && r.iface == ports[i].name
    ensures ports[i].port.nbrs[k].rid == g.ids[h] && ports[i].port.nbrs[k].ip == r.gw
  {
    var v, m, i', k' :|
      && NearestAdvertiser(g, l, r.ip, r.mask, v, m) && 0 <= i' < |ports| && 0 <= k' < |ports[i'].port.nbrs|
      && r.iface == ports[i'].name && r.gw == ports[i'].port.nbrs[k'].ip
      && BeginsShortestPath(g, g.ids[u], v, ports[i'].port.nbrs[k'].rid);
    i, k := i', k';
    var w, n :| Advertises(g, w, n, r.ip, r.mask) && l.dist[w] < INFINITE;
    assert v != u && Sound(g, g.ids[u], l, v);
    var p :| ShortestPathTo(g, g.ids[u], p, v) && |p| > 1 && g.ids[p[1]] == ports[i].port.nbrs[k].rid;
    h := p[1];
  }

  /** The next router is one hop nearer to the subnet, though it may head for another advertiser. */
  lemma SubnetDescends(g: Graph, u: nat, lu: Labels, h: nat, lh: Labels, ip: Addr, mask: Addr, d: int)
    requires Knows(g, u, lu) && Knows(g, h, lh) && Forwards(g, u, lu, h, ip, mask) && SubnetAt(g, lu, ip, mask, d)
    ensures SubnetAt(g, lh, ip, mask, d - 1) && d > 0
  {
    var v, k :| NearestAdvertiser(g, lu, ip, mask, v, k) && 0 < lu.dist[v] < INFINITE
                && BeginsShortestPath(g, g.ids[u], v, g.ids[h]);
    assert lu.dist[v] == d;
    HopDescends(g, u, lu, h, lh, v);
    forall w, m | Advertises(g, w, m, ip, mask) ensures lh.dist[v] <= lh.dist[w] {
      HopCountOf(g, h, lh, w);
      if lh.dist[w] < INFINITE {
        NeighborIsNoNearer(g, u, lu, h, lh, w);
      }
    }
    assert NearestAdvertiser(g, lh, ip, mask, v, k);
  }

  /** The routers a packet passes when each forwards it by its own routes; `ls` are their computations. */
  ghost predicate Trip(g: Graph, ls: seq<Labels>, hops: seq<nat>, ip: Addr, mask: Addr) {
    && |ls| == |g.ids| && (forall u :: 0 <= u < |g.ids| ==> Knows(g, u, ls[u]))
    && hops != [] && (forall i :: 0 <= i < |hops| ==> hops[i] < |g.ids|)
    && forall i :: 0 <= i < |hops| - 1 ==> Forwards(g, hops[i], ls[hops[i]], hops[i + 1], ip, mask)
  }

  /** After `i` routers the packet is `i` hops nearer. */
  lemma {:induction false} TripDescends(g: Graph, ls: seq<Labels>, hops: seq<nat>, ip: Addr, mask: Addr, d: int, i: nat)
    requires Trip(g, ls, hops, ip, mask) && SubnetAt(g, ls[hops[0]], ip, mask, d) && i < |hops|
    ensures SubnetAt(g, ls[hops[i]], ip, mask, d - i) && 0 <= d - i
  {
    if i > 0 {
      TripDescends(g, ls, hops, ip, mask, d, i - 1);
      HopOfTrip(g, ls, hops, ip, mask, i - 1, d - (i - 1));
    } else {
      NeverNegative(g, hops[0], ls[hops[0]], ip, mask, d);
    }
  }

  lemma HopOfTrip(g: Graph, ls: seq<Labels>, hops: seq<nat>, ip: Addr, mask: Addr, i: nat, e: int)
    requires Trip(g, ls, hops, ip, mask) && i < |hops| - 1 && SubnetAt(g, ls[hops[i]], ip, mask, e)
    ensures SubnetAt(g, ls[hops[i + 1]], ip, mask, e - 1) && e > 0
  {
    assert Knows(g, hops[i], ls[hops[i]]) && Knows(g, hops[i + 1], ls[hops[i + 1]]);
    SubnetDescends(g, hops[i], ls[hops[i]], hops[i + 1], ls[hops[i + 1]], ip, mask, e);
  }

  lemma NeverNegative(g: Graph, u: nat, l: Labels, ip: Addr, mask: Addr, d: int)
    requires Knows(g, u, l) && SubnetAt(g, l, ip, mask, d)
    ensures d >= 0
  {
    var v, k :| NearestAdvertiser(g, l, ip, mask, v, k) && l.dist[v] == d;
    HopCountOf(g, u, l, v);
  }

  lemma SameRouterSameDistance(g: Graph, ls: seq<Labels>, u: nat, v: nat, ip: Addr, mask: Addr, d: int, e: int)
    requires u < |ls| && v < |ls| && Sized(g, ls[u]) && Sized(g, ls[v])
    requires SubnetAt(g, ls[u], ip, mask, d) && SubnetAt(g, ls[v], ip, mask, e)
    ensures u == v ==> d == e
  {
    var x, k :| NearestAdvertiser(g, ls[u], ip, mask, x, k) && ls[u].dist[x] == d;
    var y, m :| NearestAdvertiser(g, ls[v], ip, mask, y, m) && ls[v].dist[y] == e;
  }

  lemma HopsDiffer(g: Graph, ls: seq<Labels>, hops: seq<nat>, ip: Addr, mask: Addr, d: int, i: nat, j: nat)
    requires Trip(g, ls, hops, ip, mask) && SubnetAt(g, ls[hops[0]], ip, mask, d) && i < j < |hops|
    ensures hops[i] != hops[j]
  {
    TripDescends(g, ls, hops, ip, mask, d, i);
    TripDescends(g, ls, hops, ip, mask, d, j);
    assert Knows(g, hops[i], ls[hops[i]]) && Knows(g, hops[j], ls[hops[j]]);
    SameRouterSameDistance(g, ls, hops[i], hops[j], ip, mask, d - i, d - j);
  }

  /**
   Forwarding is free of loops: no router is passed twice, there are no more hops than the
   distance, and after that many the packet is at a router that advertises the subnet.
   */
  lemma TripIsLoopFree(g: Graph, ls: seq<Labels>, hops: seq<nat>, ip: Addr, mask: Addr, d: int)
    requires Trip(g, ls, hops, ip, mask) && SubnetAt(g, ls[hops[0]], ip, mask, d)
    ensures |hops| - 1 <= d
    ensures forall i, j :: 0 <= i < j < |hops| ==> hops[i] != hops[j]
    ensures |hops| - 1 == d ==> exists k :: Advertises(g, hops[d], k, ip, mask)
  {
    TripDescends(g, ls, hops, ip, mask, d, |hops| - 1);
    forall i, j | 0 <= i < j < |hops| ensures hops[i] != hops[j] {
      HopsDiffer(g, ls, hops, ip, mask, d, i, j);
    }
    if |hops| - 1 == d {
      ArrivedAdvertises(g, ls, hops[d], ip, mask);
    }
  }

  /** A router at distance zero advertises the subnet itself. */
  lemma ArrivedAdvertises(g: Graph, ls: seq<Labels>, u: nat, ip: Addr, mask: Addr)
    requires u < |ls| && Knows(g, u, ls[u]) && SubnetAt(g, ls[u], ip, mask, 0)
    ensures exists k :: Advertises(g, u, k, ip, mask)
  {
    var v, k :| NearestAdvertiser(g, ls[u], ip, mask, v, k) && ls[u].dist[v] == 0;
    assert Sound(g, g.ids[u], ls[u], v);
    assert v == u;
  }

  /** And a router that is not there yet, and knows of a way, has a next one. */
  lemma TripGoesOn(g: Graph, u: nat, l: Labels, ip: Addr, mask: Addr, d: int) returns (h: nat)
    requires Knows(g, u, l) && SubnetAt(g, l, ip, mask, d) && 0 < d < INFINITE
    ensures Forwards(g, u, l, h, ip, mask)
  {
    var v, k :| NearestAdvertiser(g, l, ip, mask, v, k) && l.dist[v] == d;
    h := HopFrom(g, g.ids[u], l, v);
    FirstHopIsOnShortestPath(g, g.ids[u], l, v, u);
  }
}
