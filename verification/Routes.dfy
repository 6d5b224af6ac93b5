/**
 Route construction of or_dijkstra.c: from hop counts and predecessors to one route
 wrapper a subnet, with the router that begins the path to it.
 */
module Routes {
  import opened PwospfTypes
  import opened ShortestPath

  /** A route lacking its next hop address. The distance is a 16-bit field. */
  datatype RouteWrapper = RouteWrapper(ip: Addr, mask: Addr, distance: int, nextRid: RouterId, direct: bool)

  /** A subnet advertised by a router at `dist` hops, reached through `nextRid`. */
  datatype Offer = Offer(ip: Addr, mask: Addr, dist: int, nextRid: RouterId, own: bool)

  // ----- the first hop

  /** `p` is a shortest path to `v`. */
  ghost predicate ShortestPathTo(g: Graph, source: RouterId, p: seq<nat>, v: nat)
    requires |g.ids| == |g.links|
  {
    PathTo(g, source, p, v) && forall q :: PathTo(g, source, q, v) ==> |p| <= |q|
  }

  /** Some shortest path to `v` takes its first hop, over one of our active interfaces, to the router named `rid`. */
  ghost predicate BeginsShortestPath(g: Graph, source: RouterId, v: nat, rid: RouterId)
    requires |g.ids| == |g.links|
  {
    exists p :: ShortestPathTo(g, source, p, v) && |p| > 1 && g.ids[p[1]] == rid
  }

  /** The router reached by following predecessors from `v` until the next one is the source. */
  ghost function HopFrom(g: Graph, source: RouterId, l: Labels, v: nat): (h: nat)
    requires g.WellFormed() && SearchResult(g, source, l) && v < |g.ids| && 0 < l.dist[v] < INFINITE
    ensures h < |g.ids| && l.dist[h] == 1
    decreases l.dist[v]
  {
    assert Sound(g, source, l, v) && Follows(g, l, v);
    var u := l.prev[v];
    assert Sound(g, source, l, u);
    if l.dist[u] == 0 then v else HopFrom(g, source, l, u)
  }

  /** The predecessor chain, read from the source, is a path as long as the hop count. */
  lemma {:induction false} ChainIsPath(g: Graph, source: RouterId, l: Labels, v: nat) returns (p: seq<nat>)
    requires g.WellFormed() && SearchResult(g, source, l) && v < |g.ids| && 0 < l.dist[v] < INFINITE
    ensures PathTo(g, source, p, v) && |p| == l.dist[v] + 1 && p[1] == HopFrom(g, source, l, v)
    decreases l.dist[v]
  {
    assert Sound(g, source, l, v) && Follows(g, l, v);
    var u := l.prev[v];
    assert Sound(g, source, l, u);
    if l.dist[u] == 0 {
      p := [u, v];
    } else {
      var q := ChainIsPath(g, source, l, u);
      p := q + [v];
      assert forall i :: 0 <= i < |q| - 1 ==> Edge(g, q[i], q[i + 1]);
    }
  }

  /** The end of the predecessor walk begins a shortest path and is named by one of our own active interfaces. */
  lemma FirstHopIsOnShortestPath(g: Graph, source: RouterId, l: Labels, v: nat, ours: nat)
    requires g.WellFormed() && SearchResult(g, source, l) && v < |g.ids| && 0 < l.dist[v] < INFINITE
    requires ours < |g.ids| && g.ids[ours] == source
    ensures BeginsShortestPath(g, source, v, g.ids[HopFrom(g, source, l, v)])
    ensures exists k :: 0 <= k < |g.links[ours]| && Leads(g.links[ours][k], g.ids[HopFrom(g, source, l, v)])
  {
    var p := ChainIsPath(g, source, l, v);
    SearchIsCorrect(g, source, l);
    assert IsHopCount(g, source, v, l.dist[v]);
    assert Edge(g, p[0], p[0 + 1]);
  }

  // ----- one wrapper a subnet

  /** The position of the wrapper for a subnet, or the length of the list. */
  function Find(ws: seq<RouteWrapper>, ip: Addr, mask: Addr): (k: nat)
    ensures k <= |ws| && (k < |ws| ==> ws[k].ip == ip && ws[k].mask == mask)
    ensures forall j :: 0 <= j < k ==> !(ws[j].ip == ip && ws[j].mask == mask)
  {
    if ws == [] then 0
    else if ws[0].ip == ip && ws[0].mask == mask then 0
    else 1 + Find(ws[1..], ip, mask)
  }

  /** The wrapper of the offered subnet after the offer was considered. */
  function Better(w: RouteWrapper, o: Offer): RouteWrapper {
    if o.dist >= w.distance then w
    else w.(distance := o.dist % 0x1_0000, nextRid := o.nextRid, direct := w.direct || o.own)
  }

  /** What one advertised subnet does to the list. */
  function Consider(ws: seq<RouteWrapper>, o: Offer): (ws': seq<RouteWrapper>)
    ensures |ws| <= |ws'| && Find(ws, o.ip, o.mask) < |ws'|
    ensures forall a :: 0 <= a < |ws'| ==> SameSubnet(ws'[a], o) || (a < |ws| && ws'[a] == ws[a])
    ensures forall a :: 0 <= a < |ws| ==> ws'[a].ip == ws[a].ip && ws'[a].mask == ws[a].mask
  {
    var k := Find(ws, o.ip, o.mask);
    if k < |ws| then ws[k := Better(ws[k], o)]
    else ws + [RouteWrapper(o.ip, o.mask, o.dist % 0x1_0000, o.nextRid, o.own)]
  }

  function Table(offers: seq<Offer>): seq<RouteWrapper> {
    if offers == [] then [] else Consider(Table(offers[..|offers| - 1]), offers[|offers| - 1])
  }

  lemma TableExtends(offers: seq<Offer>, o: Offer)
    ensures Table(offers + [o]) == Consider(Table(offers), o)
  {
    assert (offers + [o])[..|offers|] == offers;
  }

  predicate SameSubnet(w: RouteWrapper, o: Offer) {
    w.ip == o.ip && w.mask == o.mask
  }

  /** Distances of reached routers fit below the 16-bit image of `INFINITE`, and only our own is zero. */
  ghost predicate Measured(offers: seq<Offer>) {
    forall i :: 0 <= i < |offers| ==>
      && (0 <= offers[i].dist < 0xFFFF || offers[i].dist == INFINITE)
      && (offers[i].own <==> offers[i].dist == 0)
  }

  /** `w` comes from the `i`-th offer, the first of the nearest for that subnet. */
  ghost predicate BestOffer(offers: seq<Offer>, w: RouteWrapper, i: int) {
    && 0 <= i < |offers| && SameSubnet(w, offers[i])
    && w.distance == offers[i].dist % 0x1_0000 && w.nextRid == offers[i].nextRid
    && forall j :: 0 <= j < |offers| && SameSubnet(w, offers[j]) ==>
         offers[i].dist <= offers[j].dist && (j < i ==> offers[i].dist < offers[j].dist)
  }

  ghost predicate Exact(offers: seq<Offer>, w: RouteWrapper) {
    && (exists i :: BestOffer(offers, w, i))
    && (w.direct <==> exists i :: 0 <= i < |offers| && SameSubnet(w, offers[i]) && offers[i].own)
  }

  ghost predicate OneEach(ws: seq<RouteWrapper>) {
    forall a, b :: 0 <= a < b < |ws| ==> !(ws[a].ip == ws[b].ip && ws[a].mask == ws[b].mask)
  }

  ghost predicate Listed(offers: seq<Offer>, ws: seq<RouteWrapper>) {
    forall i :: 0 <= i < |offers| ==> exists a :: 0 <= a < |ws| && SameSubnet(ws[a], offers[i])
  }

  /** Every advertised subnet has exactly one wrapper, and it is exact. */
  ghost predicate ExactTable(offers: seq<Offer>, ws: seq<RouteWrapper>) {
    && OneEach(ws) && Listed(offers, ws)
    && (forall a :: 0 <= a < |ws| ==> Exact(offers, ws[a]))
  }

  /** The wrapper list is complete, unique and minimal, and marks exactly the subnets we advertise ourselves. */
  lemma {:induction false} TableIsExact(offers: seq<Offer>)
    requires Measured(offers)
    ensures ExactTable(offers, Table(offers))
  {
    if offers != [] {
      var n := |offers| - 1;
      var init := offers[..n];
      assert offers == init + [offers[n]];
      assert Measured(init);
      TableIsExact(init);
      ConsiderIsExact(init, Table(init), offers[n]);
    }
  }

  lemma OtherSubnetKept(offers: seq<Offer>, o: Offer, w: RouteWrapper)
    requires Exact(offers, w) && !SameSubnet(w, o)
    ensures Exact(offers + [o], w)
  {
    var all := offers + [o];
    var i :| BestOffer(offers, w, i);
    assert BestOffer(all, w, i);
    if j :| 0 <= j < |offers| && SameSubnet(w, offers[j]) && offers[j].own {
      assert all[j] == offers[j];
    }
  }

  lemma SameSubnetImproved(offers: seq<Offer>, o: Offer, w: RouteWrapper)
    requires Measured(offers + [o]) && Exact(offers, w) && SameSubnet(w, o)
    ensures Exact(offers + [o], Better(w, o))
  {
    var all, n := offers + [o], |offers|;
    var i :| BestOffer(offers, w, i);
    assert all[i] == offers[i] && all[n] == o;
    assert BestOffer(all, Better(w, o), if o.dist >= w.distance then i else n) by {
      assert forall j :: 0 <= j < n ==> all[j] == offers[j];
    }
    if w.direct {
      var j :| 0 <= j < n && SameSubnet(w, offers[j]) && offers[j].own;
      assert all[j] == offers[j];
    }
    if j :| 0 <= j < |all| && SameSubnet(w, all[j]) && all[j].own {
      if j < n {
        assert offers[j] == all[j];
      }
    }
  }

  lemma FirstOffer(offers: seq<Offer>, o: Offer, w: RouteWrapper)
    requires forall i :: 0 <= i < |offers| ==> !SameSubnet(w, offers[i])
    requires w == RouteWrapper(o.ip, o.mask, o.dist % 0x1_0000, o.nextRid, o.own)
    ensures Exact(offers + [o], w)
  {
    var all, n := offers + [o], |offers|;
    assert all[n] == o && forall j :: 0 <= j < n ==> all[j] == offers[j];
    assert BestOffer(all, w, n);
  }

  lemma ConsiderListsAll(offers: seq<Offer>, ws: seq<RouteWrapper>, o: Offer)
    requires Listed(offers, ws)
    ensures Listed(offers + [o], Consider(ws, o))
  {
    var all, ws', k := offers + [o], Consider(ws, o), Find(ws, o.ip, o.mask);
    forall i | 0 <= i < |all| ensures exists a :: 0 <= a < |ws'| && SameSubnet(ws'[a], all[i]) {
      if i < |offers| {
        assert all[i] == offers[i];
        var a :| 0 <= a < |ws| && SameSubnet(ws[a], offers[i]);
        assert SameSubnet(ws'[a], all[i]);
      } else {
        assert SameSubnet(ws'[k], all[i]);
      }
    }
  }

  lemma ConsiderKeepsOneEach(ws: seq<RouteWrapper>, o: Offer)
    requires OneEach(ws)
    ensures OneEach(Consider(ws, o))
  {
  }

  lemma ConsiderIsExact(offers: seq<Offer>, ws: seq<RouteWrapper>, o: Offer)
    requires Measured(offers + [o]) && ExactTable(offers, ws)
    ensures ExactTable(offers + [o], Consider(ws, o))
  {
    var ws', k := Consider(ws, o), Find(ws, o.ip, o.mask);
    ConsiderListsAll(offers, ws, o);
    ConsiderKeepsOneEach(ws, o);
    forall a | 0 <= a < |ws'| ensures Exact(offers + [o], ws'[a]) {
      if a != k {
        assert ws'[a] == ws[a] && Exact(offers, ws[a]) && !SameSubnet(ws[a], o);
        OtherSubnetKept(offers, o, ws[a]);
      } else if k < |ws| {
        assert Exact(offers, ws[k]);
        SameSubnetImproved(offers, o, ws[k]);
      } else {
        NoneListed(offers, ws, o);
        FirstOffer(offers, o, ws'[k]);
      }
    }
  }

  lemma NoneListed(offers: seq<Offer>, ws: seq<RouteWrapper>, o: Offer)
    requires Listed(offers, ws) && Find(ws, o.ip, o.mask) == |ws|
    ensures forall i :: 0 <= i < |offers| ==> !(offers[i].ip == o.ip && offers[i].mask == o.mask)
  {
  }

  // ----- the offers of a topology

  /** Finite distances stay below the 16-bit image of `INFINITE`. */
  ghost predicate ShortDistances(l: Labels) {
    forall v :: 0 <= v < |l.dist| && l.dist[v] < INFINITE ==> l.dist[v] < 0xFFFF
  }

  /** With fewer than 65536 routers no distance is lost in the 16-bit field. */
  lemma FewRoutersAreShort(g: Graph, source: RouterId, l: Labels)
    requires g.WellFormed() && SearchResult(g, source, l) && |g.ids| < 0x1_0000
    ensures ShortDistances(l)
  {
    CountBound(l.found);
  }

  /** Where the walk along the predecessors ends, those of earlier runs included. */
  ghost function HopOf(g: Graph, source: RouterId, l: Labels, v: nat): (h: nat)
    requires Sized(g, l) && v < |g.ids|
    ensures h < |g.ids|
  {
    if l.prev[v] != -1 && Anchored(g.ids, source, l.prev) then
      var rank :| AnchoredBy(g.ids, source, l.prev, rank);
      WalkEnd(g.ids, source, l.prev, rank, v)
    else v
  }

  lemma HopOfIsWalkEnd(g: Graph, source: RouterId, l: Labels, rank: seq<nat>, v: nat)
    requires Sized(g, l) && v < |g.ids| && l.prev[v] != -1 && AnchoredBy(g.ids, source, l.prev, rank)
    ensures HopOf(g, source, l, v) == WalkEnd(g.ids, source, l.prev, rank, v)
  {
    var other :| AnchoredBy(g.ids, source, l.prev, other)
                 && HopOf(g, source, l, v) == WalkEnd(g.ids, source, l.prev, other, v);
    WalkEndIsOne(g.ids, source, l.prev, rank, other, v);
  }

  /** For a router reached in this run that is the end of its shortest-path chain. */
  lemma {:induction false} WalkEndIsHop(g: Graph, source: RouterId, l: Labels, rank: seq<nat>, v: nat)
    requires g.WellFormed() && SearchResult(g, source, l) && v < |g.ids| && 0 < l.dist[v] < INFINITE
    requires AnchoredBy(g.ids, source, l.prev, rank) && l.prev[v] != -1
    ensures WalkEnd(g.ids, source, l.prev, rank, v) == HopFrom(g, source, l, v)
    decreases l.dist[v]
  {
    assert Sound(g, source, l, v) && Follows(g, l, v) && AnchoredAt(g.ids, source, l.prev, rank, v);
    var u := l.prev[v];
    assert Sound(g, source, l, u);
    if l.dist[u] != 0 {
      assert Follows(g, l, u);
      WalkEndIsHop(g, source, l, rank, u);
    }
  }

  /** The router that the `i`-th advertisement of an unreached router is laid at: the end of an old walk, or its own. */
  ghost function FarRid(g: Graph, source: RouterId, l: Labels, v: nat, i: Iface): RouterId
    requires Sized(g, l) && v < |g.ids|
  {
    if l.prev[v] == -1 then i.rid else g.ids[HopOf(g, source, l, v)]
  }

  /** The walk along the predecessors, step by step, up to the router whose predecessor is ours. */
  ghost predicate WalkDown(g: Graph, source: RouterId, l: Labels, walk: seq<nat>)
    requires Sized(g, l)
  {
    && walk != [] && (forall i :: 0 <= i < |walk| ==> walk[i] < |g.ids|)
    && (forall i {:trigger walk[i]} :: 0 < i < |walk| ==> l.prev[walk[i - 1]] == walk[i] && g.ids[walk[i]] != source)
    && 0 <= l.prev[walk[|walk| - 1]] < |g.ids| && g.ids[l.prev[walk[|walk| - 1]]] == source
  }

  lemma WalkOneMore(g: Graph, source: RouterId, l: Labels, v: nat, walk: seq<nat>)
    requires Sized(g, l) && WalkDown(g, source, l, walk) && v < |g.ids|
    requires l.prev[v] == walk[0] && g.ids[walk[0]] != source
    ensures WalkDown(g, source, l, [v] + walk)
  {
    var all := [v] + walk;
    forall i {:trigger all[i]} | 0 < i < |all| ensures l.prev[all[i - 1]] == all[i] && g.ids[all[i]] != source {
      if i > 1 {
        assert all[i] == walk[i - 1] && all[i - 1] == walk[i - 2];
      }
    }
  }

  lemma {:induction false} WalkEndIsWalked(g: Graph, source: RouterId, l: Labels, rank: seq<nat>, v: nat)
    returns (walk: seq<nat>)
    requires Sized(g, l) && v < |g.ids| && l.prev[v] != -1 && g.ids[v] != source
    requires AnchoredBy(g.ids, source, l.prev, rank)
    ensures WalkDown(g, source, l, walk) && walk[0] == v
    ensures walk[|walk| - 1] == WalkEnd(g.ids, source, l.prev, rank, v)
    decreases rank[v]
  {
    assert AnchoredAt(g.ids, source, l.prev, rank, v);
    var u := l.prev[v];
    walk := [v];
    if g.ids[u] != source {
      var rest := WalkEndIsWalked(g, source, l, rank, u);
      WalkOneMore(g, source, l, v, rest);
      walk := [v] + rest;
    }
  }

  /** An unreached router is laid at the end of the walk along what predecessors it has, or at its interface. */
  lemma FarRidIs(g: Graph, source: RouterId, l: Labels, v: nat, i: Iface) returns (walk: seq<nat>)
    requires Sized(g, l) && v < |g.ids| && g.ids[v] != source && Anchored(g.ids, source, l.prev)
    ensures if l.prev[v] == -1 then FarRid(g, source, l, v, i) == i.rid
            else WalkDown(g, source, l, walk) && walk[0] == v &&
                 FarRid(g, source, l, v, i) == g.ids[walk[|walk| - 1]]
  {
    walk := [];
    if l.prev[v] != -1 {
      var rank :| AnchoredBy(g.ids, source, l.prev, rank);
      HopOfIsWalkEnd(g, source, l, rank, v);
      walk := WalkEndIsWalked(g, source, l, rank, v);
    }
  }

  /** The router a route for an interface of `v` goes by. */
  ghost function NextOf(g: Graph, source: RouterId, l: Labels, v: nat, i: Iface): RouterId
    requires g.WellFormed() && SearchResult(g, source, l) && v < |g.ids|
  {
    if l.dist[v] == 0 then i.rid
    else if 0 < l.dist[v] < INFINITE then g.ids[HopFrom(g, source, l, v)]
    else FarRid(g, source, l, v, i)
  }

  /** The offer made by the `k`-th interface of router `v`. */
  ghost function OfferOf(g: Graph, source: RouterId, l: Labels, v: nat, k: nat): Offer
    requires g.WellFormed() && SearchResult(g, source, l) && v < |g.ids| && k < |g.links[v]|
  {
    var i := g.links[v][k];
    Offer(Net(i.subnet, i.mask), i.mask, l.dist[v], NextOf(g, source, l, v, i), g.ids[v] == source)
  }

  /** The offers of the routers before `v` and of the first `k` interfaces of `v`, in list order. */
  ghost function OffersUpTo(g: Graph, source: RouterId, l: Labels, v: nat, k: nat): (offers: seq<Offer>)
    requires g.WellFormed() && SearchResult(g, source, l)
    requires v <= |g.ids| && if v < |g.ids| then k <= |g.links[v]| else k == 0
    decreases v, k
  {
    if k > 0 then OffersUpTo(g, source, l, v, k - 1) + [OfferOf(g, source, l, v, k - 1)]
    else if v > 0 then OffersUpTo(g, source, l, v - 1, |g.links[v - 1]|)
    else []
  }

  ghost predicate IsOffer(g: Graph, source: RouterId, l: Labels, v: int, k: int, o: Offer)
    requires g.WellFormed() && SearchResult(g, source, l)
  {
    0 <= v < |g.ids| && 0 <= k < |g.links[v]| && OfferOf(g, source, l, v, k) == o
  }

  /** Every listed offer is made by some interface. */
  lemma {:induction false} OfferIsMade(g: Graph, source: RouterId, l: Labels, v: nat, k: nat, i: nat)
    returns (u: nat, m: nat)
    requires g.WellFormed() && SearchResult(g, source, l)
    requires v <= |g.ids| && if v < |g.ids| then k <= |g.links[v]| else k == 0
    requires i < |OffersUpTo(g, source, l, v, k)|
    ensures IsOffer(g, source, l, u, m, OffersUpTo(g, source, l, v, k)[i])
    decreases v, k
  {
    if k > 0 {
      if i == |OffersUpTo(g, source, l, v, k - 1)| {
        u, m := v, k - 1;
      } else {
        u, m := OfferIsMade(g, source, l, v, k - 1, i);
      }
    } else {
      u, m := OfferIsMade(g, source, l, v - 1, |g.links[v - 1]|, i);
    }
  }

  lemma {:induction false} OffersAreComplete(g: Graph, source: RouterId, l: Labels, v: nat, k: nat, u: nat, m: nat)
    requires g.WellFormed() && SearchResult(g, source, l)
    requires v <= |g.ids| && if v < |g.ids| then k <= |g.links[v]| else k == 0
    requires u < |g.ids| && m < |g.links[u]| && (u < v || (u == v && m < k))
    ensures OfferOf(g, source, l, u, m) in OffersUpTo(g, source, l, v, k)
    decreases v, k
  {
    if k > 0 {
      if !(u == v && m == k - 1) {
        OffersAreComplete(g, source, l, v, k - 1, u, m);
      }
    } else {
      OffersAreComplete(g, source, l, v - 1, |g.links[v - 1]|, u, m);
    }
  }

  lemma OffersAreMeasured(g: Graph, source: RouterId, l: Labels)
    requires g.WellFormed() && SearchResult(g, source, l) && ShortDistances(l)
    ensures Measured(OffersUpTo(g, source, l, |g.ids|, 0))
  {
    var offers := OffersUpTo(g, source, l, |g.ids|, 0);
    forall i | 0 <= i < |offers|
      ensures (0 <= offers[i].dist < 0xFFFF || offers[i].dist == INFINITE) && (offers[i].own <==> offers[i].dist == 0)
    {
      var u, m := OfferIsMade(g, source, l, |g.ids|, 0, i);
      assert Sound(g, source, l, u);
    }
  }

  /** The `k`-th interface of router `v` advertises the subnet. */
  ghost predicate Advertises(g: Graph, v: int, k: int, ip: Addr, mask: Addr)
    requires |g.ids| == |g.links|
  {
    0 <= v < |g.ids| && 0 <= k < |g.links[v]| && g.links[v][k].mask == mask && Net(g.links[v][k].subnet, mask) == ip
  }

  /** The `k`-th interface of router `v` advertises the subnet, and no advertiser is nearer. */
  ghost predicate NearestAdvertiser(g: Graph, l: Labels, ip: Addr, mask: Addr, v: int, k: int)
    requires Sized(g, l)
  {
    Advertises(g, v, k, ip, mask) && forall u, m :: Advertises(g, u, m, ip, mask) ==> l.dist[v] <= l.dist[u]
  }

  /** What a wrapper must say: the nearest advertiser's distance, and the first hop towards it. */
  ghost predicate Nearest16(g: Graph, source: RouterId, l: Labels, w: RouteWrapper, v: int, k: int)
    requires Sized(g, l)
  {
    && NearestAdvertiser(g, l, w.ip, w.mask, v, k)
    && w.distance == (if l.dist[v] == INFINITE then 0xFFFF else l.dist[v])
    && if 0 < l.dist[v] < INFINITE then BeginsShortestPath(g, source, v, w.nextRid)
       else w.nextRid == if l.dist[v] == 0 then g.links[v][k].rid else FarRid(g, source, l, v, g.links[v][k])
  }

  ghost predicate ExactWrapper(g: Graph, source: RouterId, l: Labels, ours: nat, w: RouteWrapper)
    requires Sized(g, l)
  {
    && (exists v, k :: Nearest16(g, source, l, w, v, k))
    && (w.direct <==> exists k :: Advertises(g, ours, k, w.ip, w.mask))
  }

  /** Every advertised subnet has a wrapper. */
  ghost predicate Covers(g: Graph, ws: seq<RouteWrapper>)
    requires |g.ids| == |g.links|
  {
    forall v, k, ip, mask :: Advertises(g, v, k, ip, mask) ==>
        exists a :: 0 <= a < |ws| && ws[a].ip == ip && ws[a].mask == mask
  }

  /**
   The wrapper list of a finished search: every advertised subnet once, with the least
   distance over all its advertisers and a router that begins a shortest path to it;
   `direct` marks the subnets our own router advertises.
   */
  ghost predicate ExactRoutes(g: Graph, source: RouterId, l: Labels, ours: nat, ws: seq<RouteWrapper>)
    requires Sized(g, l)
  {
    && OneEach(ws) && Covers(g, ws)
    && forall a :: 0 <= a < |ws| ==> ExactWrapper(g, source, l, ours, ws[a])
  }

  lemma WrapperIsNearest(g: Graph, source: RouterId, l: Labels, ours: nat, offers: seq<Offer>, w: RouteWrapper)
    requires g.WellFormed() && SearchResult(g, source, l) && ShortDistances(l)
    requires ours < |g.ids| && g.ids[ours] == source
    requires offers == OffersUpTo(g, source, l, |g.ids|, 0)
    requires exists i :: BestOffer(offers, w, i)
    ensures exists v, k :: Nearest16(g, source, l, w, v, k)
  {
    var i :| BestOffer(offers, w, i);
    var v, k := OfferIsMade(g, source, l, |g.ids|, 0, i);
    BestIsNearest(g, source, l, offers, w, i, v);
    OfferLeads(g, source, l, ours, v, k);
    assert Nearest16(g, source, l, w, v, k);
  }

  /** What an offer carries: its distance in 16 bits, and the first hop of a shortest path to its router. */
  lemma OfferLeads(g: Graph, source: RouterId, l: Labels, ours: nat, v: nat, k: nat)
    requires g.WellFormed() && SearchResult(g, source, l) && ShortDistances(l)
    requires ours < |g.ids| && g.ids[ours] == source
    requires v < |g.ids| && k < |g.links[v]|
    ensures var o := OfferOf(g, source, l, v, k);
            && o.dist % 0x1_0000 == (if l.dist[v] == INFINITE then 0xFFFF else l.dist[v])
            && if 0 < l.dist[v] < INFINITE then BeginsShortestPath(g, source, v, o.nextRid)
               else o.nextRid == if l.dist[v] == 0 then g.links[v][k].rid else FarRid(g, source, l, v, g.links[v][k])
  {
    assert Sound(g, source, l, v);
    if 0 < l.dist[v] < INFINITE {
      FirstHopIsOnShortestPath(g, source, l, v, ours);
    }
  }

  lemma BestIsNearest(g: Graph, source: RouterId, l: Labels, offers: seq<Offer>, w: RouteWrapper, i: int, v: int)
    requires g.WellFormed() && SearchResult(g, source, l)
    requires offers == OffersUpTo(g, source, l, |g.ids|, 0)
    requires BestOffer(offers, w, i) && 0 <= v < |g.ids| && offers[i].dist == l.dist[v]
    ensures forall u, m :: Advertises(g, u, m, w.ip, w.mask) ==> l.dist[v] <= l.dist[u]
  {
    forall u, m | Advertises(g, u, m, w.ip, w.mask) ensures l.dist[v] <= l.dist[u] {
      OffersAreComplete(g, source, l, |g.ids|, 0, u, m);
      var j :| 0 <= j < |offers| && offers[j] == OfferOf(g, source, l, u, m);
      assert SameSubnet(w, offers[j]);
    }
  }

  lemma DirectIsOurs(g: Graph, source: RouterId, l: Labels, ours: nat, offers: seq<Offer>, w: RouteWrapper)
    requires g.WellFormed() && SearchResult(g, source, l)
    requires ours < |g.ids| && g.ids[ours] == source
    requires offers == OffersUpTo(g, source, l, |g.ids|, 0)
    ensures (exists i :: 0 <= i < |offers| && SameSubnet(w, offers[i]) && offers[i].own)
            <==> exists k :: Advertises(g, ours, k, w.ip, w.mask)
  {
    if j :| 0 <= j < |offers| && SameSubnet(w, offers[j]) && offers[j].own {
      var u, m := OfferIsMade(g, source, l, |g.ids|, 0, j);
      assert u == ours && Advertises(g, ours, m, w.ip, w.mask);
    }
    if m :| Advertises(g, ours, m, w.ip, w.mask) {
      OffersAreComplete(g, source, l, |g.ids|, 0, ours, m);
      var j :| 0 <= j < |offers| && offers[j] == OfferOf(g, source, l, ours, m);
      assert SameSubnet(w, offers[j]);
    }
  }

  lemma SubnetsAreCovered(g: Graph, source: RouterId, l: Labels, offers: seq<Offer>, ws: seq<RouteWrapper>)
    requires g.WellFormed() && SearchResult(g, source, l)
    requires offers == OffersUpTo(g, source, l, |g.ids|, 0) && Listed(offers, ws)
    ensures Covers(g, ws)
  {
    forall v, k, ip, mask | Advertises(g, v, k, ip, mask)
      ensures exists a :: 0 <= a < |ws| && ws[a].ip == ip && ws[a].mask == mask
    {
      OffersAreComplete(g, source, l, |g.ids|, 0, v, k);
      var i :| 0 <= i < |offers| && offers[i] == OfferOf(g, source, l, v, k);
      var a :| 0 <= a < |ws| && SameSubnet(ws[a], offers[i]);
    }
  }

  /** Route wrappers are complete, unique and minimal. */
  lemma RoutesAreExact(g: Graph, source: RouterId, l: Labels, ours: nat)
    requires g.WellFormed() && SearchResult(g, source, l) && ShortDistances(l)
    requires ours < |g.ids| && g.ids[ours] == source
    ensures ExactRoutes(g, source, l, ours, Table(OffersUpTo(g, source, l, |g.ids|, 0)))
  {
    var offers := OffersUpTo(g, source, l, |g.ids|, 0);
    OffersAreMeasured(g, source, l);
    TableIsExact(offers);
    SubnetsAreCovered(g, source, l, offers, Table(offers));
    forall w | Exact(offers, w) ensures ExactWrapper(g, source, l, ours, w) {
      WrapperIsNearest(g, source, l, ours, offers, w);
      DirectIsOurs(g, source, l, ours, offers, w);
    }
  }

  // ----- the loops over the routers

  /** The list after a run: topology `g`, labels `l`, and predecessors that lead down to us, however old. */
  ghost predicate Computed(ourId: RouterId, routers: seq<PwospfRouter>, g: Graph, l: Labels)
    reads routers
  {
    && RouterList(routers) && Describes(g, routers) && Labelled(l, routers) && Points(routers, l.prev)
    && g.WellFormed() && SearchResult(g, ourId, l) && Anchored(g.ids, ourId, l.prev)
  }

  /** Walk down until the next router is the source. The walk ends whatever runs the predecessors come from. */
  method NextRid(ourId: RouterId, routers: seq<PwospfRouter>, r: PwospfRouter, i: Iface, ghost g: Graph,
                 ghost l: Labels, ghost v: nat)
    returns (rid: RouterId)
    requires Computed(ourId, routers, g, l) && v < |routers| && routers[v] == r
    ensures rid == NextOf(g, ourId, l, v, i)
  {
    ghost var rank :| AnchoredBy(g.ids, ourId, l.prev, rank);
    assert Sound(g, ourId, l, v) && PointsAt(routers, l.prev, v) && AnchoredAt(g.ids, ourId, l.prev, rank, v);
    if r.prev == null {
      return i.rid;
    }
    var cur: PwospfRouter, prev: PwospfRouter := r, r.prev;
    ghost var c: nat := v;
    assert Sound(g, ourId, l, l.prev[c]);
    while prev.distance != 0
      invariant c < |routers| && routers[c] == cur && cur.prev == prev
      invariant 0 <= l.prev[c] < |routers| && prev == routers[l.prev[c]]
      invariant prev.distance == 0 <==> g.ids[l.prev[c]] == ourId
      invariant WalkEnd(g.ids, ourId, l.prev, rank, c) == WalkEnd(g.ids, ourId, l.prev, rank, v)
      decreases rank[c]
    {
      assert AnchoredAt(g.ids, ourId, l.prev, rank, c);
      c := l.prev[c];
      assert PointsAt(routers, l.prev, c) && AnchoredAt(g.ids, ourId, l.prev, rank, c);
      cur, prev := prev, prev.prev;
      assert Sound(g, ourId, l, l.prev[c]);
    }
    rid := cur.routerId;
    HopOfIsWalkEnd(g, ourId, l, rank, v);
    if 0 < l.dist[v] < INFINITE {
      WalkEndIsHop(g, ourId, l, rank, v);
    }
  }

  method GetRouteWrapper(ws: seq<RouteWrapper>, subnet: Addr, mask: Addr) returns (k: nat)
    ensures k == Find(ws, Net(subnet, mask), mask)
  {
    k := 0;
    while k < |ws| && !(ws[k].ip == Net(subnet, mask) && ws[k].mask == mask)
      invariant k <= |ws|
      invariant Find(ws, Net(subnet, mask), mask) == k + Find(ws[k..], Net(subnet, mask), mask)
    {
      k := k + 1;
    }
  }

  /** One interface of `r`: a new wrapper, a nearer route for an existing one, or nothing. */
  method AddRouteWrapper(ourId: RouterId, head: seq<RouteWrapper>, routers: seq<PwospfRouter>, r: PwospfRouter,
                         i: Iface, ghost g: Graph, ghost l: Labels, ghost v: nat, ghost k: nat)
    returns (ws: seq<RouteWrapper>)
    requires Computed(ourId, routers, g, l) && v < |routers| && routers[v] == r
    requires k < |g.links[v]| && g.links[v][k] == i
    ensures ws == Consider(head, OfferOf(g, ourId, l, v, k))
  {
    ws := head;
    var at := GetRouteWrapper(ws, i.subnet, i.mask);
    if at < |ws| {
      if r.distance < ws[at].distance {
        var rid := NextRid(ourId, routers, r, i, g, l, v);
        ws := ws[at := ws[at].(distance := r.distance % 0x1_0000, nextRid := rid)];
        if ourId == r.routerId {
          ws := ws[at := ws[at].(direct := true)];
        }
      }
    } else {
      var rid := NextRid(ourId, routers, r, i, g, l, v);
      ws := ws + [RouteWrapper(Net(i.subnet, i.mask), i.mask, r.distance % 0x1_0000, rid, ourId == r.routerId)];
    }
  }

  method AddRouteWrappers(ourId: RouterId, head: seq<RouteWrapper>, routers: seq<PwospfRouter>, r: PwospfRouter,
                          ghost g: Graph, ghost l: Labels, ghost v: nat)
    returns (ws: seq<RouteWrapper>)
    requires Computed(ourId, routers, g, l) && v < |routers| && routers[v] == r
    requires head == Table(OffersUpTo(g, ourId, l, v, 0))
    ensures ws == Table(OffersUpTo(g, ourId, l, v, |g.links[v]|))
  {
    ws := head;
    var list := r.interfaces;
    assert list == g.links[v];
    for k := 0 to |list|
      invariant ws == Table(OffersUpTo(g, ourId, l, v, k))
    {
      assert Computed(ourId, routers, g, l) && routers[v] == r;
      ws := AddToTable(ourId, ws, routers, r, list[k], g, l, v, k);
    }
  }

  /** One turn of the loop. */
  method AddToTable(ourId: RouterId, head: seq<RouteWrapper>, routers: seq<PwospfRouter>, r: PwospfRouter,
                    i: Iface, ghost g: Graph, ghost l: Labels, ghost v: nat, ghost k: nat)
    returns (ws: seq<RouteWrapper>)
    requires Computed(ourId, routers, g, l) && v < |routers| && routers[v] == r
    requires k < |g.links[v]| && g.links[v][k] == i && head == Table(OffersUpTo(g, ourId, l, v, k))
    ensures ws == Table(OffersUpTo(g, ourId, l, v, k + 1))
  {
    TableNext(g, ourId, l, v, k);
    ws := AddRouteWrapper(ourId, head, routers, r, i, g, l, v, k);
  }

  /** The table with one interface more. */
  lemma TableNext(g: Graph, source: RouterId, l: Labels, v: nat, k: nat)
    requires g.WellFormed() && SearchResult(g, source, l) && v < |g.ids| && k < |g.links[v]|
    ensures Table(OffersUpTo(g, source, l, v, k + 1)) ==
            Consider(Table(OffersUpTo(g, source, l, v, k)), OfferOf(g, source, l, v, k))
  {
    TableExtends(OffersUpTo(g, source, l, v, k), OfferOf(g, source, l, v, k));
  }

  /** The route wrappers of a finished search. */
  method BuildRouteWrapperList(ourId: RouterId, routers: seq<PwospfRouter>, ghost g: Graph, ghost l: Labels,
                               ghost ours: nat)
    returns (ws: seq<RouteWrapper>)
    requires Computed(ourId, routers, g, l) && ShortDistances(l)
    requires ours < |routers| && routers[ours].routerId == ourId
    ensures ExactRoutes(g, ourId, l, ours, ws)
  {
    ws := [];
    for n := 0 to |routers|
      invariant ws == Table(OffersUpTo(g, ourId, l, n, 0))
    {
      ws := AddRouteWrappers(ourId, ws, routers, routers[n], g, l, n);
    }
    RoutesAreExact(g, ourId, l, ours);
  }
}
