/**
 The path computation of or_dijkstra.c: hop counts and predecessors over the routers
 learnt by the link-state protocol.
 */
module ShortestPath {
  import opened PwospfTypes

  /** The distance of a router that has not been reached. */
  const INFINITE: int := 0xFFFF_FFFF

  /** The topology a run works on: the identifiers and interface lists, by list position. */
  datatype Graph = Graph(ids: seq<RouterId>, links: seq<seq<Iface>>) {
    ghost predicate WellFormed() {
      && |ids| == |links|
      && (forall i :: 0 <= i < |ids| ==> ids[i] != BLANK)
      && (forall i, j :: 0 <= i < j < |ids| ==> ids[i] != ids[j])
    }
  }

  /** Interface `i` is an active link to the router named `rid`. */
  predicate Leads(i: Iface, rid: RouterId) {
    i.rid != BLANK && i.active && i.rid == rid
  }

  /** One of the first `k` entries of an interface list leads to `rid`. */
  ghost predicate LeadsBefore(links: seq<Iface>, k: nat, rid: RouterId) {
    exists i :: 0 <= i < k && i < |links| && Leads(links[i], rid)
  }

  ghost predicate Edge(g: Graph, u: nat, v: nat)
    requires |g.ids| == |g.links|
  {
    u < |g.ids| && v < |g.ids| && LeadsBefore(g.links[u], |g.links[u]|, g.ids[v])
  }

  /** `p` walks along active links, starting at the router named `source`. */
  ghost predicate Path(g: Graph, source: RouterId, p: seq<nat>)
    requires |g.ids| == |g.links|
  {
    && |p| > 0
    && (forall i :: 0 <= i < |p| ==> p[i] < |g.ids|)
    && g.ids[p[0]] == source
    && (forall i :: 0 <= i < |p| - 1 ==> Edge(g, p[i], p[i + 1]))
  }

  ghost predicate PathTo(g: Graph, source: RouterId, p: seq<nat>, v: nat)
    requires |g.ids| == |g.links|
  {
    Path(g, source, p) && p[|p| - 1] == v
  }

  /**
   `d` is the least number of hops from `source` to `v`, or `INFINITE` when no path
   leads there.
   */
  ghost predicate IsHopCount(g: Graph, source: RouterId, v: nat, d: int)
    requires |g.ids| == |g.links|
  {
    if d == INFINITE then
      forall p :: !PathTo(g, source, p, v)
    else
      && (exists p :: PathTo(g, source, p, v) && |p| - 1 == d)
      && (forall p :: PathTo(g, source, p, v) ==> d <= |p| - 1)
  }

  /** What a run keeps in the routers, by list position. */
  datatype Labels = Labels(dist: seq<int>, found: seq<bool>, prev: seq<int>)

  ghost predicate Sized(g: Graph, l: Labels) {
    |g.ids| == |g.links| == |l.dist| == |l.found| == |l.prev|
  }


  function Count(found: seq<bool>): nat {
    if found == [] then 0 else (if found[0] then 1 else 0) + Count(found[1..])
  }

  /** A finite label is witnessed by a path of that length, whose last hop is the predecessor's. */
  ghost predicate Sound(g: Graph, source: RouterId, l: Labels, v: nat)
    requires Sized(g, l) && v < |g.ids|
  {
    && 0 <= l.dist[v] <= INFINITE
    && (l.found[v] ==> l.dist[v] < INFINITE)
    && (l.dist[v] == 0 <==> g.ids[v] == source)
    && (l.dist[v] < INFINITE ==> exists p :: PathTo(g, source, p, v) && |p| - 1 == l.dist[v])
    && (0 < l.dist[v] < INFINITE ==> Follows(g, l, v))
  }

  /** The predecessor of `v` is a finished router one hop nearer, with an active link to `v`. */
  ghost predicate Follows(g: Graph, l: Labels, v: nat)
    requires Sized(g, l) && v < |g.ids|
  {
    var u := l.prev[v];
    0 <= u < |g.ids| && l.found[u] && l.dist[u] + 1 == l.dist[v] && Edge(g, u, v)
  }

  /** A processed router `u` is no further away than an open one, and its links are relaxed. */
  ghost predicate Settled(g: Graph, l: Labels, u: nat, v: nat)
    requires Sized(g, l) && u < |g.ids| && v < |g.ids|
  {
    && (!l.found[v] ==> l.dist[u] <= l.dist[v])
    && (Edge(g, u, v) ==> l.dist[v] <= l.dist[u] + 1)
  }

  /** The state between two rounds; `cur` is the router about to be processed, or -1. */
  ghost predicate SearchState(g: Graph, source: RouterId, l: Labels, cur: int) {
    && Sized(g, l) && -1 <= cur < |g.ids|
    && (forall v :: 0 <= v < |g.ids| ==> Sound(g, source, l, v))
    && (forall u, v :: 0 <= u < |g.ids| && 0 <= v < |g.ids| && l.found[u] && u != cur ==> Settled(g, l, u, v))
    && (forall v :: 0 <= v < |g.ids| && l.dist[v] < INFINITE ==> l.dist[v] <= Count(l.found))
    && (forall v :: 0 <= v < |g.ids| && l.found[v] ==> l.dist[v] < Count(l.found))
  }

  /** `cur` separates the finished routers from the open ones. */
  ghost predicate Nearest(g: Graph, l: Labels, cur: nat)
    requires Sized(g, l)
  {
    && cur < |g.ids| && l.dist[cur] < INFINITE
    && (forall v :: 0 <= v < |g.ids| ==> if l.found[v] then l.dist[v] <= l.dist[cur] else l.dist[cur] <= l.dist[v])
  }

  /** One round: `w` is finished and its links to open routers are relaxed. */
  ghost predicate Round(g: Graph, l: Labels, w: nat, l': Labels)
    requires Sized(g, l)
  {
    && Sized(g, l') && w < |g.ids| && l'.found == l.found[w := true]
    && forall v {:trigger RoundAt(g, l, w, l', v)} {:trigger l'.dist[v]} {:trigger l'.found[v]} ::
         0 <= v < |g.ids| ==> RoundAt(g, l, w, l', v)
  }

  ghost predicate RoundAt(g: Graph, l: Labels, w: nat, l': Labels, v: nat)
    requires Sized(g, l) && Sized(g, l') && w < |g.ids| && v < |g.ids|
  {
    && l'.found[v] == (l.found[v] || v == w)
    && if !l'.found[v] && Edge(g, w, v) && l.dist[w] + 1 < l.dist[v]
       then l'.dist[v] == l.dist[w] + 1 && l'.prev[v] == w
       else l'.dist[v] == l.dist[v] && l'.prev[v] == l.prev[v]
  }

  lemma {:induction false} CountSet(found: seq<bool>, w: nat)
    requires w < |found|
    ensures Count(found[w := true]) == Count(found) + if found[w] then 0 else 1
  {
    if w > 0 {
      assert found[w := true][1..] == found[1..][w - 1 := true];
      CountSet(found[1..], w - 1);
    } else {
      assert found[w := true][1..] == found[1..];
    }
  }

  lemma {:induction false} CountBound(found: seq<bool>)
    ensures Count(found) <= |found|
    ensures false in found ==> Count(found) < |found|
  {
    if found != [] {
      CountBound(found[1..]);
      assert found == [found[0]] + found[1..];
    }
  }

  lemma RoundKeepsLabelsSound(g: Graph, source: RouterId, l: Labels, w: nat, l': Labels, v: nat)
    requires g.WellFormed() && SearchState(g, source, l, w) && Nearest(g, l, w) && Round(g, l, w, l')
    requires v < |g.ids|
    ensures Sound(g, source, l', v)
  {
    assert Sound(g, source, l, v) && Sound(g, source, l, w);
    if l'.dist[v] != l.dist[v] {
      var p :| PathTo(g, source, p, w) && |p| - 1 == l.dist[w];
      var q := p + [v];
      assert forall i :: 0 <= i < |p| - 1 ==> Edge(g, p[i], p[i + 1]);
      assert forall i :: 0 <= i < |q| - 1 ==> Edge(g, q[i], q[i + 1]);
      assert PathTo(g, source, q, v);
    } else if 0 < l.dist[v] < INFINITE {
      assert Follows(g, l, v);
      var u := l.prev[v];
      assert l.found[u] && l'.found[u];
      assert l'.dist[u] == l.dist[u];
    }
  }

  /** A round keeps the state of the search, with nothing left pending. */
  lemma RoundKeepsState(g: Graph, source: RouterId, l: Labels, w: nat, l': Labels)
    requires g.WellFormed() && SearchState(g, source, l, w) && Nearest(g, l, w) && Round(g, l, w, l')
    ensures SearchState(g, source, l', -1)
  {
    CountSet(l.found, w);
    forall v | 0 <= v < |g.ids| ensures Sound(g, source, l', v) {
      RoundKeepsLabelsSound(g, source, l, w, l', v);
    }
    forall u, v | 0 <= u < |g.ids| && 0 <= v < |g.ids| && l'.found[u]
      ensures Settled(g, l', u, v)
    {
      if u != w {
        assert Settled(g, l, u, v) && Settled(g, l, u, w);
      }
    }
  }

  /** The numbers 1 to n. */
  ghost function UpTo(n: nat): (s: set<int>)
    ensures |s| == n && forall x :: x in s <==> 1 <= x <= n
  {
    if n == 0 then {} else UpTo(n - 1) + {n}
  }

  lemma {:induction false} DistinctSize(ids: seq<RouterId>) returns (s: set<int>)
    requires forall i, j :: 0 <= i < j < |ids| ==> ids[i] != ids[j]
    ensures |s| == |ids| && forall x :: x in s ==> exists i :: 0 <= i < |ids| && ids[i] == x
  {
    s := {};
    for k := 0 to |ids|
      invariant |s| == k && forall x :: x in s ==> exists i :: 0 <= i < k && ids[i] == x
    {
      s := s + {ids[k]};
    }
  }

  lemma SubsetSize(a: set<int>, b: set<int>)
    requires a <= b
    ensures |a| <= |b|
  {
    assert a + (b - a) == b;
  }

  /** Distinct non-blank 32-bit identifiers leave room for one value that is never a distance. */
  lemma RouterCount(g: Graph)
    requires g.WellFormed()
    ensures |g.ids| <= INFINITE
  {
    var s := DistinctSize(g.ids);
    SubsetSize(s, UpTo(INFINITE));
  }

  /** When every open router is unreached, no path leads further than the labels say. */
  lemma {:induction false} LabelsBoundPaths(g: Graph, source: RouterId, l: Labels, p: seq<nat>, k: nat)
    requires g.WellFormed() && SearchState(g, source, l, -1)
    requires forall v :: 0 <= v < |g.ids| && !l.found[v] ==> l.dist[v] == INFINITE
    requires Path(g, source, p) && k < |p|
    ensures l.found[p[k]] && l.dist[p[k]] <= k
  {
    if k == 0 {
      assert Sound(g, source, l, p[0]);
    } else {
      LabelsBoundPaths(g, source, l, p, k - 1);
      var u, v := p[k - 1], p[k];
      assert Edge(g, u, p[k - 1 + 1]);
      assert Settled(g, l, u, v);
      if !l.found[v] {
        CountBound(l.found);
        RouterCount(g);
        assert false;
      }
    }
  }

  /** The search is over and `l` holds its result. */
  ghost predicate SearchResult(g: Graph, source: RouterId, l: Labels) {
    && SearchState(g, source, l, -1)
    && forall v :: 0 <= v < |g.ids| && !l.found[v] ==> l.dist[v] == INFINITE
  }

  /** When the search ends, every label is the true hop count. */
  lemma SearchIsCorrect(g: Graph, source: RouterId, l: Labels)
    requires g.WellFormed() && SearchResult(g, source, l)
    ensures forall v :: 0 <= v < |g.ids| ==> IsHopCount(g, source, v, l.dist[v])
  {
    forall v | 0 <= v < |g.ids| ensures IsHopCount(g, source, v, l.dist[v]) {
      assert Sound(g, source, l, v);
      forall p | PathTo(g, source, p, v)
        ensures l.dist[v] <= |p| - 1 && l.found[v]
      {
        LabelsBoundPaths(g, source, l, p, |p| - 1);
      }
    }
  }

  /** What holds at the head of the search loop: `next` is the router to process, or -1 at the end. */
  ghost predicate Searching(g: Graph, source: RouterId, l: Labels, next: int) {
    && g.WellFormed() && Sized(g, l)
    && if next < 0 then next == -1 && SearchResult(g, source, l)
       else SearchState(g, source, l, next) && Nearest(g, l, next)
  }

  /** What `GetShortest` picks: the nearest open router that has been reached, or -1. */
  ghost predicate Picked(l: Labels, next: int)
    requires |l.dist| == |l.found|
  {
    if next == -1 then forall v :: 0 <= v < |l.dist| && !l.found[v] ==> l.dist[v] >= INFINITE
    else
      && 0 <= next < |l.dist| && !l.found[next] && l.dist[next] < INFINITE
      && forall v :: 0 <= v < |l.dist| && !l.found[v] ==> l.dist[next] <= l.dist[v]
  }

  function Rounds(l: Labels, next: int): int {
    |l.found| - Count(l.found) + if 0 <= next < |l.found| && l.found[next] then 1 else 0
  }

  /**
   A round leads from one loop head to the next and makes progress. The open routers are
   counted, plus one for the first round, whose router starts finished.
   */
  lemma NextRound(g: Graph, source: RouterId, l: Labels, w: nat, l': Labels, next: int)
    requires Searching(g, source, l, w) && Round(g, l, w, l') && Picked(l', next)
    ensures Searching(g, source, l', next)
    ensures 0 <= Rounds(l', next) < Rounds(l, w)
  {
    RoundKeepsState(g, source, l, w, l');
    CountSet(l.found, w);
    CountBound(l'.found);
    if next == -1 {
      forall v | 0 <= v < |g.ids| && !l'.found[v] ensures l'.dist[v] == INFINITE {
        assert Sound(g, source, l', v);
      }
    } else {
      forall v | 0 <= v < |g.ids| && l'.found[v] ensures l'.dist[v] <= l'.dist[next] {
        assert Settled(g, l', v, next);
      }
    }
  }

  lemma {:induction false} CountOne(found: seq<bool>, w: int)
    requires forall v :: 0 <= v < |found| ==> (found[v] <==> v == w)
    ensures Count(found) == if 0 <= w < |found| then 1 else 0
  {
    if found != [] {
      CountOne(found[1..], w - 1);
    }
  }

  /** Before the first round only our own router, when it is listed, is finished. */
  lemma InitialState(g: Graph, source: RouterId, l: Labels, ours: int)
    requires g.WellFormed() && Sized(g, l)
    requires if ours == -1 then source !in g.ids else 0 <= ours < |g.ids| && g.ids[ours] == source
    requires forall v :: 0 <= v < |g.ids| ==>
               if g.ids[v] == source then l.dist[v] == 0 && l.found[v] else l.dist[v] == INFINITE && !l.found[v]
    ensures Searching(g, source, l, ours)
  {
    CountOne(l.found, ours);
    if ours != -1 {
      assert PathTo(g, source, [ours], ours);
    }
  }

  // ----- the routers themselves

  /** `g` is the topology held by the list. */
  ghost predicate Describes(g: Graph, routers: seq<PwospfRouter>)
    reads routers
  {
    && |g.ids| == |g.links| == |routers|
    && forall i :: 0 <= i < |routers| ==> g.ids[i] == routers[i].routerId && g.links[i] == routers[i].interfaces
  }

  /** `l` holds the labels of the list; -1 stands for a predecessor that is not listed. */
  ghost predicate Labelled(l: Labels, routers: seq<PwospfRouter>)
    reads routers
  {
    && |l.dist| == |l.found| == |l.prev| == |routers|
    && forall i :: 0 <= i < |routers| ==>
         && l.dist[i] == routers[i].distance
         && l.found[i] == routers[i].pathFound
         && (if l.prev[i] == -1 then routers[i].prev !in routers
             else 0 <= l.prev[i] < |routers| && routers[i].prev == routers[l.prev[i]])
  }

  lemma TakeLabels(routers: seq<PwospfRouter>) returns (l: Labels)
    ensures Labelled(l, routers)
  {
    l := Labels([], [], []);
    for k := 0 to |routers|
      invariant |l.dist| == |l.found| == |l.prev| == k
      invariant forall i :: 0 <= i < k ==>
         && l.dist[i] == routers[i].distance
         && l.found[i] == routers[i].pathFound
         && (if l.prev[i] == -1 then routers[i].prev !in routers
             else 0 <= l.prev[i] < |routers| && routers[i].prev == routers[l.prev[i]])
    {
      var r := routers[k];
      var p := if r.prev in routers then var j :| 0 <= j < |routers| && routers[j] == r.prev; j else -1;
      l := Labels(l.dist + [r.distance], l.found + [r.pathFound], l.prev + [p]);
    }
  }

  /** The router list as the link-state protocol keeps it: one entry a router, none of them blank. */
  ghost predicate RouterList(routers: seq<PwospfRouter>) {
    && (forall i :: 0 <= i < |routers| ==> routers[i].routerId != BLANK)
    && (forall i, j :: 0 <= i < j < |routers| ==> routers[i].routerId != routers[j].routerId)
  }

  /** The router named `rid`, at position `k`; -1 goes with null. */
  method GetRouterByRid(rid: RouterId, routers: seq<PwospfRouter>) returns (r: PwospfRouter?, ghost k: int)
    ensures -1 <= k < |routers| && r == if k == -1 then null else routers[k]
    ensures if k == -1 then forall i :: 0 <= i < |routers| ==> routers[i].routerId != rid
            else r.routerId == rid && forall j :: 0 <= j < k ==> routers[j].routerId != rid
    ensures r != null ==> r in routers && r.routerId == rid
  {
    for n := 0 to |routers|
      invariant forall i :: 0 <= i < n ==> routers[i].routerId != rid
    {
      if routers[n].routerId == rid {
        return routers[n], n;
      }
    }
    return null, -1;
  }

  /** The nearest router whose path is still open, if one has been reached. */
  method GetShortest(routers: seq<PwospfRouter>, ghost l: Labels) returns (r: PwospfRouter?, ghost k: int)
    requires Labelled(l, routers)
    ensures -1 <= k < |routers| && r == if k == -1 then null else routers[k]
    ensures Picked(l, k)
    ensures r != null ==> r in routers && !r.pathFound
  {
    r, k := null, -1;
    var shortest := INFINITE;
    for n := 0 to |routers|
      invariant -1 <= k < |routers| && r == if k == -1 then null else routers[k]
      invariant if k == -1 then shortest == INFINITE else !l.found[k] && l.dist[k] == shortest < INFINITE
      invariant forall i :: 0 <= i < n && !l.found[i] ==> shortest <= l.dist[i]
    {
      if !routers[n].pathFound && routers[n].distance < shortest {
        r, k := routers[n], n;
        shortest := r.distance;
      }
    }
  }

  method UpdateNeighborDistance(w: PwospfRouter, routers: seq<PwospfRouter>)
    requires RouterList(routers) && w in routers && w.pathFound && 0 <= w.distance < INFINITE
    modifies routers
    ensures forall r :: r in routers ==> r.interfaces == old(r.interfaces) && r.pathFound == old(r.pathFound)
    ensures forall r :: r in routers ==>
              if !r.pathFound && LeadsBefore(w.interfaces, |w.interfaces|, r.routerId) &&
                  w.distance + 1 < old(r.distance)
              then r.distance == w.distance + 1 && r.prev == w
              else r.distance == old(r.distance) && r.prev == old(r.prev)
  {
    for k := 0 to |w.interfaces|
      invariant forall r :: r in routers ==> r.interfaces == old(r.interfaces) && r.pathFound == old(r.pathFound)
      invariant forall r :: r in routers ==>
                  if !r.pathFound && LeadsBefore(w.interfaces, k, r.routerId) && w.distance + 1 < old(r.distance)
                  then r.distance == w.distance + 1 && r.prev == w
                  else r.distance == old(r.distance) && r.prev == old(r.prev)
    {
      var i := w.interfaces[k];
      if i.rid != BLANK && i.active {
        var v, _ := GetRouterByRid(i.rid, routers);
        // the sum is a 32-bit one; a finished router is nearer than INFINITE, so it cannot wrap
        var through := (w.distance + 1) % 0x1_0000_0000;
        if v != null && !v.pathFound && through < v.distance {
          v.distance := through;
          v.prev := w;
        }
      }
    }
  }

  /** Every router is put at the largest distance, except ours. */
  method InitDistances(ourId: RouterId, routers: seq<PwospfRouter>)
    requires RouterList(routers)
    modifies routers
    ensures forall r :: r in routers ==>
              && r.interfaces == old(r.interfaces) && r.prev == old(r.prev)
              && if r.routerId == ourId then r.distance == 0 && r.pathFound else r.distance == INFINITE && !r.pathFound
  {
    for k := 0 to |routers|
      invariant forall r :: r in routers ==> r.interfaces == old(r.interfaces) && r.prev == old(r.prev)
      invariant forall i :: 0 <= i < k ==>
                  if routers[i].routerId == ourId then routers[i].distance == 0 && routers[i].pathFound
                  else routers[i].distance == INFINITE && !routers[i].pathFound
    {
      var r := routers[k];
      if r.routerId == ourId {
        r.distance := 0;
        r.pathFound := true;
      } else if r.routerId != BLANK {
        r.distance := INFINITE;
        r.pathFound := false;
      }
    }
  }

  /** The body of the search loop: `w` joins the finished routers and its links are relaxed. */
  method FinishRouter(w: PwospfRouter, routers: seq<PwospfRouter>, ghost g: Graph, ghost l: Labels, ghost n: nat)
    returns (ghost l': Labels)
    requires RouterList(routers) && Describes(g, routers) && Labelled(l, routers)
    requires n < |routers| && routers[n] == w && w.distance < INFINITE
    requires forall r :: r in routers ==> 0 <= r.distance <= INFINITE
    modifies routers
    ensures Describes(g, routers) && Labelled(l', routers) && Round(g, l, n, l')
    ensures forall r :: r in routers ==>
              && 0 <= r.distance <= old(r.distance) && (old(r.pathFound) ==> r.pathFound)
              && (r.prev == old(r.prev) || (!old(r.pathFound) && r.distance < INFINITE))
  {
    w.pathFound := true;
    UpdateNeighborDistance(w, routers);
    l' := TakeLabels(routers);
    forall v | 0 <= v < |routers| ensures RoundAt(g, l, n, l', v) {
      assert g.links[n] == w.interfaces;
    }
  }

  /**
   Hop counts and predecessors from the router named `ourId`. The measure counts the open
   routers, plus one for the first round, which processes a router that starts finished.
   */
  method ComputeDistances(ourId: RouterId, routers: seq<PwospfRouter>, ghost g: Graph) returns (ghost l: Labels)
    requires RouterList(routers) && Describes(g, routers)
    modifies routers
    ensures Describes(g, routers) && Labelled(l, routers) && SearchResult(g, ourId, l)
    ensures forall v :: 0 <= v < |routers| ==> IsHopCount(g, ourId, v, routers[v].distance)
    ensures forall r :: r in routers && (r.routerId == ourId || r.distance == INFINITE) ==> r.prev == old(r.prev)
  {
    InitDistances(ourId, routers);
    var shortest, n := GetRouterByRid(ourId, routers);
    l := TakeLabels(routers);
    InitialState(g, ourId, l, n);
    while shortest != null
      invariant Describes(g, routers) && Labelled(l, routers)
      invariant -1 <= n < |routers| && shortest == if n == -1 then null else routers[n]
      invariant Searching(g, ourId, l, n)
      invariant forall r :: r in routers ==>
                  && 0 <= r.distance <= INFINITE && (r.routerId == ourId ==> r.pathFound)
                  && (r.prev == old(r.prev) || (r.routerId != ourId && r.distance < INFINITE))
      decreases Rounds(l, n)
    {
      ghost var was, w := l, n;
      l := FinishRouter(shortest, routers, g, l, w);
      shortest, n := GetShortest(routers, l);
      NextRound(g, ourId, was, w, l, n);
    }
    SearchIsCorrect(g, ourId, l);
  }

  /**
   The distances read off the links alone: zero is ours, every other router that is reached is
   named by an active entry of one that is a hop nearer, and no active entry leads further
   than one hop.
   */
  lemma DistancesByLinks(g: Graph, source: RouterId, l: Labels)
    requires g.WellFormed() && SearchResult(g, source, l)
    ensures forall v :: 0 <= v < |g.ids| ==>
              && (l.dist[v] == 0 <==> g.ids[v] == source)
              && (0 < l.dist[v] < INFINITE ==> exists u, k :: Names(g, u, k, v) && l.dist[u] + 1 == l.dist[v])
    ensures forall u, k, v :: Names(g, u, k, v) && l.dist[u] < INFINITE ==> l.dist[v] <= l.dist[u] + 1
  {
    forall v | 0 <= v < |g.ids|
      ensures l.dist[v] == 0 <==> g.ids[v] == source
      ensures 0 < l.dist[v] < INFINITE ==> exists u, k :: Names(g, u, k, v) && l.dist[u] + 1 == l.dist[v]
    {
      assert Sound(g, source, l, v);
      if 0 < l.dist[v] < INFINITE {
        var u := l.prev[v];
        var k :| 0 <= k < |g.links[u]| && Leads(g.links[u][k], g.ids[v]);
        assert Names(g, u, k, v);
      }
    }
    forall u, k, v | Names(g, u, k, v) && l.dist[u] < INFINITE ensures l.dist[v] <= l.dist[u] + 1 {
      assert Leads(g.links[u][k], g.ids[v]) && Edge(g, u, v);
      assert Settled(g, l, u, v);
    }
  }

  /** Entry `k` of router `u` is active and names router `v`. */
  predicate Names(g: Graph, u: int, k: int, v: int) {
    && 0 <= u < |g.ids| && u < |g.links| && 0 <= k < |g.links[u]| && 0 <= v < |g.ids|
    && g.links[u][k].active && g.links[u][k].rid == g.ids[v]
  }

  // ----- predecessors from earlier runs

  /**
   Whatever runs they come from, the predecessors lead down to the source: its own is none,
   and any other has a smaller rank and is the source or has a predecessor itself.
   */
  ghost predicate AnchoredBy(ids: seq<RouterId>, source: RouterId, prev: seq<int>, rank: seq<nat>) {
    && |ids| == |prev| == |rank|
    && forall v :: 0 <= v < |ids| ==> AnchoredAt(ids, source, prev, rank, v)
  }

  ghost predicate AnchoredAt(ids: seq<RouterId>, source: RouterId, prev: seq<int>, rank: seq<nat>, v: int)
    requires |ids| == |prev| == |rank| && 0 <= v < |ids|
  {
    && (ids[v] == source ==> prev[v] == -1)
    && (prev[v] != -1 ==>
          && 0 <= prev[v] < |ids| && rank[prev[v]] < rank[v]
          && (ids[prev[v]] == source || prev[prev[v]] != -1))
  }

  ghost predicate Anchored(ids: seq<RouterId>, source: RouterId, prev: seq<int>) {
    exists rank :: AnchoredBy(ids, source, prev, rank)
  }

  /** A search leaves the predecessors of unreached routers alone, and ours. */
  ghost predicate Inherits(g: Graph, source: RouterId, was: seq<int>, l: Labels)
    requires Sized(g, l)
  {
    && |was| == |g.ids|
    && forall v :: 0 <= v < |g.ids| && (g.ids[v] == source || l.dist[v] == INFINITE) ==> l.prev[v] == was[v]
  }

  /** The distance of a reached router ranks it; the others keep their order above all distances. */
  function NewRank(l: Labels, rank: seq<nat>): (r: seq<nat>)
    requires |l.dist| == |rank| && forall v :: 0 <= v < |l.dist| ==> 0 <= l.dist[v]
    ensures |r| == |rank|
  {
    seq(|rank|, v requires 0 <= v < |rank| => if l.dist[v] == INFINITE then INFINITE + rank[v] else l.dist[v])
  }

  /** A finished search over any topology keeps the predecessors anchored. */
  lemma SearchKeepsAnchor(g: Graph, source: RouterId, was: seq<int>, l: Labels)
    requires g.WellFormed() && SearchResult(g, source, l) && Inherits(g, source, was, l) && Anchored(g.ids, source, was)
    ensures Anchored(g.ids, source, l.prev)
  {
    var rank :| AnchoredBy(g.ids, source, was, rank);
    forall v | 0 <= v < |l.dist| ensures 0 <= l.dist[v] {
      assert Sound(g, source, l, v);
    }
    var rank' := NewRank(l, rank);
    forall v | 0 <= v < |g.ids| ensures AnchoredAt(g.ids, source, l.prev, rank', v) {
      assert Sound(g, source, l, v) && AnchoredAt(g.ids, source, was, rank, v);
      if g.ids[v] != source && l.prev[v] != -1 {
        var u := l.prev[v];
        if l.dist[v] < INFINITE {
          assert Follows(g, l, v);
        }
        assert Sound(g, source, l, u);
        if 0 < l.dist[u] < INFINITE {
          assert Follows(g, l, u);
        }
      }
    }
    assert AnchoredBy(g.ids, source, l.prev, rank');
  }

  /** A router that joins the list has no predecessor yet. */
  lemma JoinKeepsAnchor(ids: seq<RouterId>, source: RouterId, prev: seq<int>, more: seq<RouterId>)
    requires Anchored(ids, source, prev)
    ensures Anchored(ids + more, source, prev + seq(|more|, _ => -1))
  {
    var rank :| AnchoredBy(ids, source, prev, rank);
    var ids', prev', rank' := ids + more, prev + seq(|more|, _ => -1), rank + seq(|more|, _ => 0);
    forall v | 0 <= v < |ids'| ensures AnchoredAt(ids', source, prev', rank', v) {
      if v < |ids| {
        assert AnchoredAt(ids, source, prev, rank, v);
      }
    }
    assert AnchoredBy(ids', source, prev', rank');
  }

  /** One run of the path computation: its topology and its result. */
  datatype Run = Run(graph: Graph, labels: Labels)

  /** The predecessors the next run starts from: those of the run before, and none for routers that joined since. */
  function Passed(before: Run, n: nat): seq<int>
    requires |before.labels.prev| <= n
  {
    before.labels.prev + seq(n - |before.labels.prev|, _ => -1)
  }

  /**
   A sequence of runs over any topologies in which routers may join and none is removed. The
   first starts without predecessors.
   */
  ghost predicate Runs(source: RouterId, rs: seq<Run>) {
    && (forall i :: 0 <= i < |rs| ==> rs[i].graph.WellFormed() && SearchResult(rs[i].graph, source, rs[i].labels))
    && (|rs| > 0 ==> Inherits(rs[0].graph, source, seq(|rs[0].graph.ids|, _ => -1), rs[0].labels))
    && forall i {:trigger rs[i]} :: 0 < i < |rs| ==>
         && rs[i - 1].graph.ids <= rs[i].graph.ids
         && Inherits(rs[i].graph, source, Passed(rs[i - 1], |rs[i].graph.ids|), rs[i].labels)
  }

  /** Over every such sequence the predecessors stay anchored. */
  lemma {:induction false} RunsStayAnchored(source: RouterId, rs: seq<Run>)
    requires Runs(source, rs) && rs != []
    ensures Anchored(rs[|rs| - 1].graph.ids, source, rs[|rs| - 1].labels.prev)
  {
    var n := |rs| - 1;
    if n == 0 {
      NothingIsAnchored(source, rs[0].graph.ids);
      SearchKeepsAnchor(rs[0].graph, source, seq(|rs[0].graph.ids|, _ => -1), rs[0].labels);
    } else {
      RunsStayAnchored(source, rs[..n]);
      PassedIsAnchored(source, rs[n - 1], rs[n].graph.ids);
      SearchKeepsAnchor(rs[n].graph, source, Passed(rs[n - 1], |rs[n].graph.ids|), rs[n].labels);
    }
  }

  lemma NothingIsAnchored(source: RouterId, ids: seq<RouterId>)
    ensures Anchored(ids, source, seq(|ids|, _ => -1))
  {
    var prev, rank := seq(|ids|, _ => -1), seq(|ids|, _ => 0);
    assert forall v :: 0 <= v < |ids| ==> AnchoredAt(ids, source, prev, rank, v);
    assert AnchoredBy(ids, source, prev, rank);
  }

  lemma PassedIsAnchored(source: RouterId, before: Run, ids: seq<RouterId>)
    requires Anchored(before.graph.ids, source, before.labels.prev) && before.graph.ids <= ids
    requires |before.labels.prev| == |before.graph.ids|
    ensures Anchored(ids, source, Passed(before, |ids|))
  {
    var more := ids[|before.graph.ids|..];
    JoinKeepsAnchor(before.graph.ids, source, before.labels.prev, more);
    assert before.graph.ids + more == ids;
    assert before.labels.prev + seq(|more|, _ => -1) == Passed(before, |ids|);
  }

  /** The walk along predecessors, to the router whose predecessor is the source. */
  function WalkEnd(ids: seq<RouterId>, source: RouterId, prev: seq<int>, rank: seq<nat>, v: nat): (h: nat)
    requires AnchoredBy(ids, source, prev, rank) && v < |ids| && prev[v] != -1
    ensures h < |ids| && 0 <= prev[h] < |ids| && ids[prev[h]] == source
    decreases rank[v]
  {
    assert AnchoredAt(ids, source, prev, rank, v);
    if ids[prev[v]] == source then v else WalkEnd(ids, source, prev, rank, prev[v])
  }

  /** Its end does not depend on the ranks. */
  lemma {:induction false} WalkEndIsOne(ids: seq<RouterId>, source: RouterId, prev: seq<int>, r1: seq<nat>,
                                        r2: seq<nat>, v: nat)
    requires AnchoredBy(ids, source, prev, r1) && AnchoredBy(ids, source, prev, r2) && v < |ids| && prev[v] != -1
    ensures WalkEnd(ids, source, prev, r1, v) == WalkEnd(ids, source, prev, r2, v)
    decreases r1[v]
  {
    assert AnchoredAt(ids, source, prev, r1, v) && AnchoredAt(ids, source, prev, r2, v);
    if ids[prev[v]] != source {
      WalkEndIsOne(ids, source, prev, r1, r2, prev[v]);
    }
  }

  /** The objects point where the positions say; -1 is null. */
  ghost predicate Points(routers: seq<PwospfRouter>, prev: seq<int>)
    reads routers
  {
    |prev| == |routers| && forall i :: 0 <= i < |routers| ==> PointsAt(routers, prev, i)
  }

  ghost predicate PointsAt(routers: seq<PwospfRouter>, prev: seq<int>, i: int)
    requires |prev| == |routers| && 0 <= i < |routers|
    reads routers
  {
    if prev[i] == -1 then routers[i].prev == null
    else 0 <= prev[i] < |routers| && routers[i].prev == routers[prev[i]]
  }

  /** The path computation on predecessors left by earlier ones. */
  method Recompute(ourId: RouterId, routers: seq<PwospfRouter>, ghost g: Graph, ghost was: seq<int>)
    returns (ghost l: Labels)
    requires RouterList(routers) && Describes(g, routers) && Points(routers, was) && Anchored(g.ids, ourId, was)
    modifies routers
    ensures Describes(g, routers) && Labelled(l, routers) && SearchResult(g, ourId, l)
    ensures forall v :: 0 <= v < |routers| ==> IsHopCount(g, ourId, v, routers[v].distance)
    ensures Inherits(g, ourId, was, l) && Points(routers, l.prev) && Anchored(g.ids, ourId, l.prev)
  {
    l := ComputeDistances(ourId, routers, g);
    forall v | 0 <= v < |routers|
      ensures PointsAt(routers, l.prev, v)
      ensures g.ids[v] == ourId || l.dist[v] == INFINITE ==> l.prev[v] == was[v]
    {
      assert Sound(g, ourId, l, v);
      if g.ids[v] == ourId || l.dist[v] == INFINITE {
        assert routers[v].prev == old(routers[v].prev);
        assert old(PointsAt(routers, was, v));
        if l.prev[v] != -1 && was[v] != -1 {
          SamePosition(routers, l.prev[v], was[v]);
        }
      } else {
        assert Follows(g, l, v);
      }
    }
    SearchKeepsAnchor(g, ourId, was, l);
  }

  lemma SamePosition(routers: seq<PwospfRouter>, i: int, j: int)
    requires RouterList(routers) && 0 <= i < |routers| && 0 <= j < |routers| && routers[i] == routers[j]
    ensures i == j
  {
  }
}
