/**
 The content table (or_ctable.c) and the packets that change it (or_cccp.c): which server,
 behind which interface, holds which version of a named content.
 */
module ContentTable {
  import opened PwospfTypes
  import opened RoutingTable
  import opened Selection

  const NUM_UPPORT: nat := 1
  const NUM_DNPORT: nat := 3
  const DIVIDE_LINE: nat := 20
  const MAX_DEPTH: nat := 32

  datatype CtEntry = CtEntry(content: Addr, ver: int, nexthop: Addr, iface: string)

  /** What a request asks for, and the port it came in by. */
  datatype Query = Query(name: Addr, ver: int, inport: nat)

  /** The four ports of the card. */
  predicate Eth(iface: string) {
    iface == "eth0" || iface == "eth1" || iface == "eth2" || iface == "eth3"
  }

  function IfaceOf(port: nat): string {
    if port == 1 then "eth0"
    else if port == 4 then "eth1"
    else if port == 16 then "eth2"
    else if port == 64 then "eth3"
    else ""
  }

  predicate SameKey(a: CtEntry, b: CtEntry) {
    a.content == b.content && a.iface == b.iface
  }

  /** One entry per content and interface, and every interface a port of the card. */
  ghost predicate Keyed(es: seq<CtEntry>) {
    && (forall i, j :: 0 <= i < j < |es| ==> !SameKey(es[i], es[j]))
    && forall i :: 0 <= i < |es| ==> Eth(es[i].iface)
  }

  /** The table never outgrows its 32 rows either. */
  ghost predicate Inv(es: seq<CtEntry>) {
    Keyed(es) && |es| <= MAX_DEPTH
  }

  // ----- lookup on values

  /** The entry answers the query, by another port than the query's. */
  predicate Answers(e: CtEntry, q: Query) {
    e.content == q.name && e.ver == q.ver && PortNumber(e.iface) != q.inport
  }

  predicate Down(e: CtEntry) {
    PortNumber(e.iface) < DIVIDE_LINE
  }

  /** A query removes older versions, and the version it asks for from the port it came by. */
  predicate Dropped(e: CtEntry, q: Query) {
    e.content == q.name && (q.ver > e.ver || (q.ver == e.ver && PortNumber(e.iface) == q.inport))
  }

  /** The answers on one side, in list order. */
  function Hits(es: seq<CtEntry>, q: Query, down: bool): seq<CtEntry> {
    if es == [] then []
    else
      var e := es[|es| - 1];
      Hits(es[..|es| - 1], q, down) + if Answers(e, q) && Down(e) == down then [e] else []
  }

  function Pruned(es: seq<CtEntry>, q: Query): seq<CtEntry> {
    if es == [] then []
    else
      var e := es[|es| - 1];
      Pruned(es[..|es| - 1], q) + if Dropped(e, q) then [] else [e]
  }

  lemma {:induction false} HitsAre(es: seq<CtEntry>, q: Query, down: bool, e: CtEntry)
    ensures e in Hits(es, q, down) <==> e in es && Answers(e, q) && Down(e) == down
  {
    if es != [] {
      var n := |es| - 1;
      HitsAre(es[..n], q, down, e);
      assert e in es <==> e in es[..n] || e == es[n];
    }
  }

  lemma {:induction false} PrunedAre(es: seq<CtEntry>, q: Query, e: CtEntry)
    ensures e in Pruned(es, q) <==> e in es && !Dropped(e, q)
  {
    if es != [] {
      var n := |es| - 1;
      PrunedAre(es[..n], q, e);
      assert e in es <==> e in es[..n] || e == es[n];
    }
  }

  /** Pruning keeps the keys unique. */
  lemma {:induction false} PrunedKeepsKeys(es: seq<CtEntry>, q: Query)
    requires Keyed(es)
    ensures Keyed(Pruned(es, q)) && |Pruned(es, q)| <= |es|
  {
    if es != [] {
      var n := |es| - 1;
      PrunedKeepsKeys(es[..n], q);
      KeyedSnoc(Pruned(es[..n], q), es[n]) by {
        forall e | e in Pruned(es[..n], q) ensures !SameKey(e, es[n]) {
          PrunedAre(es[..n], q, e);
          var i :| 0 <= i < n && es[..n][i] == e;
          assert !SameKey(es[i], es[n]);
        }
      }
    }
  }

  lemma KeyedSnoc(es: seq<CtEntry>, e: CtEntry)
    requires Keyed(es) && Eth(e.iface) && forall x :: x in es ==> !SameKey(x, e)
    ensures Keyed(es + [e])
  {
  }

  // ----- the bound

  /** Distinct elements of a set are no more than the set has. */
  lemma {:induction false} Pigeonhole(ps: seq<nat>, places: set<nat>)
    requires forall i :: 0 <= i < |ps| ==> ps[i] in places
    requires forall i, j :: 0 <= i < j < |ps| ==> ps[i] != ps[j]
    ensures |ps| <= |places|
  {
    if ps != [] {
      var n := |ps| - 1;
      Pigeonhole(ps[..n], places - {ps[n]});
    }
  }

  /** The ports of one side. */
  function Side(down: bool): set<nat> {
    if down then {1, 4, 16} else {64}
  }

  ghost predicate OtherPorts(hits: seq<CtEntry>) {
    forall i, j :: 0 <= i < j < |hits| ==> PortNumber(hits[i].iface) != PortNumber(hits[j].iface)
  }

  lemma {:induction false} HitsByDistinctPorts(es: seq<CtEntry>, q: Query, down: bool)
    requires Keyed(es)
    ensures OtherPorts(Hits(es, q, down))
  {
    if es != [] {
      var n := |es| - 1;
      HitsByDistinctPorts(es[..n], q, down);
      if Answers(es[n], q) {
        forall e | e in Hits(es[..n], q, down) ensures PortNumber(e.iface) != PortNumber(es[n].iface) {
          HitsAre(es[..n], q, down, e);
          var i :| 0 <= i < n && es[..n][i] == e;
          assert !SameKey(es[i], es[n]);
        }
      }
    }
  }

  /** No more than three answers lead down and one up; one less on the side of the query. */
  lemma HitsBounded(es: seq<CtEntry>, q: Query, down: bool)
    requires Keyed(es)
    ensures |Hits(es, q, down)| <= |Side(down) - {q.inport}| <= if down then NUM_DNPORT else NUM_UPPORT
  {
    var hits := Hits(es, q, down);
    var ports := seq(|hits|, i requires 0 <= i < |hits| => PortNumber(hits[i].iface));
    HitsByDistinctPorts(es, q, down);
    forall i | 0 <= i < |ports| ensures ports[i] in Side(down) - {q.inport} {
      HitsAre(es, q, down, hits[i]);
      assert Eth(hits[i].iface);
    }
    Pigeonhole(ports, Side(down) - {q.inport});
  }

  /** The answer that is taken: below if there is one, and of several by the content's name. */
  function Choice(es: seq<CtEntry>, q: Query): Option<CtEntry> {
    var downs, ups := Hits(es, q, true), Hits(es, q, false);
    if downs != [] then Some(downs[q.name % |downs|])
    else if ups != [] then Some(ups[q.name % |ups|])
    else None
  }

  /** The entry has the version asked for, by another port than the request's: below, or else above. */
  ghost function AskedBelow(q: Query, below: bool): CtEntry -> bool {
    (e: CtEntry) => e.content == q.name && e.ver == q.ver && PortNumber(e.iface) != q.inport
                    && (PortNumber(e.iface) < 20) == below
  }

  lemma {:induction false} HitsIs(es: seq<CtEntry>, q: Query, down: bool)
    ensures Hits(es, q, down) == Filter(AskedBelow(q, down), es)
  {
    if es != [] {
      var e := es[|es| - 1];
      HitsIs(es[..|es| - 1], q, down);
      assert AskedBelow(q, down)(e) <==> Answers(e, q) && Down(e) == down;
    }
  }

  /**
   The choice in full: of the entries below that have the version asked for, in list order, the
   one that the content's name modulo their number points at; above only if there is none.
   */
  lemma ChoiceIs(es: seq<CtEntry>, q: Query)
    ensures var below, above := Filter(AskedBelow(q, true), es), Filter(AskedBelow(q, false), es);
            Choice(es, q) == if |below| > 0 then Some(below[q.name % |below|])
                             else if |above| > 0 then Some(above[q.name % |above|]) else None
  {
    HitsIs(es, q, true);
    HitsIs(es, q, false);
  }

  /** A request keeps the other entries in their order. */
  lemma {:induction false} PrunedIs(es: seq<CtEntry>, q: Query)
    ensures Pruned(es, q) ==
            Filter((e: CtEntry) =>
                     e.content != q.name || e.ver > q.ver || (e.ver == q.ver && PortNumber(e.iface) != q.inport), es)
  {
    if es != [] {
      PrunedIs(es[..|es| - 1], q);
    }
  }

  // ----- deletion on values

  function WithoutKey(es: seq<CtEntry>, name: Addr, iface: string): seq<CtEntry> {
    if es == [] then []
    else
      var e := es[|es| - 1];
      WithoutKey(es[..|es| - 1], name, iface) + if e.content == name && e.iface == iface then [] else [e]
  }

  lemma {:induction false} WithoutKeyAre(es: seq<CtEntry>, name: Addr, iface: string, e: CtEntry)
    ensures e in WithoutKey(es, name, iface) <==> e in es && !(e.content == name && e.iface == iface)
  {
    if es != [] {
      var n := |es| - 1;
      WithoutKeyAre(es[..n], name, iface, e);
      assert e in es <==> e in es[..n] || e == es[n];
    }
  }

  lemma {:induction false} WithoutKeyKeepsKeys(es: seq<CtEntry>, name: Addr, iface: string)
    requires Keyed(es)
    ensures Keyed(WithoutKey(es, name, iface)) && |es| - 1 <= |WithoutKey(es, name, iface)| <= |es|
    ensures |WithoutKey(es, name, iface)| < |es| <==> exists e :: e in es && e.content == name && e.iface == iface
  {
    if es != [] {
      var n := |es| - 1;
      var e := es[n];
      WithoutKeyKeepsKeys(es[..n], name, iface);
      forall x | x in es[..n] ensures !SameKey(x, e) {
        var i :| 0 <= i < n && es[..n][i] == x;
        assert !SameKey(es[i], es[n]);
      }
      if !(e.content == name && e.iface == iface) {
        forall x | x in WithoutKey(es[..n], name, iface) ensures !SameKey(x, e) {
          WithoutKeyAre(es[..n], name, iface, x);
        }
        KeyedSnoc(WithoutKey(es[..n], name, iface), e);
      }
      assert forall x :: x in es <==> x in es[..n] || x == e;
    }
  }

  lemma {:induction false} WithoutKeyIs(es: seq<CtEntry>, name: Addr, iface: string)
    ensures WithoutKey(es, name, iface) == Filter((e: CtEntry) => e.content != name || e.iface != iface, es)
  {
    if es != [] {
      WithoutKeyIs(es[..|es| - 1], name, iface);
    }
  }

  // ----- addition on values

  predicate Holds(es: seq<CtEntry>, name: Addr, iface: string) {
    exists e :: e in es && e.content == name && e.iface == iface
  }

  /** The first entry with the key, or the length of the list. */
  function KeyAt(es: seq<CtEntry>, name: Addr, iface: string): (k: nat)
    ensures k <= |es| && (k < |es| ==> es[k].content == name && es[k].iface == iface)
    ensures k < |es| <==> Holds(es, name, iface)
  {
    if es == [] then 0
    else if es[0].content == name && es[0].iface == iface then assert es[0] in es; 0
    else
      assert forall e :: e in es <==> e == es[0] || e in es[1..];
      1 + KeyAt(es[1..], name, iface)
  }

  /** node_update. */
  function MovedToFront(es: seq<CtEntry>, k: nat): seq<CtEntry>
    requires k < |es|
  {
    [es[k]] + es[..k] + es[k + 1..]
  }

  /** node_insert_front: the last entry makes room, if there are two at least. */
  function InsertedFront(es: seq<CtEntry>, e: CtEntry): seq<CtEntry> {
    if |es| <= 1 then es else [e] + es[..|es| - 1]
  }

  /** The table after a content is announced. */
  function Added(es: seq<CtEntry>, e: CtEntry): seq<CtEntry> {
    var k := KeyAt(es, e.content, e.iface);
    if k < |es| then MovedToFront(es, k)
    else if |es| < MAX_DEPTH then [e] + es
    else if |es| == MAX_DEPTH then InsertedFront(es, e)
    else es
  }

  /** The entries behind the announced one keep their order. */
  lemma AddedKeepsOrder(es: seq<CtEntry>, e: CtEntry)
    requires Inv(es)
    ensures var after := Added(es, e);
            if Holds(es, e.content, e.iface)
            then exists k :: 0 <= k < |es| && SameKey(es[k], e) && after == [es[k]] + (es[..k] + es[k + 1..])
            else after == [e] + es[..if |es| < 32 then |es| else 31]
  {
    var k := KeyAt(es, e.content, e.iface);
    if k < |es| {
      assert MovedToFront(es, k) == [es[k]] + (es[..k] + es[k + 1..]);
    } else {
      assert es[..|es|] == es;
    }
  }

  /** A list drawn from one with unique keys has unique keys. */
  lemma SublistKeepsKeys(before: seq<CtEntry>, after: seq<CtEntry>)
    requires Keyed(before) && multiset(after) <= multiset(before)
    ensures Keyed(after)
  {
    forall i, j | 0 <= i < j < |after| ensures !SameKey(after[i], after[j]) {
      TwoPlaces(before, after, i, j);
    }
    forall i | 0 <= i < |after| ensures Eth(after[i].iface) {
      assert after[i] in multiset(after);
      assert after[i] in before;
    }
  }

  lemma TwoPlaces(before: seq<CtEntry>, after: seq<CtEntry>, i: nat, j: nat)
    requires Keyed(before) && multiset(after) <= multiset(before) && i < j < |after|
    ensures !SameKey(after[i], after[j])
  {
    var x, y := after[i], after[j];
    assert after == after[..i] + [x] + after[i + 1..j] + [y] + after[j + 1..];
    assert multiset{x, y} <= multiset(after);
    assert multiset{x, y} <= multiset(before);
    assert x in multiset{x, y} && y in multiset{x, y};
    assert x in before && y in before;
    var a :| 0 <= a < |before| && before[a] == x;
    var b :| 0 <= b < |before| && before[b] == y;
    assert x == y ==> multiset{x, y}[x] == 2 && multiset(before)[x] >= 2;
    OnlyOnce(before, a);
    assert a < b ==> !SameKey(before[a], before[b]);
    assert b < a ==> !SameKey(before[b], before[a]);
  }

  lemma OnlyOnce(es: seq<CtEntry>, a: nat)
    requires Keyed(es) && a < |es|
    ensures multiset(es)[es[a]] == 1
  {
    assert es == es[..a] + [es[a]] + es[a + 1..];
    assert forall i :: 0 <= i < a ==> !SameKey(es[i], es[a]);
    assert es[a] !in es[..a] && es[a] !in es[a + 1..];
  }

  /**
   An announcement puts its key first. A known entry moves there as it is, a new one pushes
   the others back, and from a full table exactly the last entry goes.
   */
  lemma AddedIs(es: seq<CtEntry>, e: CtEntry)
    requires Inv(es)
    ensures var after := Added(es, e);
            && after != [] && SameKey(after[0], e) && |after| <= MAX_DEPTH
            && multiset(after) ==
               if Holds(es, e.content, e.iface) then multiset(es)
               else if |es| < MAX_DEPTH then multiset(es) + multiset{e}
               else multiset(es) - multiset{es[|es| - 1]} + multiset{e}
  {
    var k := KeyAt(es, e.content, e.iface);
    if k < |es| {
      MovedKeepsEntries(es, k);
    } else if |es| == MAX_DEPTH {
      InsertedDropsLast(es, e);
    }
  }

  lemma MovedKeepsEntries(es: seq<CtEntry>, k: nat)
    requires k < |es|
    ensures multiset(MovedToFront(es, k)) == multiset(es) && |MovedToFront(es, k)| == |es|
  {
    assert es == es[..k] + [es[k]] + es[k + 1..];
  }

  lemma InsertedDropsLast(es: seq<CtEntry>, e: CtEntry)
    requires |es| > 1
    ensures multiset(InsertedFront(es, e)) == multiset(es) - multiset{es[|es| - 1]} + multiset{e}
    ensures |InsertedFront(es, e)| == |es|
  {
    assert es == es[..|es| - 1] + [es[|es| - 1]];
  }

  lemma OneOfKey(es: seq<CtEntry>, x: CtEntry, y: CtEntry)
    requires Keyed(es) && x in es && y in es && SameKey(x, y)
    ensures x == y
  {
    var i :| 0 <= i < |es| && es[i] == x;
    var j :| 0 <= j < |es| && es[j] == y;
    assert i == j;
  }

  lemma AddedKeepsInv(es: seq<CtEntry>, e: CtEntry)
    requires Inv(es) && Eth(e.iface)
    ensures Inv(Added(es, e))
  {
    AddedIs(es, e);
    if Holds(es, e.content, e.iface) {
      SublistKeepsKeys(es, Added(es, e));
    } else {
      assert Keyed([e] + es);
      SublistKeepsKeys([e] + es, Added(es, e));
    }
  }

  /** An announced version is in the table afterwards iff its key was new, or known with that version. */
  lemma AddStoresIff(es: seq<CtEntry>, e: CtEntry)
    requires Inv(es)
    ensures (exists x :: x in Added(es, e) && SameKey(x, e) && x.ver == e.ver) <==>
            !Holds(es, e.content, e.iface) || exists x :: x in es && SameKey(x, e) && x.ver == e.ver
  {
    AddedIs(es, e);
    if Holds(es, e.content, e.iface) {
      forall x ensures x in Added(es, e) <==> x in es {
        assert x in multiset(Added(es, e)) <==> x in multiset(es);
      }
    } else {
      assert e in multiset(Added(es, e));
      assert e in Added(es, e);
    }
  }

  /**
   So a newer version announced where an older one is known is lost: the next request for it
   is not answered from that interface, and takes the old version with it.
   */
  lemma NewerVersionIsLost(es: seq<CtEntry>, e: CtEntry, old_: CtEntry, q: Query)
    requires Inv(es) && old_ in es && SameKey(old_, e) && old_.ver < e.ver && q.name == e.content && q.ver == e.ver
    ensures forall x :: x in Added(es, e) && SameKey(x, e) ==> !Answers(x, q)
    ensures !Holds(Pruned(Added(es, e), q), e.content, e.iface)
  {
    AddedIs(es, e);
    forall x | x in Added(es, e) && SameKey(x, e) ensures x == old_ {
      assert x in multiset(Added(es, e));
      assert x in es;
      OneOfKey(es, x, old_);
    }
    forall x | x in Pruned(Added(es, e), q) ensures !(x.content == e.content && x.iface == e.iface) {
      PrunedAre(Added(es, e), q, x);
    }
  }

  // ----- the table

  class ContentTable {
    var ctable: seq<CtEntry>

    ghost predicate Valid()
      reads this
    {
      Inv(ctable)
    }

    constructor ()
      ensures Valid() && ctable == []
    {
      ctable := [];
    }

    /**
     Looks a content up. A hit is an entry for the requested version on another port, a down
     port if there is one; a miss means that there is no such entry.
     */
    method GetNexthopByContent(name: Addr, ver: int, iface: string) returns (hit: bool, nexthop: Addr, outIface: string)
      requires Valid() && PortNumber(iface) != 0
      modifies this
      ensures var q := Query(name, ver, PortNumber(iface));
              && Valid() && ctable == Pruned(old(ctable), q)
              && (hit ==> exists e :: e in ctable && Answers(e, q) && e.nexthop == nexthop && e.iface == outIface)
              && (hit && !(PortNumber(outIface) < DIVIDE_LINE) ==>
                    forall e :: e in ctable && Answers(e, q) ==> !Down(e))
              && (!hit ==> forall e :: e in old(ctable) ==> !Answers(e, q))
              && (if hit then Choice(old(ctable), q).Some? && Choice(old(ctable), q).value.nexthop == nexthop
                  else Choice(old(ctable), q).None?)
    {
      var q := Query(name, ver, PortNumber(iface));
      ghost var all := ctable;
      AllHitsFit(all, q);
      var downs, downCount, ups, upCount := Scan(q);
      PrunedKeepsKeys(all, q);
      HitsBounded(all, q, true);
      HitsBounded(all, q, false);
      hit, nexthop, outIface := false, 0, "";
      if 0 < downCount <= NUM_DNPORT {
        var e := downs[name % downCount];
        assert e in downs[..][..downCount];
        Answered(all, q, true, e);
        hit, nexthop, outIface := true, e.nexthop, IfaceOf(PortNumber(e.iface));
      } else if 0 < upCount <= NUM_UPPORT {
        var e := ups[name % upCount];
        assert e in ups[..][..upCount];
        Answered(all, q, false, e);
        NoneOnSide(all, q, true);
        hit, nexthop, outIface := true, e.nexthop, IfaceOf(PortNumber(e.iface));
      } else {
        NoneOnSide(all, q, true);
        NoneOnSide(all, q, false);
      }
    }

    /** The walk: prunes the list and fills the two fixed-size arrays, which never overflow. */
    method Scan(q: Query) returns (downs: array<CtEntry>, downCount: nat, ups: array<CtEntry>, upCount: nat)
      requires HitsFit(ctable, q)
      modifies this
      ensures ctable == Pruned(old(ctable), q)
      ensures fresh(downs) && fresh(ups) && Recorded(downs[..], downCount, ups[..], upCount, old(ctable), q)
    {
      var none := CtEntry(0, 0, 0, "");
      downs, ups := new CtEntry[NUM_DNPORT + 1](_ => none), new CtEntry[NUM_UPPORT + 1](_ => none);
      downCount, upCount := 0, 0;
      ghost var all, n := ctable, 0;
      var k := 0;
      assert all[..0] == [];
      while k < |ctable|
        invariant 0 <= k && Scanned(ctable, k, all, n, q)
        invariant fresh(downs) && fresh(ups) && downs.Length == NUM_DNPORT + 1 && ups.Length == NUM_UPPORT + 1
        invariant Recorded(downs[..], downCount, ups[..], upCount, all[..n], q)
        decreases |all| - n
      {
        k, downCount, upCount := ScanEntry(q, k, downs, downCount, ups, upCount, all, n);
        n := n + 1;
      }
      ScanEnd(ctable, k, all, n, q);
    }

    /** One turn of the walk. */
    method ScanEntry(q: Query, k: nat, downs: array<CtEntry>, downCount: nat, ups: array<CtEntry>, upCount: nat,
                     ghost all: seq<CtEntry>, ghost n: nat)
      returns (k': nat, downCount': nat, upCount': nat)
      requires Scanned(ctable, k, all, n, q) && k < |ctable| && HitsFit(all, q)
      requires downs.Length == NUM_DNPORT + 1 && ups.Length == NUM_UPPORT + 1 && downs != ups
      requires Recorded(downs[..], downCount, ups[..], upCount, all[..n], q)
      modifies this, downs, ups
      ensures n < |all| && Scanned(ctable, k', all, n + 1, q)
      ensures Recorded(downs[..], downCount', ups[..], upCount', all[..n + 1], q)
    {
      ScanNext(ctable, k, all, n, q);
      downCount', upCount' := Record(ctable[k], q, downs, downCount, ups, upCount, all, n);
      k' := PruneAt(q, k, all, n);
    }

    /** Removes an entry or passes over it. */
    method PruneAt(q: Query, k: nat, ghost all: seq<CtEntry>, ghost n: nat) returns (k': nat)
      requires Scanned(ctable, k, all, n, q) && k < |ctable|
      modifies this
      ensures Scanned(ctable, k', all, n + 1, q)
    {
      ScanNext(ctable, k, all, n, q);
      if Dropped(ctable[k], q) {
        ctable := ctable[..k] + ctable[k + 1..];
        k' := k;
      } else {
        k' := k + 1;
      }
    }

    /** Notes one entry. Its array has room, and afterwards neither count is over its bound. */
    static method Record(e: CtEntry, q: Query, downs: array<CtEntry>, downCount: nat, ups: array<CtEntry>, upCount: nat,
                         ghost all: seq<CtEntry>, ghost n: nat)
      returns (downCount': nat, upCount': nat)
      requires downs.Length == NUM_DNPORT + 1 && ups.Length == NUM_UPPORT + 1 && downs != ups
      requires n < |all| && e == all[n] && HitsFit(all, q)
      requires Recorded(downs[..], downCount, ups[..], upCount, all[..n], q)
      modifies downs, ups
      ensures Recorded(downs[..], downCount', ups[..], upCount', all[..n + 1], q)
      ensures downCount' <= NUM_DNPORT && upCount' <= NUM_UPPORT
    {
      HitsNext(all, n, q);
      downCount', upCount' := downCount, upCount;
      if Answers(e, q) {
        if Down(e) {
          assert Hits(all[..n + 1], q, true) == downs[..downCount] + [e];
          downs[downCount] := e;
          downCount' := downCount + 1;
          assert downs[..downCount'] == Hits(all[..n + 1], q, true);
        } else {
          assert Hits(all[..n + 1], q, false) == ups[..upCount] + [e];
          ups[upCount] := e;
          upCount' := upCount + 1;
          assert ups[..upCount'] == Hits(all[..n + 1], q, false);
        }
      }
    }

    /**
     Announces a content: 0 for a new entry, 1 for a known one, 2 for one that takes the place
     of the last in a full table. A longer table, answered with -1, does not occur.
     */
    method AddContent(e: CtEntry) returns (r: int)
      requires Valid() && Eth(e.iface)
      modifies this
      ensures Valid() && ctable == Added(old(ctable), e)
      ensures r == if Holds(old(ctable), e.content, e.iface) then 1 else if |old(ctable)| < MAX_DEPTH then 0 else 2
    {
      AddedKeepsInv(ctable, e);
      var k := FindKey(e.content, e.iface);
      if k < |ctable| {
        ctable := [ctable[k]] + ctable[..k] + ctable[k + 1..];
        r := 1;
      } else if |ctable| < MAX_DEPTH {
        ctable := [e] + ctable;
        r := 0;
      } else {
        ctable := [e] + ctable[..|ctable| - 1];
        r := 2;
      }
    }

    /** The first entry with the key. */
    method FindKey(name: Addr, iface: string) returns (k: nat)
      ensures k == KeyAt(ctable, name, iface)
    {
      k := 0;
      while k < |ctable| && !(ctable[k].content == name && ctable[k].iface == iface)
        invariant k <= |ctable| && KeyAt(ctable, name, iface) == k + KeyAt(ctable[k..], name, iface)
      {
        assert ctable[k..][1..] == ctable[k + 1..];
        k := k + 1;
      }
    }

    /** Removes a content from an interface: one entry if there is one. */
    method DelContent(name: Addr, iface: string) returns (removed: nat)
      requires Valid()
      modifies this
      ensures Valid() && ctable == WithoutKey(old(ctable), name, iface)
      ensures removed == if Holds(old(ctable), name, iface) then 1 else 0
    {
      WithoutKeyKeepsKeys(ctable, name, iface);
      removed := RemoveKey(name, iface);
    }

    /** The loop of `DelContent`. */
    method RemoveKey(name: Addr, iface: string) returns (removed: nat)
      modifies this
      ensures ctable == WithoutKey(old(ctable), name, iface) && removed == |old(ctable)| - |ctable|
    {
      removed := 0;
      ghost var all, n := ctable, 0;
      var k := 0;
      assert all[..0] == [];
      while k < |ctable|
        invariant Removed(ctable, k, all, n, name, iface) && removed == n - k
        decreases |all| - n
      {
        RemovedNext(ctable, k, all, n, name, iface);
        if ctable[k].content == name && ctable[k].iface == iface {
          ctable := ctable[..k] + ctable[k + 1..];
          removed := removed + 1;
        } else {
          k := k + 1;
        }
        n := n + 1;
      }
      RemovedEnd(ctable, k, all, n, name, iface);
    }

    /**
     A CCCP packet: requests look up and prune, replies and finishes that do not come from
     the up port announce, rejects delete. All but requests need a route to their destination.
     */
    method ProcessCccpPacket(p: CccpPacket, routable: bool) returns (dst: Addr)
      requires Valid() && Eth(p.iface)
      modifies this
      ensures Valid() && ctable == Handled(old(ctable), p, routable)
      ensures if p.kind.Request? && Choice(old(ctable), p.Asked()).Some?
              then dst == Choice(old(ctable), p.Asked()).value.nexthop else dst == p.dst
    {
      dst := p.dst;
      match p.kind {
        case Request =>
          var hit, nexthop, outIface := GetNexthopByContent(p.name, p.ver, p.iface);
          if hit {
            dst := nexthop;
          }
        case Reply | Finish =>
          if routable && !("eth3" <= p.iface) {
            var r := AddContent(CtEntry(p.name, p.ver, p.src, p.iface));
          }
        case Reject =>
          if routable {
            var r := DelContent(p.name, p.iface);
          }
        case Other =>
      }
    }
  }

  // ----- packets and runs

  datatype Kind = Request | Reply | Finish | Reject | Other

  datatype CccpPacket = CccpPacket(kind: Kind, name: Addr, ver: int, src: Addr, dst: Addr, iface: string) {
    /** The server that sent the packet, as the table will know it. */
    function Announced(): CtEntry {
      CtEntry(name, ver, src, iface)
    }

    function Asked(): Query {
      Query(name, ver, PortNumber(iface))
    }
  }

  /** What a packet makes of the table. */
  function Handled(es: seq<CtEntry>, p: CccpPacket, routable: bool): seq<CtEntry> {
    match p.kind
    case Request => Pruned(es, p.Asked())
    case Reply | Finish => if routable && p.iface != "eth3" then Added(es, p.Announced()) else es
    case Reject => if routable then WithoutKey(es, p.name, p.iface) else es
    case Other => es
  }

  /** A line of the file that is read at the start, or a packet. */
  datatype Event = Load(entry: CtEntry) | Arrive(packet: CccpPacket, routable: bool)

  function Step(es: seq<CtEntry>, e: Event): seq<CtEntry> {
    match e
    case Load(x) => Added(es, x)
    case Arrive(p, routable) => Handled(es, p, routable)
  }

  /** The table after the events, from an empty one. */
  function Run(events: seq<Event>): seq<CtEntry> {
    if events == [] then [] else Step(Run(events[..|events| - 1]), events[|events| - 1])
  }

  ghost predicate OnCard(e: Event) {
    Eth(if e.Load? then e.entry.iface else e.packet.iface)
  }

  lemma StepKeepsInv(es: seq<CtEntry>, e: Event)
    requires Inv(es) && OnCard(e)
    ensures Inv(Step(es, e))
  {
    match e
    case Load(x) => AddedKeepsInv(es, x);
    case Arrive(p, _) =>
      PrunedKeepsKeys(es, p.Asked());
      AddedKeepsInv(es, p.Announced());
      WithoutKeyKeepsKeys(es, p.name, p.iface);
  }

  /**
   Over any run the keys stay unique, the table has at most 32 entries, and a request has at
   most three answers below and one above.
   */
  lemma {:induction false} RunKeepsInv(events: seq<Event>, q: Query)
    requires forall i :: 0 <= i < |events| ==> OnCard(events[i])
    ensures Inv(Run(events))
    ensures |Hits(Run(events), q, true)| <= NUM_DNPORT && |Hits(Run(events), q, false)| <= NUM_UPPORT
  {
    if events != [] {
      var n := |events| - 1;
      RunKeepsInv(events[..n], q);
      StepKeepsInv(Run(events[..n]), events[n]);
    }
    HitsBounded(Run(events), q, true);
    HitsBounded(Run(events), q, false);
  }

  /** Packets announce nothing above: every up entry was loaded at the start. */
  lemma {:induction false} RunAddsNoUpEntry(events: seq<Event>, e: CtEntry)
    requires forall i :: 0 <= i < |events| ==> OnCard(events[i])
    requires e in Run(events) && !Down(e)
    ensures exists i :: 0 <= i < |events| && events[i] == Load(e)
  {
    var n := |events| - 1;
    RunKeepsInv(events[..n], Query(0, 0, 0));
    if events[n] != Load(e) {
      StepAddsNoUpEntry(Run(events[..n]), events[n], e);
      RunAddsNoUpEntry(events[..n], e);
    }
  }

  lemma StepAddsNoUpEntry(es: seq<CtEntry>, ev: Event, e: CtEntry)
    requires Inv(es) && OnCard(ev) && ev != Load(e) && e in Step(es, ev) && !Down(e)
    ensures e in es
  {
    match ev
    case Load(x) => AddedFrom(es, x, e);
    case Arrive(p, _) =>
      PrunedAre(es, p.Asked(), e);
      WithoutKeyAre(es, p.name, p.iface, e);
      if p.iface != "eth3" && e in Added(es, p.Announced()) {
        AddedFrom(es, p.Announced(), e);
      }
  }

  lemma AddedFrom(es: seq<CtEntry>, x: CtEntry, e: CtEntry)
    requires Inv(es) && e in Added(es, x)
    ensures e in es || e == x
  {
    AddedIs(es, x);
    assert e in multiset(Added(es, x));
    assert e in multiset(es) || e == x;
  }

  /**
   What each packet makes of the table: a request prunes it; a reply or a finish that can be
   routed, but for those from above, announces the server that sent it; a reject that can be
   routed deletes; nothing else changes anything.
   */
  lemma HandledIs(es: seq<CtEntry>, p: CccpPacket, routable: bool)
    ensures var after, key := Handled(es, p, routable), CtEntry(p.name, p.ver, p.src, p.iface);
            match p.kind
            case Request => after == Pruned(es, Query(p.name, p.ver, PortNumber(p.iface)))
            case Reply => after == if routable && p.iface != "eth3" then Added(es, key) else es
            case Finish => after == if routable && p.iface != "eth3" then Added(es, key) else es
            case Reject =>
              after == if routable then Filter((e: CtEntry) => e.content != p.name || e.iface != p.iface, es) else es
            case Other => after == es
  {
    WithoutKeyIs(es, p.name, p.iface);
  }

  /**
   A server that announces a content we did not know from its side answers the next request for
   that version from another port; the request goes to it unless another server answers too.
   */
  lemma AnnouncedIsAnswered(es: seq<CtEntry>, p: CccpPacket, r: CccpPacket)
    requires Inv(es) && p.kind.Reply? && Eth(p.iface) && p.iface != "eth3" && !Holds(es, p.name, p.iface)
    requires r.kind.Request? && r.name == p.name && r.ver == p.ver && Eth(r.iface) && r.iface != p.iface
    ensures var choice := Choice(Handled(es, p, true), r.Asked());
            && choice.Some? && choice.value.content == p.name && choice.value.ver == p.ver
            && choice.value.iface != r.iface
            && ((forall e :: e in es && e.content == p.name && e.ver == p.ver ==> e.iface == r.iface) ==>
                  choice.value.nexthop == p.src)
  {
    var e, after, q := CtEntry(p.name, p.ver, p.src, p.iface), Handled(es, p, true), r.Asked();
    AddedKeepsOrder(es, e);
    assert e in after && Answers(e, q) && Down(e);
    HitsAre(after, q, true, e);
    var downs := Hits(after, q, true);
    var x := downs[q.name % |downs|];
    HitsAre(after, q, true, x);
    assert x == e || x in es;
  }

  /** A request removes exactly the older versions of its content, and the requested one on its own port. */
  lemma RequestPrunesExactly(es: seq<CtEntry>, p: CccpPacket, routable: bool, e: CtEntry)
    requires p.kind.Request?
    ensures e in Handled(es, p, routable) <==>
            && e in es
            && !(e.content == p.name
                 && (e.ver < p.ver || (e.ver == p.ver && PortNumber(e.iface) == PortNumber(p.iface))))
  {
    PrunedAre(es, p.Asked(), e);
  }

  // ----- steps of the walk

  ghost predicate Scanned(list: seq<CtEntry>, k: nat, all: seq<CtEntry>, n: nat, q: Query) {
    n <= |all| && k == |Pruned(all[..n], q)| && list == Pruned(all[..n], q) + all[n..]
  }

  lemma ScanNext(list: seq<CtEntry>, k: nat, all: seq<CtEntry>, n: nat, q: Query)
    requires Scanned(list, k, all, n, q) && k < |list|
    ensures n < |all| && list[k] == all[n]
    ensures if Dropped(all[n], q) then Scanned(list[..k] + list[k + 1..], k, all, n + 1, q)
            else Scanned(list, k + 1, all, n + 1, q)
  {
    assert all[..n + 1][..n] == all[..n];
  }

  lemma ScanEnd(list: seq<CtEntry>, k: nat, all: seq<CtEntry>, n: nat, q: Query)
    requires Scanned(list, k, all, n, q) && k >= |list|
    ensures all[..n] == all && list == Pruned(all, q)
  {
    assert |list| == k + (|all| - n);
    assert all[..n] == all;
  }

  ghost predicate Removed(list: seq<CtEntry>, k: nat, all: seq<CtEntry>, n: nat, name: Addr, iface: string) {
    n <= |all| && k == |WithoutKey(all[..n], name, iface)| && list == WithoutKey(all[..n], name, iface) + all[n..]
  }

  lemma RemovedNext(list: seq<CtEntry>, k: nat, all: seq<CtEntry>, n: nat, name: Addr, iface: string)
    requires Removed(list, k, all, n, name, iface) && k < |list|
    ensures n < |all| && list[k] == all[n]
    ensures if all[n].content == name && all[n].iface == iface
            then Removed(list[..k] + list[k + 1..], k, all, n + 1, name, iface)
            else Removed(list, k + 1, all, n + 1, name, iface)
  {
    assert all[..n + 1][..n] == all[..n];
  }

  lemma RemovedEnd(list: seq<CtEntry>, k: nat, all: seq<CtEntry>, n: nat, name: Addr, iface: string)
    requires Removed(list, k, all, n, name, iface) && k >= |list|
    ensures n == |all| && k == |list| && list == WithoutKey(all, name, iface)
  {
    assert |list| == k + (|all| - n);
    assert all[..n] == all;
  }

  /** Of every part of the list, the answers fit their bounds. */
  ghost predicate HitsFit(all: seq<CtEntry>, q: Query) {
    forall n :: 0 <= n <= |all| ==> |Hits(all[..n], q, true)| <= NUM_DNPORT && |Hits(all[..n], q, false)| <= NUM_UPPORT
  }

  lemma AllHitsFit(all: seq<CtEntry>, q: Query)
    requires Keyed(all)
    ensures HitsFit(all, q)
  {
    forall n | 0 <= n <= |all|
      ensures |Hits(all[..n], q, true)| <= NUM_DNPORT && |Hits(all[..n], q, false)| <= NUM_UPPORT
    {
      HitsBounded(all[..n], q, true);
      HitsBounded(all[..n], q, false);
    }
  }

  /** The arrays hold the answers found so far. */
  ghost predicate Recorded(downs: seq<CtEntry>, downCount: nat, ups: seq<CtEntry>, upCount: nat, seen: seq<CtEntry>,
                           q: Query) {
    && downCount <= |downs| && downs[..downCount] == Hits(seen, q, true)
    && upCount <= |ups| && ups[..upCount] == Hits(seen, q, false)
  }

  lemma HitsNext(all: seq<CtEntry>, n: nat, q: Query)
    requires n < |all| && HitsFit(all, q)
    ensures Hits(all[..n + 1], q, true) ==
            Hits(all[..n], q, true) + if Answers(all[n], q) && Down(all[n]) then [all[n]] else []
    ensures Hits(all[..n + 1], q, false) ==
            Hits(all[..n], q, false) + if Answers(all[n], q) && !Down(all[n]) then [all[n]] else []
    ensures |Hits(all[..n + 1], q, true)| <= NUM_DNPORT && |Hits(all[..n + 1], q, false)| <= NUM_UPPORT
  {
    assert all[..n + 1][..n] == all[..n];
  }

  /** A hit is an answer that the walk has left in the table. */
  lemma Answered(all: seq<CtEntry>, q: Query, down: bool, e: CtEntry)
    requires Keyed(all) && e in Hits(all, q, down)
    ensures e in Pruned(all, q) && Answers(e, q) && Down(e) == down && IfaceOf(PortNumber(e.iface)) == e.iface
  {
    HitsAre(all, q, down, e);
    PrunedAre(all, q, e);
  }

  lemma NoneOnSide(all: seq<CtEntry>, q: Query, down: bool)
    requires Hits(all, q, down) == []
    ensures forall e :: e in all && Answers(e, q) ==> Down(e) != down
    ensures forall e :: e in Pruned(all, q) && Answers(e, q) ==> Down(e) != down
  {
    forall e | Answers(e, q) ensures e in all ==> Down(e) != down {
      HitsAre(all, q, down, e);
    }
    forall e | Answers(e, q) ensures e in Pruned(all, q) ==> Down(e) != down {
      PrunedAre(all, q, e);
      HitsAre(all, q, down, e);
    }
  }
}
