/**
 The merge of an incoming link-state update into a router's interface list
 (populate_pwospf_router_interface_list in or_pwospf.c).
 */
module Advertisements {
  import opened PwospfTypes
  import opened Selection
  import Sweep

  /** One advertisement of a link-state update. */
  datatype Adv = Adv(sub: Addr, mask: Addr, rid: RouterId)

  function Masked(a: Adv): Adv {
    a.(sub := Net(a.sub, a.mask))
  }

  /** The advertisement an interface entry stands for. */
  function Key(i: Iface): Adv {
    Adv(i.subnet, i.mask, i.rid)
  }

  function Entry(a: Adv): Iface {
    Iface(a.sub, a.mask, a.rid, false)
  }

  /** What the list stores, as a set. */
  function Stored(list: seq<Iface>): set<Adv> {
    set i | i in list :: Key(i)
  }

  /** What a packet advertises once every subnet is masked. */
  function Advertised(advs: seq<Adv>): set<Adv> {
    set a | a in advs :: Masked(a)
  }

  predicate AllMasked(advs: seq<Adv>) {
    forall a :: a in advs ==> Masked(a) == a
  }

  function Fresh(advs: seq<Adv>): (list: seq<Iface>)
  {
    if advs == [] then [] else Fresh(advs[..|advs| - 1]) + [Entry(Masked(advs[|advs| - 1]))]
  }

  /**
   The first pass over a non-empty list. A new advertisement is recognised by its masked
   subnet but stored with the subnet as received: line 679 ands the subnet with itself.
   */
  function AddNew(list: seq<Iface>, advs: seq<Adv>): seq<Iface> {
    if advs == [] then list
    else
      var init := AddNew(list, advs[..|advs| - 1]);
      var a := advs[|advs| - 1];
      if Masked(a) in Stored(init) then init else init + [Entry(a)]
  }

  /** The second pass: entries the packet does not advertise are dropped. */
  function Prune(list: seq<Iface>, keep: set<Adv>): seq<Iface> {
    if list == [] then []
    else (if Key(list[0]) in keep then [list[0]] else []) + Prune(list[1..], keep)
  }

  function Merge(list: seq<Iface>, advs: seq<Adv>): seq<Iface> {
    if list == [] then Fresh(advs) else Prune(AddNew(list, advs), Advertised(advs))
  }

  lemma {:induction false} FreshStores(advs: seq<Adv>)
    ensures Stored(Fresh(advs)) == Advertised(advs)
  {
    if advs != [] {
      var n := |advs| - 1;
      FreshStores(advs[..n]);
      assert advs == advs[..n] + [advs[n]];
      StoredAppend(Fresh(advs[..n]), Entry(Masked(advs[n])));
      AdvertisedAppend(advs[..n], advs[n]);
    }
  }

  lemma StoredAppend(list: seq<Iface>, i: Iface)
    ensures Stored(list + [i]) == Stored(list) + {Key(i)}
  {
    assert forall x :: x in list + [i] <==> x in list || x == i;
  }

  lemma AdvertisedAppend(advs: seq<Adv>, a: Adv)
    ensures Advertised(advs + [a]) == Advertised(advs) + {Masked(a)}
  {
    assert forall x :: x in advs + [a] <==> x in advs || x == a;
  }

  lemma StoredConcat(a: seq<Iface>, b: seq<Iface>)
    ensures Stored(a + b) == Stored(a) + Stored(b)
  {
    assert forall x :: x in a + b <==> x in a || x in b;
  }

  lemma {:induction false} PruneStores(list: seq<Iface>, keep: set<Adv>)
    ensures Stored(Prune(list, keep)) == Stored(list) * keep
  {
    if list != [] {
      PruneStores(list[1..], keep);
      assert list == [list[0]] + list[1..];
      StoredConcat([list[0]], list[1..]);
      StoredConcat(if Key(list[0]) in keep then [list[0]] else [], Prune(list[1..], keep));
    }
  }

  /** What the first pass stores, between the entries it keeps and the raw subnets it adds. */
  lemma {:induction false} AddNewStores(list: seq<Iface>, advs: seq<Adv>)
    ensures Stored(list) <= Stored(AddNew(list, advs)) <= Stored(list) + (set a | a in advs)
    ensures forall a :: a in advs && Masked(a) == a ==> a in Stored(AddNew(list, advs))
  {
    if advs != [] {
      var n := |advs| - 1;
      var init, a := AddNew(list, advs[..n]), advs[n];
      AddNewStores(list, advs[..n]);
      StoredAppend(init, Entry(a));
      assert forall x :: x in advs <==> x in advs[..n] || x == a;
    }
  }

  /**
   The stored set after a merge, for every list and every packet: from a non-empty list an
   advertisement survives when it was stored already or arrived masked.
   */
  lemma MergeStores(list: seq<Iface>, advs: seq<Adv>)
    ensures Stored(Merge(list, advs)) ==
            if list == [] then Advertised(advs)
            else set a | a in Advertised(advs) && (a in Stored(list) || a in advs)
  {
    if list == [] {
      FreshStores(advs);
    } else {
      AddNewStores(list, advs);
      PruneStores(AddNew(list, advs), Advertised(advs));
      forall a | a in Advertised(advs) && a in advs ensures Masked(a) == a {
        var b :| b in advs && Masked(b) == a;
        NetTwice(b.sub, b.mask);
      }
    }
  }

  /**
   The merge is exact if and only if the list was empty, or every advertisement arrived
   masked or was stored already in its masked form.
   */
  lemma MergeExactIff(list: seq<Iface>, advs: seq<Adv>)
    ensures Stored(Merge(list, advs)) == Advertised(advs)
            <==> list == [] || forall a :: a in advs ==> Masked(a) in Stored(list) || Masked(a) in advs
  {
    MergeStores(list, advs);
    if Stored(Merge(list, advs)) == Advertised(advs) {
      forall a | a in advs ensures list == [] || Masked(a) in Stored(list) || Masked(a) in advs {
        assert Masked(a) in Advertised(advs);
      }
    }
  }

  /** Masked advertisements are merged exactly. */
  lemma MaskedMergeIsExact(list: seq<Iface>, advs: seq<Adv>)
    requires AllMasked(advs)
    ensures Stored(Merge(list, advs)) == Advertised(advs) == set a | a in advs
  {
    MergeExactIff(list, advs);
    assert forall a :: a in advs ==> Masked(a) == a;
    assert forall a :: a in advs ==> a in Advertised(advs);
  }

  /** An unmasked advertisement that reaches a non-empty list is lost: 0.0.0.1/31 after 0.0.0.4/30. */
  lemma UnmaskedAdvertisementIsLost()
    ensures var list, advs := [Iface(4, 0xFFFF_FFFC, 7, false)], [Adv(1, 0xFFFF_FFFE, 9)];
            Stored(Merge(list, advs)) != Advertised(advs)
  {
    var list, advs := [Iface(4, 0xFFFF_FFFC, 7, false)], [Adv(1, 0xFFFF_FFFE, 9)];
    MergeExactIff(list, advs);
    assert Masked(advs[0]).sub == 0;
    assert advs[0] in advs;
  }

  // ----- the list itself

  /** The entry made for an advertisement. */
  predicate Lists(i: Iface, a: Adv) {
    i.subnet == a.sub && i.mask == a.mask && i.rid == a.rid && !i.active
  }

  /** Into an empty list everything goes as it comes, masked. */
  lemma {:induction false} FreshIs(advs: seq<Adv>)
    ensures |Fresh(advs)| == |advs|
    ensures forall k :: 0 <= k < |advs| ==>
              Lists(Fresh(advs)[k], advs[k].(sub := Net(advs[k].sub, advs[k].mask)))
  {
    if advs != [] {
      FreshIs(advs[..|advs| - 1]);
    }
  }

  lemma {:induction false} PruneIsFilter(list: seq<Iface>, keep: set<Adv>)
    ensures Prune(list, keep) == Filter((i: Iface) => Key(i) in keep, list)
  {
    if list != [] {
      PruneIsFilter(list[1..], keep);
      FilterFirst((i: Iface) => Key(i) in keep, list);
    }
  }

  /** The advertisement is not stored, and this is the first time the packet has it. */
  ghost predicate IsNew(list: seq<Iface>, advs: seq<Adv>, k: int) {
    0 <= k < |advs| && advs[k] !in advs[..k] && forall i :: 0 <= i < |list| ==> Key(list[i]) != advs[k]
  }

  /** The added entries are those of the new advertisements, once each and in their order. */
  ghost predicate AddsNew(list: seq<Iface>, advs: seq<Adv>, more: seq<Iface>, from: seq<nat>) {
    && |more| == |from| && (forall a, b :: 0 <= a < b < |from| ==> from[a] < from[b])
    && (forall b :: 0 <= b < |from| ==> from[b] < |advs| && Lists(more[b], advs[from[b]]))
    && forall k :: 0 <= k < |advs| ==> (k in from <==> IsNew(list, advs, k))
  }

  lemma AddsNewNext(list: seq<Iface>, advs: seq<Adv>, a: Adv, more: seq<Iface>, from: seq<nat>)
    requires AddsNew(list, advs, more, from)
    ensures if IsNew(list, advs + [a], |advs|) then AddsNew(list, advs + [a], more + [Entry(a)], from + [|advs|])
            else AddsNew(list, advs + [a], more, from)
  {
    var all := advs + [a];
    forall k | 0 <= k < |advs| ensures IsNew(list, all, k) <==> IsNew(list, advs, k) {
      assert all[k] == advs[k] && all[..k] == advs[..k];
    }
    if IsNew(list, all, |advs|) {
      var from' := from + [|advs|];
      assert from'[|from|] == |advs|;
      forall k | 0 <= k < |all| ensures k in from' <==> IsNew(list, all, k) {
        assert k in from' <==> k in from || k == |advs|;
      }
    }
  }

  lemma {:induction false} AddNewAdds(list: seq<Iface>, advs: seq<Adv>) returns (more: seq<Iface>, from: seq<nat>)
    requires AllMasked(advs)
    ensures AddNew(list, advs) == list + more && AddsNew(list, advs, more, from)
  {
    more, from := [], [];
    if advs == [] {
      assert list + [] == list;
    } else {
      var n := |advs| - 1;
      var front, a := advs[..n], advs[n];
      assert front + [a] == advs;
      more, from := AddNewAdds(list, front);
      AddsNewNext(list, front, a, more, from);
      KnownIff(list, front, a);
      assert Masked(a) == a && advs[..n] == front;
      if IsNew(list, advs, n) {
        assert list + more + [Entry(a)] == list + (more + [Entry(a)]);
        more, from := more + [Entry(a)], from + [n];
      }
    }
  }

  lemma KnownIff(list: seq<Iface>, advs: seq<Adv>, a: Adv)
    requires AllMasked(advs)
    ensures a in Stored(AddNew(list, advs)) <==> a in advs || exists i :: 0 <= i < |list| && Key(list[i]) == a
  {
    AddNewStores(list, advs);
    if i :| 0 <= i < |list| && Key(list[i]) == a {
      assert list[i] in list;
    }
    if a in advs {
      assert Masked(a) == a;
    }
  }

  /**
   The list after the merge of masked advertisements: the entries that are advertised still, in
   their order, and then the new ones, once each and in theirs.
   */
  lemma MergeKeepsOrder(list: seq<Iface>, advs: seq<Adv>) returns (more: seq<Iface>, from: seq<nat>)
    requires list != [] && AllMasked(advs)
    ensures Merge(list, advs) == Filter((i: Iface) => Key(i) in advs, list) + more && AddsNew(list, advs, more, from)
  {
    more, from := AddNewAdds(list, advs);
    var keep := Advertised(advs);
    MaskedMergeIsExact(list, advs);
    PruneIsFilter(list + more, keep);
    FilterConcat((i: Iface) => Key(i) in keep, list, more);
    FilterAll((i: Iface) => Key(i) in keep, more) by {
      forall b | 0 <= b < |more| ensures Key(more[b]) in keep {
        assert Lists(more[b], advs[from[b]]) && advs[from[b]] in advs;
      }
    }
    FilterSame((i: Iface) => Key(i) in keep, (i: Iface) => Key(i) in advs, list);
  }

  // ----- the loops

  /** Some stored entry stands for the masked advertisement `a`. */
  method Matches(list: seq<Iface>, a: Adv) returns (found: bool)
    ensures found <==> Masked(a) in Stored(list)
  {
    for k := 0 to |list|
      invariant forall j :: 0 <= j < k ==> Key(list[j]) != Masked(a)
    {
      if list[k].subnet == Net(a.sub, a.mask) && list[k].mask == a.mask && list[k].rid == a.rid {
        assert list[k] in list;
        return true;
      }
    }
    return false;
  }

  method IsAdvertised(i: Iface, advs: seq<Adv>) returns (found: bool)
    ensures found <==> Key(i) in Advertised(advs)
  {
    for k := 0 to |advs|
      invariant forall j :: 0 <= j < k ==> Key(i) != Masked(advs[j])
    {
      if i.subnet == Net(advs[k].sub, advs[k].mask) && i.mask == advs[k].mask && i.rid == advs[k].rid {
        assert advs[k] in advs;
        return true;
      }
    }
    return false;
  }

  method AddAll(router: PwospfRouter, advs: seq<Adv>)
    requires router.interfaces == []
    modifies router`interfaces
    ensures router.interfaces == Fresh(advs)
  {
    for k := 0 to |advs|
      invariant router.interfaces == Fresh(advs[..k])
    {
      var a := advs[k];
      assert advs[..k + 1] == advs[..k] + [a];
      router.interfaces := router.interfaces + [Iface(Net(a.sub, a.mask), a.mask, a.rid, false)];
    }
    assert advs[..|advs|] == advs;
  }

  method AddMissing(router: PwospfRouter, advs: seq<Adv>) returns (added: bool)
    modifies router`interfaces
    ensures router.interfaces == AddNew(old(router.interfaces), advs)
    ensures added <==> !(Advertised(advs) <= Stored(old(router.interfaces)))
    ensures !added ==> router.interfaces == old(router.interfaces)
  {
    added := false;
    ghost var was := router.interfaces;
    for k := 0 to |advs|
      invariant router.interfaces == AddNew(was, advs[..k])
      invariant added <==> exists j :: 0 <= j < k && Masked(advs[j]) !in Stored(was)
      invariant !added ==> router.interfaces == was
    {
      var a := advs[k];
      assert advs[..k + 1][..k] == advs[..k];
      AddNewStores(was, advs[..k]);
      var known := Matches(router.interfaces, a);
      if !known {
        router.interfaces := router.interfaces + [Iface(a.sub, a.mask, a.rid, false)];
        added := true;
      }
    }
    assert advs[..|advs|] == advs;
    if added {
      ghost var j :| 0 <= j < |advs| && Masked(advs[j]) !in Stored(was);
      assert Masked(advs[j]) in Advertised(advs);
    }
  }

  method RemoveUnadvertised(router: PwospfRouter, advs: seq<Adv>) returns (removed: bool)
    modifies router`interfaces
    ensures router.interfaces == Prune(old(router.interfaces), Advertised(advs))
    ensures removed <==> !(Stored(old(router.interfaces)) <= Advertised(advs))
  {
    removed := false;
    ghost var was, keep := router.interfaces, Advertised(advs);
    ghost var result := Prune(was, keep);
    var k := 0;
    Sweep.Start(was, result);
    while k < |router.interfaces|
      invariant k <= |router.interfaces|
      invariant Sweep.Swept(router.interfaces, k, Prune(router.interfaces[k..], keep), result)
      invariant |router.interfaces| <= |was| && (removed <==> |router.interfaces| < |was|)
      decreases |router.interfaces| - k
    {
      ghost var rest := Prune(router.interfaces[k + 1..], keep);
      Sweep.Next(router.interfaces, k);
      var found := IsAdvertised(router.interfaces[k], advs);
      if found {
        Sweep.Keeps(router.interfaces, k, rest, result);
        k := k + 1;
      } else {
        Sweep.Removes(router.interfaces, k, rest, result);
        router.interfaces := router.interfaces[..k] + router.interfaces[k + 1..];
        removed := true;
      }
    }
    Sweep.End(router.interfaces, k, result);
    PruneShrinksIff(was, keep);
  }

  lemma {:induction false} PruneShrinksIff(list: seq<Iface>, keep: set<Adv>)
    ensures |Prune(list, keep)| <= |list|
    ensures |Prune(list, keep)| < |list| <==> !(Stored(list) <= keep)
  {
    if list != [] {
      PruneShrinksIff(list[1..], keep);
      assert list == [list[0]] + list[1..];
      StoredConcat([list[0]], list[1..]);
    }
  }

  /**
   Merges a packet into the router's list. The result says whether the set the packet
   advertises differs from the set stored before; from an empty list it is always true.
   */
  method PopulateInterfaceList(router: PwospfRouter, advs: seq<Adv>) returns (changed: bool)
    modifies router`interfaces
    ensures router.interfaces == Merge(old(router.interfaces), advs)
    ensures changed <==> old(router.interfaces) == [] || Stored(old(router.interfaces)) != Advertised(advs)
    ensures old(router.interfaces) != [] && AllMasked(advs) ==>
              (changed <==> Stored(router.interfaces) != Stored(old(router.interfaces)))
  {
    ghost var was := router.interfaces;
    if AllMasked(advs) {
      MaskedMergeIsExact(was, advs);
    }
    if router.interfaces == [] {
      AddAll(router, advs);
      changed := true;
    } else {
      var added := AddMissing(router, advs);
      var removed := RemoveUnadvertised(router, advs);
      changed := added || removed;
    }
  }
}
