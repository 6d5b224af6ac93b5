/**
 The ARP cache and its hardware copy (or_arp.c): a list with one entry per address, and 32
 rows that hold the static entries first.
 */
module ArpCache {
  import opened PwospfTypes
  import opened Sweep
  import opened Selection

  type Byte = x: int | 0 <= x < 0x100

  datatype Mac = Mac(b0: Byte, b1: Byte, b2: Byte, b3: Byte, b4: Byte, b5: Byte)

  /** `since` is zero for a static entry. */
  datatype ArpEntry = ArpEntry(ip: Addr, mac: Mac, isStatic: bool, since: int)

  datatype HwRow = HwRow(macHi: int, macLo: int, ip: Addr)

  const DEPTH: nat := 32
  const ZERO_ROW := HwRow(0, 0, 0)

  // ----- rows

  /** The two registers that take the bytes of an address. */
  function RowOf(e: ArpEntry): HwRow {
    HwRow(e.mac.b0 * 0x100 + e.mac.b1,
          e.mac.b2 * 0x100_0000 + e.mac.b3 * 0x1_0000 + e.mac.b4 * 0x100 + e.mac.b5,
          e.ip)
  }

  /** The address the hardware puts on the wire. */
  function MacOf(w: HwRow): Mac {
    Mac(w.macHi / 0x100 % 0x100, w.macHi % 0x100,
        w.macLo / 0x100_0000 % 0x100, w.macLo / 0x1_0000 % 0x100, w.macLo / 0x100 % 0x100, w.macLo % 0x100)
  }

  /** The two registers together are the address, first byte first, as a number of 48 bits. */
  lemma RegistersAre(e: ArpEntry)
    ensures var w, m := RowOf(e), e.mac;
            && w.ip == e.ip && 0 <= w.macLo < 0x1_0000_0000
            && w.macHi * 0x1_0000_0000 + w.macLo ==
               ((((m.b0 * 0x100 + m.b1) * 0x100 + m.b2) * 0x100 + m.b3) * 0x100 + m.b4) * 0x100 + m.b5
  {
  }

  lemma MacSurvives(e: ArpEntry)
    ensures MacOf(RowOf(e)) == e.mac
  {
    var lo := RowOf(e).macLo;
    assert lo / 0x100 == e.mac.b2 * 0x1_0000 + e.mac.b3 * 0x100 + e.mac.b4;
    assert lo / 0x1_0000 == e.mac.b2 * 0x100 + e.mac.b3;
    assert lo / 0x100_0000 == e.mac.b2;
  }

  /** The entries of one kind, in list order. */
  function OfKind(es: seq<ArpEntry>, isStatic: bool): seq<ArpEntry> {
    if es == [] then [] else (if es[0].isStatic == isStatic then [es[0]] else []) + OfKind(es[1..], isStatic)
  }

  /** Static entries, then dynamic ones. */
  function Ranked(es: seq<ArpEntry>): seq<ArpEntry> {
    OfKind(es, true) + OfKind(es, false)
  }

  function RowAt(ranked: seq<ArpEntry>, i: nat): HwRow {
    if i < |ranked| then RowOf(ranked[i]) else ZERO_ROW
  }

  /** What the hardware is to hold: the first 32 of the ranked entries, then zeros. */
  function Image(es: seq<ArpEntry>): (rows: seq<HwRow>)
    ensures |rows| == DEPTH
  {
    seq(DEPTH, i requires 0 <= i => RowAt(Ranked(es), i))
  }

  /** The lowest row with the address. */
  function HwFind(rows: seq<HwRow>, ip: Addr): Option<HwRow> {
    if rows == [] then None else if rows[0].ip == ip then Some(rows[0]) else HwFind(rows[1..], ip)
  }

  ghost predicate Distinct(es: seq<ArpEntry>) {
    forall i, j :: 0 <= i < j < |es| ==> es[i].ip != es[j].ip
  }

  // ----- the mirror

  lemma {:induction false} OfKindHas(es: seq<ArpEntry>, isStatic: bool, e: ArpEntry)
    ensures e in OfKind(es, isStatic) <==> e in es && e.isStatic == isStatic
  {
    if es != [] {
      OfKindHas(es[1..], isStatic, e);
      assert e in es <==> e == es[0] || e in es[1..];
    }
  }

  lemma {:induction false} OfKindIs(es: seq<ArpEntry>, isStatic: bool)
    ensures OfKind(es, isStatic) == Filter((e: ArpEntry) => e.isStatic == isStatic, es)
  {
    if es != [] {
      OfKindIs(es[1..], isStatic);
      FilterFirst((e: ArpEntry) => e.isStatic == isStatic, es);
    }
  }

  /** The rows in full: 32 of them, the static entries in list order, then the dynamic ones, then zeros. */
  lemma ImageIs(es: seq<ArpEntry>, i: nat)
    requires i < 32
    ensures var ranked := Filter((e: ArpEntry) => e.isStatic == true, es)
                          + Filter((e: ArpEntry) => e.isStatic == false, es);
            && |Image(es)| == 32
            && if i < |ranked| then Image(es)[i].ip == ranked[i].ip && MacOf(Image(es)[i]) == ranked[i].mac
               else Image(es)[i] == HwRow(0, 0, 0)
  {
    OfKindIs(es, true);
    OfKindIs(es, false);
    if i < |Ranked(es)| {
      MacSurvives(Ranked(es)[i]);
    }
  }

  lemma {:induction false} KindsCount(es: seq<ArpEntry>)
    ensures |OfKind(es, true)| + |OfKind(es, false)| == |es|
  {
    if es != [] {
      KindsCount(es[1..]);
    }
  }

  lemma {:induction false} Finds(rows: seq<HwRow>, ip: Addr) returns (k: nat)
    ensures k <= |rows| && forall j :: 0 <= j < k ==> rows[j].ip != ip
    ensures HwFind(rows, ip) == if k < |rows| then Some(rows[k]) else None
    ensures k < |rows| ==> rows[k].ip == ip
  {
    if rows == [] || rows[0].ip == ip {
      k := 0;
    } else {
      k := Finds(rows[1..], ip);
      k := k + 1;
    }
  }

  /** Any hit in the hardware on a nonzero address yields the MAC the cache has for it. */
  lemma HitIsCached(es: seq<ArpEntry>, ip: Addr, e: ArpEntry)
    requires Distinct(es) && ip != 0 && e in es && e.ip == ip
    ensures HwFind(Image(es), ip).Some? ==> MacOf(HwFind(Image(es), ip).value) == e.mac
  {
    var k := Finds(Image(es), ip);
    if k < DEPTH {
      var x := Ranked(es)[k];
      HitIsEntry(es, k, ip);
      assert x == e;
      MacSurvives(e);
    }
  }

  lemma HitIsEntry(es: seq<ArpEntry>, k: nat, ip: Addr)
    requires k < DEPTH && Image(es)[k].ip == ip && ip != 0
    ensures k < |Ranked(es)| && Ranked(es)[k] in es && Ranked(es)[k].ip == ip
  {
    var x := Ranked(es)[k];
    OfKindHas(es, true, x);
    OfKindHas(es, false, x);
  }

  /** The hardware knows no address the cache does not, and every one of the first 32 in rank. */
  lemma HitIff(es: seq<ArpEntry>, ip: Addr)
    requires ip != 0
    ensures HwFind(Image(es), ip).Some? <==> exists k :: 0 <= k < DEPTH && k < |Ranked(es)| && Ranked(es)[k].ip == ip
  {
    var k := Finds(Image(es), ip);
    if k < DEPTH {
      HitIsEntry(es, k, ip);
    }
    if j: nat :| j < DEPTH && j < |Ranked(es)| && Ranked(es)[j].ip == ip {
      assert Image(es)[j].ip == ip;
    }
  }

  /** With no more than 32 entries the hardware misses none; with no more than 32 static ones, no static one. */
  lemma NoneMissed(es: seq<ArpEntry>, e: ArpEntry)
    requires Distinct(es) && e in es && e.ip != 0
    requires |es| <= DEPTH || (e.isStatic && |OfKind(es, true)| <= DEPTH)
    ensures HwFind(Image(es), e.ip).Some? && MacOf(HwFind(Image(es), e.ip).value) == e.mac
  {
    OfKindHas(es, e.isStatic, e);
    KindsCount(es);
    var j :| 0 <= j < |OfKind(es, e.isStatic)| && OfKind(es, e.isStatic)[j] == e;
    var k := if e.isStatic then j else |OfKind(es, true)| + j;
    assert Ranked(es)[k].ip == e.ip;
    HitIff(es, e.ip);
    HitIsCached(es, e.ip, e);
  }

  /** The padding answers for address zero exactly when there is any; the cache has no entry for it. */
  lemma ZeroAddressHitsIff(es: seq<ArpEntry>)
    requires forall i :: 0 <= i < |es| ==> es[i].ip != 0
    ensures HwFind(Image(es), 0) == if |es| < DEPTH then Some(ZERO_ROW) else None
  {
    var ranked := Ranked(es);
    KindsCount(es);
    forall k | 0 <= k < |ranked| ensures ranked[k].ip != 0 {
      OfKindHas(es, true, ranked[k]);
      OfKindHas(es, false, ranked[k]);
    }
    var k := Finds(Image(es), 0);
    if |es| < DEPTH {
      assert Image(es)[|es|] == ZERO_ROW;
    }
  }

  // ----- operations on values

  /** The entries that have not outlived their time. */
  function Unexpired(es: seq<ArpEntry>, now: int, ttl: int): seq<ArpEntry> {
    if es == [] then []
    else (if !es[0].isStatic && now - es[0].since > ttl then [] else [es[0]]) + Unexpired(es[1..], now, ttl)
  }

  function WithoutIp(es: seq<ArpEntry>, ip: Addr): seq<ArpEntry> {
    if es == [] then [] else (if es[0].ip == ip then [] else [es[0]]) + WithoutIp(es[1..], ip)
  }

  /** A static entry stays; any other stays exactly as long as it is no older than the time it has. */
  lemma {:induction false} UnexpiredIs(es: seq<ArpEntry>, now: int, ttl: int)
    ensures Unexpired(es, now, ttl) == Filter((e: ArpEntry) => e.isStatic || now <= e.since + ttl, es)
  {
    if es != [] {
      UnexpiredIs(es[1..], now, ttl);
      FilterFirst((e: ArpEntry) => e.isStatic || now <= e.since + ttl, es);
    }
  }

  lemma {:induction false} WithoutIpIs(es: seq<ArpEntry>, ip: Addr)
    ensures WithoutIp(es, ip) == Filter((e: ArpEntry) => e.ip != ip, es)
  {
    if es != [] {
      WithoutIpIs(es[1..], ip);
      FilterFirst((e: ArpEntry) => e.ip != ip, es);
    }
  }

  lemma {:induction false} UnexpiredDistinct(es: seq<ArpEntry>, now: int, ttl: int)
    requires Distinct(es)
    ensures Distinct(Unexpired(es, now, ttl)) && forall e :: e in Unexpired(es, now, ttl) ==> e in es
  {
    if es != [] {
      UnexpiredDistinct(es[1..], now, ttl);
      assert forall e :: e in es[1..] ==> e.ip != es[0].ip;
    }
  }

  lemma {:induction false} WithoutIpDistinct(es: seq<ArpEntry>, ip: Addr)
    requires Distinct(es)
    ensures Distinct(WithoutIp(es, ip)) && forall e :: e in WithoutIp(es, ip) ==> e in es && e.ip != ip
    ensures |es| - 1 <= |WithoutIp(es, ip)| <= |es|
  {
    if es != [] {
      WithoutIpDistinct(es[1..], ip);
      if es[0].ip == ip {
        WithoutAbsent(es[1..], ip);
      }
    }
  }

  lemma {:induction false} WithoutAbsent(es: seq<ArpEntry>, ip: Addr)
    requires forall e :: e in es ==> e.ip != ip
    ensures WithoutIp(es, ip) == es
  {
    if es != [] {
      WithoutAbsent(es[1..], ip);
    }
  }

  /** An update finds its entry and overwrites it, or appends one. */
  ghost predicate Updated(before: seq<ArpEntry>, after: seq<ArpEntry>, e: ArpEntry) {
    || (exists k :: 0 <= k < |before| && before[k].ip == e.ip && after == before[k := e])
    || ((forall k :: 0 <= k < |before| ==> before[k].ip != e.ip) && after == before + [e])
  }

  // ----- the cache

  class Cache {
    var entries: seq<ArpEntry>
    const hw: array<HwRow>
    const ttl: int

    /** One entry per address. */
    ghost predicate Valid()
      reads this
    {
      hw.Length == DEPTH && Distinct(entries)
    }

    /** The hardware holds the image of the list. */
    ghost predicate Mirrored()
      reads this, hw
    {
      hw[..] == Image(entries)
    }

    constructor (ttl: int)
      ensures Valid() && Mirrored() && entries == [] && this.ttl == ttl && fresh(hw)
    {
      this.ttl := ttl;
      entries := [];
      hw := new HwRow[DEPTH](_ => ZERO_ROW);
      new;
      assert hw[..] == Image([]);
    }

    method InArpCache(ip: Addr) returns (k: nat)
      ensures k <= |entries| && (k < |entries| ==> entries[k].ip == ip)
      ensures forall j :: 0 <= j < k ==> entries[j].ip != ip
    {
      k := 0;
      while k < |entries| && entries[k].ip != ip
        invariant k <= |entries| && forall j :: 0 <= j < k ==> entries[j].ip != ip
      {
        k := k + 1;
      }
    }

    method UpdateArpCache(ip: Addr, mac: Mac, isStatic: bool, now: int)
      requires Valid()
      modifies this`entries, hw
      ensures Valid() && Mirrored()
      ensures Updated(old(entries), entries, ArpEntry(ip, mac, isStatic, if isStatic then 0 else now))
    {
      var e := ArpEntry(ip, mac, isStatic, if isStatic then 0 else now);
      var k := InArpCache(ip);
      entries := if k < |entries| then entries[k := e] else entries + [e];
      WriteArpCacheToHw();
    }

    /** Removes the address; the hardware is left as it is. */
    method DelArpCache(ip: Addr) returns (deleted: nat)
      requires Valid()
      modifies this`entries
      ensures Valid() && entries == WithoutIp(old(entries), ip) && deleted == |old(entries)| - |entries| <= 1
    {
      WithoutIpDistinct(entries, ip);
      deleted := RemoveIp(ip);
    }

    method RemoveIp(ip: Addr) returns (deleted: nat)
      modifies this`entries
      ensures entries == WithoutIp(old(entries), ip) && deleted == |old(entries)| - |entries|
    {
      deleted := 0;
      ghost var result := WithoutIp(entries, ip);
      var k := 0;
      Start(entries, result);
      while k < |entries|
        invariant k <= |entries| && Swept(entries, k, WithoutIp(entries[k..], ip), result)
        invariant deleted == |old(entries)| - |entries|
        decreases |entries| - k
      {
        ghost var rest := WithoutIp(entries[k + 1..], ip);
        Next(entries, k);
        if entries[k].ip == ip {
          Removes(entries, k, rest, result);
          entries := entries[..k] + entries[k + 1..];
          deleted := deleted + 1;
        } else {
          Keeps(entries, k, rest, result);
          k := k + 1;
        }
      }
      End(entries, k, result);
    }

    /** Dynamic entries leave when their time is over. */
    method ExpireArpCache(now: int)
      requires Valid()
      modifies this`entries, hw
      ensures Valid() && entries == Unexpired(old(entries), now, ttl)
      ensures old(Mirrored()) || entries != old(entries) ==> Mirrored()
    {
      UnexpiredDistinct(entries, now, ttl);
      var timedout := RemoveExpired(now);
      if timedout {
        WriteArpCacheToHw();
      }
    }

    method RemoveExpired(now: int) returns (timedout: bool)
      modifies this`entries
      ensures entries == Unexpired(old(entries), now, ttl) && (!timedout ==> entries == old(entries))
    {
      timedout := false;
      ghost var result := Unexpired(entries, now, ttl);
      var k := 0;
      Start(entries, result);
      while k < |entries|
        invariant k <= |entries| && Swept(entries, k, Unexpired(entries[k..], now, ttl), result)
        invariant !timedout ==> entries == old(entries)
        decreases |entries| - k
      {
        ghost var rest := Unexpired(entries[k + 1..], now, ttl);
        Next(entries, k);
        if !entries[k].isStatic && now - entries[k].since > ttl {
          Removes(entries, k, rest, result);
          entries := entries[..k] + entries[k + 1..];
          timedout := true;
        } else {
          Keeps(entries, k, rest, result);
          k := k + 1;
        }
      }
      End(entries, k, result);
    }

    /** Two walks over the list share the row number; zeros fill the rest. */
    method WriteArpCacheToHw()
      requires hw.Length == DEPTH
      modifies hw
      ensures Mirrored()
    {
      var i := WriteStatic();
      WriteDynamic(i);
      assert hw[..] == Image(entries);
    }

    /** The first walk. */
    method WriteStatic() returns (i: nat)
      requires hw.Length == DEPTH
      modifies hw
      ensures i <= DEPTH && Written(hw[..], Ranked(entries), i)
      ensures i == DEPTH || i == |OfKind(entries, true)|
    {
      i := 0;
      var cur := 0;
      ghost var ranked := Ranked(entries);
      while cur < |entries| && i < DEPTH
        invariant cur <= |entries| && i <= DEPTH && Written(hw[..], ranked, i)
        invariant Ahead(entries, true, cur, ranked, i) && i + |OfKind(entries[cur..], true)| == |OfKind(entries, true)|
      {
        AheadNext(entries, true, cur, ranked, i);
        if entries[cur].isStatic {
          WrittenNext(hw[..], ranked, i);
          hw[i] := RowOf(entries[cur]);
          i := i + 1;
        }
        cur := cur + 1;
      }
    }

    /** The second walk. */
    method WriteDynamic(start: nat)
      requires hw.Length == DEPTH && start <= DEPTH && Written(hw[..], Ranked(entries), start)
      requires start == DEPTH || start == |OfKind(entries, true)|
      modifies hw
      ensures Written(hw[..], Ranked(entries), DEPTH)
    {
      var i: nat, cur: nat := start, 0;
      ghost var ranked := Ranked(entries);
      if start < DEPTH {
        AheadStart(entries, start);
      }
      while i < DEPTH
        invariant i <= DEPTH && cur <= |entries| && Written(hw[..], ranked, i)
        invariant i < DEPTH ==> Ahead(entries, false, cur, ranked, i) || (cur == |entries| && |ranked| <= i)
        decreases DEPTH - i + |entries| - cur
      {
        if cur < |entries| {
          AheadNext(entries, false, cur, ranked, i);
          if !entries[cur].isStatic {
            WrittenNext(hw[..], ranked, i);
            hw[i] := RowOf(entries[cur]);
            i := i + 1;
          }
          cur := cur + 1;
        } else {
          if Ahead(entries, false, cur, ranked, i) {
            AheadEnd(entries, cur, ranked, i);
          }
          WrittenNext(hw[..], ranked, i);
          hw[i] := ZERO_ROW;
          i := i + 1;
        }
      }
    }
  }

  /** An address learnt now is in the cache after a later check iff it is static or its time is not over. */
  method LearnAndCheck(c: Cache, ip: Addr, mac: Mac, isStatic: bool, now: int, later: int)
    requires c.Valid()
    modifies c, c.hw
    ensures c.Valid()
    ensures (exists e :: e in c.entries && e.ip == ip && e.mac == mac) <==> isStatic || later <= now + c.ttl
    ensures (exists e :: e in c.entries && e.ip == ip) <==> isStatic || later <= now + c.ttl
  {
    ghost var was, e := c.entries, ArpEntry(ip, mac, isStatic, if isStatic then 0 else now);
    c.UpdateArpCache(ip, mac, isStatic, now);
    ghost var es := c.entries;
    UpdatedHas(was, es, e);
    OneForIp(es, e);
    c.ExpireArpCache(later);
    UnexpiredIs(es, later, c.ttl);
    forall x ensures x in c.entries <==> x in es && (x.isStatic || later <= x.since + c.ttl) {
      FilterHas((y: ArpEntry) => y.isStatic || later <= y.since + c.ttl, es, x);
    }
  }

  lemma UpdatedHas(before: seq<ArpEntry>, after: seq<ArpEntry>, e: ArpEntry)
    requires Updated(before, after, e)
    ensures e in after
  {
    if k :| 0 <= k < |before| && before[k].ip == e.ip && after == before[k := e] {
      assert after[k] == e;
    }
  }

  lemma OneForIp(es: seq<ArpEntry>, e: ArpEntry)
    requires Distinct(es) && e in es
    ensures forall x :: x in es && x.ip == e.ip ==> x == e
  {
  }

  // ----- steps of the loops

  ghost predicate Written(hw: seq<HwRow>, ranked: seq<ArpEntry>, i: nat) {
    |hw| == DEPTH && forall j :: 0 <= j < i && j < DEPTH ==> hw[j] == RowAt(ranked, j)
  }

  lemma WrittenNext(hw: seq<HwRow>, ranked: seq<ArpEntry>, i: nat)
    requires Written(hw, ranked, i) && i < DEPTH
    ensures Written(hw[i := RowAt(ranked, i)], ranked, i + 1)
  {
  }

  /** The entries of the kind from `cur` on are the ranked ones from row `i` on. */
  ghost predicate Ahead(es: seq<ArpEntry>, isStatic: bool, cur: nat, ranked: seq<ArpEntry>, i: nat) {
    && cur <= |es| && i <= |ranked| && OfKind(es[cur..], isStatic) <= ranked[i..]
    && (!isStatic ==> OfKind(es[cur..], isStatic) == ranked[i..])
  }

  lemma AheadStart(es: seq<ArpEntry>, i: nat)
    requires i == |OfKind(es, true)|
    ensures Ahead(es, false, 0, Ranked(es), i)
  {
    assert es[0..] == es;
    assert Ranked(es)[i..] == OfKind(es, false);
  }

  lemma AheadEnd(es: seq<ArpEntry>, cur: nat, ranked: seq<ArpEntry>, i: nat)
    requires Ahead(es, false, cur, ranked, i) && cur == |es|
    ensures i == |ranked|
  {
    assert es[cur..] == [] && |ranked[i..]| == |ranked| - i;
  }

  lemma AheadNext(es: seq<ArpEntry>, isStatic: bool, cur: nat, ranked: seq<ArpEntry>, i: nat)
    requires Ahead(es, isStatic, cur, ranked, i) && cur < |es|
    ensures es[cur].isStatic == isStatic ==>
              i < |ranked| && RowAt(ranked, i) == RowOf(es[cur]) && Ahead(es, isStatic, cur + 1, ranked, i + 1)
              && |OfKind(es[cur..], isStatic)| == |OfKind(es[cur + 1..], isStatic)| + 1
    ensures es[cur].isStatic != isStatic ==>
              Ahead(es, isStatic, cur + 1, ranked, i) && OfKind(es[cur..], isStatic) == OfKind(es[cur + 1..], isStatic)
  {
    assert es[cur..][0] == es[cur] && es[cur..][1..] == es[cur + 1..];
    if es[cur].isStatic == isStatic {
      var rest := OfKind(es[cur + 1..], isStatic);
      assert OfKind(es[cur..], isStatic) == [es[cur]] + rest;
      assert ranked[i..][0] == ranked[i] && ranked[i..][1..] == ranked[i + 1..];
      assert ([es[cur]] + rest)[1..] == rest;
    }
  }
}
