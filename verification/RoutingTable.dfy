/**
 The routing table and its copy in the hardware (or_rtable.c): a list kept sorted by mask,
 longest-prefix match in software, and 32 hardware rows searched from the lowest.
 */
module RoutingTable {
  import opened PwospfTypes
  import opened Sweep
  import opened Selection

  datatype Route = Route(ip: Addr, gw: Addr, mask: Addr, iface: string, isStatic: bool, isActive: bool)

  /** One row of the hardware table. Port 0 forwards nowhere. */
  datatype HwRow = HwRow(ip: Addr, mask: Addr, gw: Addr, port: nat)

  const DEPTH: nat := 32
  const ZERO_ROW: HwRow := HwRow(0, 0, 0, 0)

  // ----- masks

  /** The number of bits set. */
  function BitCount(m: nat): nat {
    if m == 0 then 0 else m % 2 + BitCount(m / 2)
  }

  function ShiftRight(m: nat, i: nat): nat {
    if i == 0 then m else ShiftRight(m, i - 1) / 2
  }

  function ShiftLeft(m: nat, i: nat): nat {
    if i == 0 then m else 2 * ShiftLeft(m, i - 1)
  }

  function Ones(k: nat): nat {
    if k == 0 then 0 else 2 * Ones(k - 1) + 1
  }

  /** `k` ones followed by zeros, 32 bits in all. */
  function PrefixMask(k: nat): nat
    requires k <= 32
  {
    ShiftLeft(Ones(k), 32 - k)
  }

  ghost predicate Contiguous(mask: Addr) {
    exists k: nat :: k <= 32 && mask == PrefixMask(k)
  }

  lemma {:induction false} ShiftLeftBits(m: nat, i: nat)
    ensures BitCount(ShiftLeft(m, i)) == BitCount(m)
  {
    if i > 0 {
      ShiftLeftBits(m, i - 1);
    }
  }

  lemma {:induction false} OnesBits(k: nat)
    ensures BitCount(Ones(k)) == k
  {
    if k > 0 {
      OnesBits(k - 1);
      assert Ones(k) / 2 == Ones(k - 1);
    }
  }

  lemma {:induction false} ShiftLeftOdd(m: nat, i: nat)
    ensures ShiftLeft(2 * m + 1, i) == ShiftLeft(m, i + 1) + ShiftLeft(1, i) && ShiftLeft(1, i) > 0
  {
    if i > 0 {
      ShiftLeftOdd(m, i - 1);
    }
  }

  lemma {:induction false} PrefixGrows(j: nat, k: nat)
    requires j <= k <= 32
    ensures j < k ==> PrefixMask(j) < PrefixMask(k)
  {
    if j < k {
      PrefixGrows(j, k - 1);
      ShiftLeftOdd(Ones(k - 1), 32 - k);
    }
  }

  lemma PrefixOrder(j: nat, k: nat)
    requires j <= 32 && k <= 32
    ensures PrefixMask(j) <= PrefixMask(k) <==> j <= k
  {
    if j <= k {
      PrefixGrows(j, k);
    } else {
      PrefixGrows(k, j);
    }
  }

  lemma PrefixBits(k: nat)
    requires k <= 32
    ensures BitCount(PrefixMask(k)) == k
  {
    ShiftLeftBits(Ones(k), 32 - k);
    OnesBits(k);
  }

  /** The positions of the bits set below the `n`-th. */
  ghost function SetBits(m: nat, n: nat): set<nat> {
    set i | 0 <= i < n && Bit(m, i)
  }

  ghost function Raised(s: set<nat>): (t: set<nat>)
    ensures forall x: nat :: x in t <==> x > 0 && x - 1 in s
  {
    set i | i in s :: i + 1
  }

  lemma {:induction false} RaisedSize(s: set<nat>)
    ensures |Raised(s)| == |s|
    decreases |s|
  {
    if i :| i in s {
      RaisedSize(s - {i});
      assert s == s - {i} + {i};
      assert Raised(s) == Raised(s - {i}) + {i + 1};
    } else {
      assert Raised(s) == {};
    }
  }

  /** The count is that of the bits set. */
  lemma {:induction false} BitCountIs(m: nat, n: nat)
    requires m < Pow2(n)
    ensures |SetBits(m, n)| == BitCount(m)
    decreases n
  {
    if n == 0 {
      assert SetBits(m, n) == {};
    } else {
      BitCountIs(m / 2, n - 1);
      RaisedSize(SetBits(m / 2, n - 1));
      BitsSplit(m, n);
      assert m == 0 ==> BitCount(m / 2) == 0;
    }
  }

  lemma BitsSplit(m: nat, n: nat)
    requires n > 0
    ensures SetBits(m, n) == Raised(SetBits(m / 2, n - 1)) + (if m % 2 == 1 then {0} else {})
    ensures 0 !in Raised(SetBits(m / 2, n - 1))
  {
    LowestBit(m);
    forall i | 0 < i < n ensures i in SetBits(m, n) <==> i in Raised(SetBits(m / 2, n - 1)) {
      NextBit(m, i - 1);
    }
  }

  /** Among contiguous masks the larger number is the longer prefix. */
  lemma LargerIsLonger(a: Addr, b: Addr)
    requires Contiguous(a) && Contiguous(b)
    ensures a <= b <==> BitCount(a) <= BitCount(b)
  {
    var j: nat :| j <= 32 && a == PrefixMask(j);
    var k: nat :| k <= 32 && b == PrefixMask(k);
    PrefixBits(j);
    PrefixBits(k);
    PrefixOrder(j, k);
  }

  // ----- what a prefix mask keeps

  lemma {:induction false} OnesArePow(k: nat)
    ensures Ones(k) == Pow2(k) - 1
  {
    if k > 0 {
      OnesArePow(k - 1);
    }
  }

  lemma {:induction false} ShiftIsPow(m: nat, i: nat)
    ensures ShiftLeft(m, i) == m * Pow2(i)
  {
    if i > 0 {
      ShiftIsPow(m, i - 1);
    }
  }

  lemma {:induction false} PowSum(i: nat, j: nat)
    ensures Pow2(i + j) == Pow2(i) * Pow2(j)
  {
    if i > 0 {
      PowSum(i - 1, j);
      assert Pow2(i) * Pow2(j) == 2 * (Pow2(i - 1) * Pow2(j));
    }
  }

  lemma Pow32()
    ensures Pow2(32) == 0x1_0000_0000
  {
    assert Pow2(8) == 256;
    PowSum(8, 8);
    PowSum(16, 16);
  }

  /** The mask, as a number. */
  lemma PrefixMaskIs(k: nat)
    requires k <= 32
    ensures PrefixMask(k) == 0x1_0000_0000 - Pow2(32 - k)
  {
    OnesArePow(k);
    ShiftIsPow(Ones(k), 32 - k);
    PowSum(k, 32 - k);
    Pow32();
    LessOne(Pow2(k), Pow2(32 - k));
  }

  lemma LessOne(a: int, b: int)
    ensures (a - 1) * b == a * b - b
  {
  }

  lemma {:induction false} AllOnesKeep(x: nat, k: nat)
    requires x < Pow2(k)
    ensures BitAnd(x, Ones(k)) == x
  {
    if x > 0 {
      assert Ones(k) / 2 == Ones(k - 1) && Ones(k) % 2 == 1;
      AllOnesKeep(x / 2, k - 1);
    }
  }

  lemma {:induction false} ShiftedOnesKeep(x: nat, k: nat, i: nat)
    requires x < Pow2(k + i)
    ensures BitAnd(x, ShiftLeft(Ones(k), i)) == x - x % Pow2(i)
    decreases i
  {
    if i == 0 {
      AllOnesKeep(x, k);
    } else {
      ShiftedOnesKeep(x / 2, k, i - 1);
      HalvedAnd(x, ShiftLeft(Ones(k), i - 1));
      DoubledRest(x, Pow2(i - 1));
    }
  }

  lemma DoubledRest(x: nat, p: nat)
    requires p > 0
    ensures 2 * (x / 2 - x / 2 % p) == x - x % (2 * p)
  {
    HalfOf(x, p);
  }

  lemma HalvedAnd(x: nat, m: nat)
    ensures BitAnd(x, 2 * m) == 2 * BitAnd(x / 2, m)
  {
    assert 2 * m / 2 == m && 2 * m % 2 == 0;
  }

  /** A prefix mask clears the low bits of an address, and nothing else. */
  lemma PrefixKeeps(a: Addr, mask: Addr, k: nat)
    requires k <= 32 && mask == PrefixMask(k)
    ensures Net(a, mask) == a - a % Pow2(32 - k)
  {
    Pow32();
    assert k + (32 - k) == 32;
    ShiftedOnesKeep(a, k, 32 - k);
  }

  lemma SameQuotient(a: nat, b: nat, p: nat)
    requires p > 0
    ensures a - a % p == b - b % p <==> a / p == b / p
  {
    assert a == p * (a / p) + a % p && b == p * (b / p) + b % p;
    if a - a % p == b - b % p {
      QuotientIs(b, p, a / p, b % p);
    }
  }

  /** Two addresses are in one subnet exactly if their first `k` bits are the same number. */
  lemma SameSubnetIff(a: Addr, b: Addr, mask: Addr, k: nat)
    requires k <= 32 && mask == PrefixMask(k)
    ensures Net(a, mask) == Net(b, mask) <==> a / Pow2(32 - k) == b / Pow2(32 - k)
  {
    PrefixKeeps(a, mask, k);
    PrefixKeeps(b, mask, k);
    SameQuotient(a, b, Pow2(32 - k));
  }

  // ----- software lookup

  predicate Matches(r: Route, dst: Addr) {
    r.isActive && Net(r.ip, r.mask) == Net(dst, r.mask)
  }

  /** The `k`-th route is the first of the longest active matches. */
  ghost predicate Longest(rs: seq<Route>, dst: Addr, k: int) {
    && 0 <= k < |rs| && Matches(rs[k], dst)
    && forall j :: 0 <= j < |rs| && Matches(rs[j], dst) ==>
         BitCount(rs[j].mask) <= BitCount(rs[k].mask) && (j < k ==> BitCount(rs[j].mask) < BitCount(rs[k].mask))
  }

  ghost predicate NoMatch(rs: seq<Route>, dst: Addr) {
    forall j :: 0 <= j < |rs| ==> !Matches(rs[j], dst)
  }

  /** The lookup so far: the first of the longest matches and its length, or none. */
  ghost predicate Best(rs: seq<Route>, dst: Addr, k: int, most: int) {
    if k == -1 then most == -1 && NoMatch(rs, dst) else Longest(rs, dst, k) && most == BitCount(rs[k].mask)
  }

  lemma BestNext(rs: seq<Route>, n: nat, dst: Addr, k: int, most: int)
    requires n < |rs| && Best(rs[..n], dst, k, most)
    ensures if Matches(rs[n], dst) && BitCount(rs[n].mask) > most
            then Best(rs[..n + 1], dst, n, BitCount(rs[n].mask)) else Best(rs[..n + 1], dst, k, most)
  {
    assert rs[..n + 1][..n] == rs[..n] && rs[..n + 1][n] == rs[n];
    assert forall j :: 0 <= j < n ==> rs[..n + 1][j] == rs[..n][j];
  }

  /** The length of a contiguous mask. */
  ghost function PrefixLength(mask: Addr): (k: nat)
    requires Contiguous(mask)
    ensures k <= 32 && mask == PrefixMask(k)
  {
    var k: nat :| k <= 32 && mask == PrefixMask(k);
    k
  }

  /** The route is active and the address begins with its prefix. */
  ghost predicate InPrefix(r: Route, dst: Addr)
    requires Contiguous(r.mask)
  {
    var low := Pow2(32 - PrefixLength(r.mask));
    r.isActive && r.ip / low == dst / low
  }

  /** The `k`-th route is the first of those with the longest prefix that the address begins with. */
  ghost predicate LongestPrefix(rs: seq<Route>, dst: Addr, k: int)
    requires ContiguousMasks(rs)
  {
    && 0 <= k < |rs| && InPrefix(rs[k], dst)
    && forall j :: 0 <= j < |rs| && InPrefix(rs[j], dst) ==>
         && PrefixLength(rs[j].mask) <= PrefixLength(rs[k].mask)
         && (j < k ==> PrefixLength(rs[j].mask) < PrefixLength(rs[k].mask))
  }

  lemma MatchesIff(r: Route, dst: Addr)
    requires Contiguous(r.mask)
    ensures Matches(r, dst) <==> InPrefix(r, dst)
    ensures BitCount(r.mask) == PrefixLength(r.mask)
  {
    SameSubnetIff(r.ip, dst, r.mask, PrefixLength(r.mask));
    PrefixBits(PrefixLength(r.mask));
  }

  /** With contiguous masks the lookup is by the first bits of the address. */
  lemma LongestIff(rs: seq<Route>, dst: Addr, k: int)
    requires ContiguousMasks(rs)
    ensures Longest(rs, dst, k) <==> LongestPrefix(rs, dst, k)
    ensures NoMatch(rs, dst) <==> forall j :: 0 <= j < |rs| ==> !InPrefix(rs[j], dst)
  {
    forall j | 0 <= j < |rs|
      ensures Matches(rs[j], dst) <==> InPrefix(rs[j], dst)
      ensures BitCount(rs[j].mask) == PrefixLength(rs[j].mask)
    {
      MatchesIff(rs[j], dst);
    }
  }

  // ----- hardware lookup

  /** The one-hot port number of an interface. */
  function PortNumber(iface: string): nat {
    if iface == "eth0" then 1
    else if iface == "eth1" then 4
    else if iface == "eth2" then 16
    else if iface == "eth3" then 64
    else if iface == "cpu0" then 2
    else if iface == "cpu1" then 8
    else if iface == "cpu2" then 32
    else if iface == "cpu3" then 128
    else 0
  }

  function Digit(i: nat): char
    requires i < 10
  {
    '0' + i as char
  }

  /** The `i`-th Ethernet port has bit 2i, and its counterpart to the host bit 2i + 1. */
  predicate PortAt(iface: string, port: nat, i: nat) {
    i < 4 && ((iface == "eth" + [Digit(i)] && port == Pow2(2 * i))
              || (iface == "cpu" + [Digit(i)] && port == Pow2(2 * i + 1)))
  }

  /** The port of an interface, by its place. */
  ghost predicate HasPort(iface: string, port: nat) {
    exists i: nat :: PortAt(iface, port, i)
  }

  lemma PortPowers()
    ensures Pow2(0) == 1 && Pow2(1) == 2 && Pow2(2) == 4 && Pow2(3) == 8
    ensures Pow2(4) == 16 && Pow2(5) == 32 && Pow2(6) == 64 && Pow2(7) == 128
  {
  }

  lemma PortAtPlace(i: nat)
    requires i < 4
    ensures PortNumber("eth" + [Digit(i)]) == Pow2(2 * i) && PortNumber("cpu" + [Digit(i)]) == Pow2(2 * i + 1)
  {
    PortPowers();
    assert "eth0" == "eth" + ['0'] && "eth1" == "eth" + ['1'] && "eth2" == "eth" + ['2'] && "eth3" == "eth" + ['3'];
    assert "cpu0" == "cpu" + ['0'] && "cpu1" == "cpu" + ['1'] && "cpu2" == "cpu" + ['2'] && "cpu3" == "cpu" + ['3'];
    var d := "eth" + [Digit(i)];
    assert d[3] == Digit(i) && d[0] == 'e';
    var h := "cpu" + [Digit(i)];
    assert h[3] == Digit(i) && h[0] == 'c';
  }

  /** The place of an interface that has a number. */
  lemma PlaceOf(iface: string) returns (i: nat)
    requires PortNumber(iface) != 0
    ensures i < 4 && (iface == "eth" + [Digit(i)] || iface == "cpu" + [Digit(i)])
  {
    i := if iface == "eth0" || iface == "cpu0" then 0 else if iface == "eth1" || iface == "cpu1" then 1
         else if iface == "eth2" || iface == "cpu2" then 2 else 3;
  }

  /** The number is the port's, and an interface without a port has none. */
  lemma PortNumberIs(iface: string, port: nat)
    ensures HasPort(iface, port) <==> port == PortNumber(iface) && port != 0
  {
    if i: nat :| PortAt(iface, port, i) {
      PortAtPlace(i);
    }
    if port == PortNumber(iface) && port != 0 {
      var i := PlaceOf(iface);
      PortAtPlace(i);
      assert PortAt(iface, port, i);
    }
  }

  /** No two interfaces share a port. */
  lemma PortsDiffer(a: string, b: string)
    requires PortNumber(a) == PortNumber(b) != 0
    ensures a == b
  {
  }

  /** Every route names an interface that has a port; the lookup of the port number asserts it. */
  predicate KnownIfaces(rs: seq<Route>) {
    forall r :: r in rs ==> PortNumber(r.iface) != 0
  }

  /** The row sends what the route sends, where the route sends it. */
  ghost predicate Carries(row: HwRow, r: Route) {
    row.ip == r.ip && row.mask == r.mask && row.gw == r.gw && HasPort(r.iface, row.port)
  }

  lemma RowCarries(r: Route)
    requires PortNumber(r.iface) != 0
    ensures Carries(RowOf(r), r)
  {
    PortNumberIs(r.iface, PortNumber(r.iface));
  }

  function RowOf(r: Route): HwRow {
    HwRow(r.ip, r.mask, r.gw, PortNumber(r.iface))
  }

  function Active(rs: seq<Route>): seq<Route> {
    if rs == [] then [] else (if rs[0].isActive then [rs[0]] else []) + Active(rs[1..])
  }

  /** The first 32 active routes in list order, then zero rows. */
  function Image(rs: seq<Route>): (rows: seq<HwRow>)
    ensures |rows| == DEPTH
  {
    seq(DEPTH, i => if 0 <= i < |Active(rs)| then RowOf(Active(rs)[i]) else ZERO_ROW)
  }

  predicate RowMatches(w: HwRow, dst: Addr) {
    Net(w.ip, w.mask) == Net(dst, w.mask)
  }

  /** The lowest matching row; a row with port 0 is a miss. */
  function HwLookup(rows: seq<HwRow>, dst: Addr): Option<HwRow> {
    if rows == [] then None
    else if RowMatches(rows[0], dst) then (if rows[0].port == 0 then None else Some(rows[0]))
    else HwLookup(rows[1..], dst)
  }

  lemma {:induction false} LookupFinds(rows: seq<HwRow>, dst: Addr) returns (k: nat)
    ensures k <= |rows| && forall j :: 0 <= j < k ==> !RowMatches(rows[j], dst)
    ensures HwLookup(rows, dst) ==
            if k < |rows| && RowMatches(rows[k], dst) && rows[k].port != 0 then Some(rows[k]) else None
    ensures k < |rows| ==> RowMatches(rows[k], dst)
  {
    if rows == [] || RowMatches(rows[0], dst) {
      k := 0;
    } else {
      k := LookupFinds(rows[1..], dst);
      k := k + 1;
    }
  }

  // ----- the order

  /** The order test of the sort: `a` may not stand directly before `b`. */
  predicate Misordered(a: Route, b: Route) {
    || a.mask < b.mask
    || (a.mask == b.mask && a.ip < b.ip)
    || (a.mask == b.mask && a.ip == b.ip && !a.isStatic && b.isStatic)
  }

  ghost predicate Sorted(rs: seq<Route>) {
    forall i, j :: 0 <= i < j < |rs| ==> !Misordered(rs[i], rs[j])
  }

  /** Longer masks first, larger addresses first among equal masks, static routes first among equal subnets. */
  ghost predicate InOrder(rs: seq<Route>) {
    forall i, j :: 0 <= i < j < |rs| ==>
      || rs[i].mask > rs[j].mask
      || (rs[i].mask == rs[j].mask && rs[i].ip > rs[j].ip)
      || (rs[i].mask == rs[j].mask && rs[i].ip == rs[j].ip && (rs[i].isStatic || !rs[j].isStatic))
  }

  lemma SortedIsInOrder(rs: seq<Route>)
    ensures Sorted(rs) <==> InOrder(rs)
  {
    if Sorted(rs) {
      assert forall i, j :: 0 <= i < j < |rs| ==> !Misordered(rs[i], rs[j]);
    }
  }

  lemma {:induction false} NeighboursSorted(rs: seq<Route>, i: nat, j: nat)
    requires forall k :: 0 <= k < |rs| - 1 ==> !Misordered(rs[k], rs[k + 1])
    requires i < j < |rs|
    ensures !Misordered(rs[i], rs[j])
    decreases j
  {
    if i < j - 1 {
      NeighboursSorted(rs, i, j - 1);
      assert !Misordered(rs[j - 1], rs[j - 1 + 1]);
    } else {
      assert !Misordered(rs[i], rs[i + 1]);
    }
  }

  /** How many of `rs` may not stand after `a`. */
  function Later(a: Route, rs: seq<Route>): nat {
    if rs == [] then 0 else (if Misordered(a, rs[0]) then 1 else 0) + Later(a, rs[1..])
  }

  /** The number of pairs that stand in the wrong order. */
  function Inversions(rs: seq<Route>): nat {
    if rs == [] then 0 else Later(rs[0], rs[1..]) + Inversions(rs[1..])
  }

  function Swap(rs: seq<Route>, k: nat): seq<Route>
    requires k + 1 < |rs|
  {
    rs[k := rs[k + 1]][k + 1 := rs[k]]
  }

  lemma {:induction false} LaterSwap(a: Route, rs: seq<Route>, k: nat)
    requires k + 1 < |rs|
    ensures Later(a, Swap(rs, k)) == Later(a, rs)
  {
    if k == 0 {
      assert rs[1..][1..] == rs[2..] == Swap(rs, 0)[1..][1..];
    } else {
      assert Swap(rs, k)[1..] == Swap(rs[1..], k - 1);
      LaterSwap(a, rs[1..], k - 1);
    }
  }

  /** Exchanging two neighbours that stand in the wrong order removes exactly one inversion. */
  lemma {:induction false} SwapRemovesOne(rs: seq<Route>, k: nat)
    requires k + 1 < |rs| && Misordered(rs[k], rs[k + 1])
    ensures Inversions(Swap(rs, k)) == Inversions(rs) - 1
    ensures multiset(Swap(rs, k)) == multiset(rs)
  {
    if k == 0 {
      assert rs[1..][1..] == rs[2..] == Swap(rs, 0)[1..][1..];
    } else {
      assert Swap(rs, k)[1..] == Swap(rs[1..], k - 1);
      LaterSwap(rs[0], rs[1..], k - 1);
      SwapRemovesOne(rs[1..], k - 1);
    }
  }

  // ----- hardware refines software

  /** The position in the list of the `i`-th active route. */
  lemma {:induction false} ActiveAt(rs: seq<Route>, i: nat) returns (k: nat)
    requires i < |Active(rs)|
    ensures k < |rs| && rs[k] == Active(rs)[i] && rs[k].isActive
    ensures forall j :: 0 <= j < k && rs[j].isActive ==> exists m :: 0 <= m < i && Active(rs)[m] == rs[j]
  {
    if rs[0].isActive && i == 0 {
      k := 0;
    } else {
      var i' := if rs[0].isActive then i - 1 else i;
      k := ActiveAt(rs[1..], i');
      forall j | 0 <= j < k + 1 && rs[j].isActive ensures exists m :: 0 <= m < i && Active(rs)[m] == rs[j] {
        if j == 0 {
          assert Active(rs)[0] == rs[0];
        } else {
          assert rs[1..][j - 1] == rs[j];
          var m :| 0 <= m < i' && Active(rs[1..])[m] == rs[1..][j - 1];
          assert Active(rs)[if rs[0].isActive then m + 1 else m] == rs[j];
        }
      }
      k := k + 1;
    }
  }

  lemma {:induction false} ActiveHas(rs: seq<Route>, k: nat) returns (i: nat)
    requires k < |rs| && rs[k].isActive
    ensures i < |Active(rs)| && Active(rs)[i] == rs[k]
  {
    if k == 0 {
      i := 0;
    } else {
      i := ActiveHas(rs[1..], k - 1);
      i := if rs[0].isActive then i + 1 else i;
    }
  }

  ghost predicate ContiguousMasks(rs: seq<Route>) {
    forall r :: r in rs ==> Contiguous(r.mask)
  }

  /** In a sorted table of contiguous masks the first active match is the longest. */
  lemma FirstIsLongest(rs: seq<Route>, dst: Addr, k: nat)
    requires Sorted(rs) && ContiguousMasks(rs) && k < |rs| && Matches(rs[k], dst)
    requires forall j :: 0 <= j < k ==> !Matches(rs[j], dst)
    ensures Longest(rs, dst, k)
  {
    forall j | 0 <= j < |rs| && Matches(rs[j], dst) ensures k <= j && BitCount(rs[j].mask) <= BitCount(rs[k].mask) {
      if j != k {
        assert !Misordered(rs[k], rs[j]);
        LargerIsLonger(rs[j].mask, rs[k].mask);
      }
    }
  }

  /**
   Any hit in the hardware rows is exactly the route software picks; a miss is a software
   miss too when no more than 32 routes are active.
   */
  lemma HardwareRefinesSoftware(rs: seq<Route>, dst: Addr)
    requires Sorted(rs) && ContiguousMasks(rs) && KnownIfaces(rs)
    ensures match HwLookup(Image(rs), dst)
            case Some(row) => exists k :: Longest(rs, dst, k) && Carries(row, rs[k])
            case None => |Active(rs)| <= DEPTH ==> NoMatch(rs, dst)
  {
    var rows, act := Image(rs), Active(rs);
    var i := LookupFinds(rows, dst);
    if i < |rows| && i < |act| {
      var k := ActiveAt(rs, i);
      forall j | 0 <= j < k ensures !Matches(rs[j], dst) {
        if rs[j].isActive {
          var m :| 0 <= m < i && act[m] == rs[j];
          assert !RowMatches(rows[m], dst);
        }
      }
      assert rows[i] == RowOf(act[i]);
      RowCarries(rs[k]);
      FirstIsLongest(rs, dst, k);
    } else if |act| <= DEPTH {
      forall j | 0 <= j < |rs| ensures !Matches(rs[j], dst) {
        if rs[j].isActive {
          var m := ActiveHas(rs, j);
          assert rows[m] == RowOf(act[m]);
        }
      }
    }
  }

  /**
   Whatever the masks and the order, hardware answers with the first match; that is the route
   software picks if and only if no later match has more bits.
   */
  lemma FirstMatchIsLongestIff(rs: seq<Route>, dst: Addr, i: nat)
    requires KnownIfaces(rs) && |Active(rs)| <= DEPTH && i < |rs| && Matches(rs[i], dst)
    requires forall j :: 0 <= j < i ==> !Matches(rs[j], dst)
    ensures HwLookup(Image(rs), dst).Some? && Carries(HwLookup(Image(rs), dst).value, rs[i])
    ensures Longest(rs, dst, i) <==>
            forall j :: i < j < |rs| && Matches(rs[j], dst) ==> BitCount(rs[j].mask) <= BitCount(rs[i].mask)
  {
    var rows, act := Image(rs), Active(rs);
    var m := ActiveHas(rs, i);
    var a := LookupFinds(rows, dst);
    assert rows[m] == RowOf(act[m]) && RowMatches(rows[m], dst);
    assert a <= m;
    var k := ActiveAt(rs, a);
    assert rows[a] == RowOf(act[a]) && Matches(rs[k], dst);
    forall n | 0 <= n < a ensures act[n] != rs[i] {
      assert rows[n] == RowOf(act[n]);
    }
    assert k == i;
    RowCarries(rs[i]);
  }

  /** A mask with a hole breaks the agreement: 4 sorts before 3 but has fewer bits. */
  lemma MaskWithHoleDisagrees()
    ensures var rs := [Route(0, 1, 4, "eth0", true, true), Route(0, 2, 3, "eth1", true, true)];
            && Sorted(rs) && KnownIfaces(rs) && Longest(rs, 0, 1)
            && HwLookup(Image(rs), 0).Some? && HwLookup(Image(rs), 0).value.gw == 1
  {
    var rs := [Route(0, 1, 4, "eth0", true, true), Route(0, 2, 3, "eth1", true, true)];
    assert Net(0, 4) == 0 && Net(0, 3) == 0;
    assert BitCount(4) == 1 && BitCount(3) == 2;
    assert Active(rs)[0] == rs[0];
    assert Image(rs)[0] == RowOf(rs[0]);
  }

  // ----- the operations on the list, on values

  predicate OnIface(r: Route, iface: string) {
    iface <= r.iface
  }

  function Deactivated(rs: seq<Route>, iface: string): seq<Route> {
    if rs == [] then []
    else
      var rest := Deactivated(rs[1..], iface);
      if !OnIface(rs[0], iface) then [rs[0]] + rest
      else if rs[0].isStatic then [rs[0].(isActive := false)] + rest
      else rest
  }

  function Activated(rs: seq<Route>, iface: string): seq<Route> {
    if rs == [] then []
    else [if OnIface(rs[0], iface) then rs[0].(isActive := true) else rs[0]] + Activated(rs[1..], iface)
  }

  function WithoutRoute(rs: seq<Route>, dest: Addr, mask: Addr): seq<Route> {
    if rs == [] then []
    else (if rs[0].ip == dest && rs[0].mask == mask then [] else [rs[0]]) + WithoutRoute(rs[1..], dest, mask)
  }

  function Statics(rs: seq<Route>): seq<Route> {
    if rs == [] then [] else (if rs[0].isStatic then [rs[0]] else []) + Statics(rs[1..])
  }

  /** The routes an interface going down and up again leaves behind: all but its dynamic ones. */
  function Lasting(rs: seq<Route>, iface: string): seq<Route> {
    if rs == [] then []
    else (if OnIface(rs[0], iface) && !rs[0].isStatic then [] else [rs[0]]) + Lasting(rs[1..], iface)
  }

  /** The interface's name begins with the given one: that is all the comparison looks at. */
  predicate Begins(name: string, start: string) {
    |start| <= |name| && name[..|start|] == start
  }

  /** Deleting keeps, in order, the routes with another destination or another mask. */
  lemma {:induction false} WithoutRouteIs(rs: seq<Route>, dest: Addr, mask: Addr)
    ensures WithoutRoute(rs, dest, mask) == Filter((r: Route) => !(r.ip == dest && r.mask == mask), rs)
  {
    if rs != [] {
      WithoutRouteIs(rs[1..], dest, mask);
      FilterFirst((r: Route) => !(r.ip == dest && r.mask == mask), rs);
    }
  }

  lemma {:induction false} StaticsIs(rs: seq<Route>)
    ensures Statics(rs) == Filter((r: Route) => r.isStatic, rs)
  {
    if rs != [] {
      StaticsIs(rs[1..]);
      FilterFirst((r: Route) => r.isStatic, rs);
    }
  }

  /** An interface that goes down loses its dynamic routes, and its static ones turn inactive; the others stay. */
  lemma {:induction false} DeactivatedIs(rs: seq<Route>, iface: string)
    ensures Deactivated(rs, iface) ==
            Each((r: Route) => if Begins(r.iface, iface) then r.(isActive := false) else r,
                 Filter((r: Route) => !Begins(r.iface, iface) || r.isStatic, rs))
  {
    if rs != [] {
      DeactivatedIs(rs[1..], iface);
      FilterFirst((r: Route) => !Begins(r.iface, iface) || r.isStatic, rs);
    }
  }

  /** An interface that comes up has all its routes active; nothing else changes. */
  lemma {:induction false} ActivatedIs(rs: seq<Route>, iface: string)
    ensures Activated(rs, iface) ==
            Each((r: Route) => if Begins(r.iface, iface) then r.(isActive := true) else r, rs)
  {
    if rs != [] {
      ActivatedIs(rs[1..], iface);
    }
  }

  /** Taking an interface down and up again restores its active static routes and loses its dynamic ones. */
  lemma {:induction false} DownAndUp(rs: seq<Route>, iface: string)
    requires forall r :: r in rs && OnIface(r, iface) && r.isStatic ==> r.isActive
    ensures Activated(Deactivated(rs, iface), iface) == Lasting(rs, iface)
  {
    if rs != [] {
      DownAndUp(rs[1..], iface);
      assert rs[0] in rs;
    }
  }

  /** While an interface is down no lookup leads to it. */
  lemma {:induction false} DownCarriesNothing(rs: seq<Route>, iface: string)
    ensures forall r :: r in Deactivated(rs, iface) && OnIface(r, iface) ==> !r.isActive
  {
    if rs != [] {
      DownCarriesNothing(rs[1..], iface);
    }
  }

  // ----- the table itself

  class Table {
    var rtable: seq<Route>
    const isNetfpga: bool
    const hw: array<HwRow>

    /** The list is sorted, and the hardware, if there is any, holds its image. */
    ghost predicate Valid()
      reads this, hw
    {
      hw.Length == DEPTH && Sorted(rtable) && (isNetfpga ==> hw[..] == Image(rtable))
    }

    /** Hardware has a port for every interface of the routes; without hardware any interface will do. */
    ghost predicate HasPorts(rs: seq<Route>) {
      isNetfpga ==> KnownIfaces(rs)
    }

    constructor (isNetfpga: bool)
      ensures Valid() && rtable == [] && fresh(hw) && this.isNetfpga == isNetfpga
    {
      this.isNetfpga := isNetfpga;
      rtable := [];
      hw := new HwRow[DEPTH](_ => ZERO_ROW);
      new;
      assert hw[..] == Image([]);
    }

    /** The longest active match; the first one in the list among equals. */
    method GetNextHop(dst: Addr) returns (k: int, nextHop: Addr, iface: string)
      ensures if k == -1 then NoMatch(rtable, dst) else Longest(rtable, dst, k)
      ensures ContiguousMasks(rtable) ==>
                if k == -1 then forall j :: 0 <= j < |rtable| ==> !InPrefix(rtable[j], dst)
                else LongestPrefix(rtable, dst, k)
      ensures k != -1 ==>
                iface == rtable[k].iface && nextHop == if rtable[k].gw == 0 then dst else rtable[k].gw
    {
      k := FindLongest(dst);
      nextHop, iface := 0, "";
      if k != -1 {
        nextHop, iface := if rtable[k].gw == 0 then dst else rtable[k].gw, rtable[k].iface;
      }
      if ContiguousMasks(rtable) {
        LongestIff(rtable, dst, k);
      }
    }

    /** The loop of `GetNextHop`. */
    method FindLongest(dst: Addr) returns (k: int)
      ensures if k == -1 then NoMatch(rtable, dst) else Longest(rtable, dst, k)
    {
      k := -1;
      var most: int := -1;
      for n := 0 to |rtable|
        invariant Best(rtable[..n], dst, k, most)
      {
        BestNext(rtable, n, dst, k, most);
        var r := rtable[n];
        if r.isActive && Net(r.ip, r.mask) == Net(dst, r.mask) {
          var bits := CountBits(r.mask);
          if bits > most {
            k, most := n, bits;
          }
        }
      }
      assert rtable[..|rtable|] == rtable;
    }

    /** One pass of the bubble sort. */
    method Pass() returns (swapped: bool)
      modifies this`rtable
      ensures multiset(rtable) == multiset(old(rtable))
      ensures if swapped then Inversions(rtable) < Inversions(old(rtable)) else rtable == old(rtable)
      ensures !swapped ==> forall k :: 0 <= k < |rtable| - 1 ==> !Misordered(rtable[k], rtable[k + 1])
    {
      swapped := false;
      var k := 0;
      while k + 1 < |rtable|
        invariant 0 <= k <= |rtable|
        invariant multiset(rtable) == multiset(old(rtable))
        invariant if swapped then Inversions(rtable) < Inversions(old(rtable)) else rtable == old(rtable)
        invariant !swapped ==> forall j :: 0 <= j < k && j + 1 < |rtable| ==> !Misordered(rtable[j], rtable[j + 1])
        decreases |rtable| - k
      {
        var a, b := rtable[k], rtable[k + 1];
        if Misordered(a, b) {
          SwapRemovesOne(rtable, k);
          rtable := rtable[k := b][k + 1 := a];
          swapped := true;
        }
        k := k + 1;
      }
    }

    /** Sorts the list and rewrites the hardware; the inversions bound the passes. */
    method TriggerModified()
      requires hw.Length == DEPTH && HasPorts(rtable)
      modifies this`rtable, hw
      ensures Valid() && multiset(rtable) == multiset(old(rtable)) && InOrder(rtable)
    {
      var swapped := true;
      while swapped
        invariant multiset(rtable) == multiset(old(rtable))
        invariant !swapped ==> forall k :: 0 <= k < |rtable| - 1 ==> !Misordered(rtable[k], rtable[k + 1])
        decreases swapped, Inversions(rtable)
      {
        swapped := Pass();
      }
      forall i, j | 0 <= i < j < |rtable| ensures !Misordered(rtable[i], rtable[j]) {
        NeighboursSorted(rtable, i, j);
      }
      SortedIsInOrder(rtable);
      if isNetfpga {
        SameRoutesKnown(old(rtable), rtable);
        WriteToHw();
      }
    }

    method WriteToHw()
      requires hw.Length == DEPTH && KnownIfaces(rtable)
      modifies hw
      ensures hw[..] == Image(rtable) && HoldsActive(rtable, hw[..])
    {
      FillRows(rtable, hw, Image(rtable));
      ImageHoldsActive(rtable);
    }

    method AddRoute(dest: Addr, gateway: Addr, mask: Addr, iface: string)
      requires Valid() && HasPorts(rtable) && (isNetfpga ==> PortNumber(iface) != 0)
      modifies this`rtable, hw
      ensures Valid() && multiset(rtable) == multiset(old(rtable) + [Route(dest, gateway, mask, iface, true, true)])
    {
      rtable := rtable + [Route(dest, gateway, mask, iface, true, true)];
      TriggerModified();
    }

    method DelRoute(dest: Addr, mask: Addr) returns (removed: nat)
      requires Valid() && HasPorts(rtable)
      modifies this`rtable, hw
      ensures Valid() && multiset(rtable) == multiset(WithoutRoute(old(rtable), dest, mask))
      ensures removed == |old(rtable)| - |rtable|
    {
      if isNetfpga {
        WithoutKnown(rtable, dest, mask);
      }
      removed := RemoveRoutes(dest, mask);
      ghost var left := rtable;
      TriggerModified();
      SameLength(left, rtable);
    }

    /** The loop of `DelRoute`. */
    method RemoveRoutes(dest: Addr, mask: Addr) returns (removed: nat)
      modifies this`rtable
      ensures rtable == WithoutRoute(old(rtable), dest, mask) && removed == |old(rtable)| - |rtable|
    {
      removed := 0;
      ghost var result := WithoutRoute(rtable, dest, mask);
      var k := 0;
      Start(rtable, result);
      while k < |rtable|
        invariant k <= |rtable| && Swept(rtable, k, WithoutRoute(rtable[k..], dest, mask), result)
        invariant removed == |old(rtable)| - |rtable|
        decreases |rtable| - k
      {
        ghost var rest := WithoutRoute(rtable[k + 1..], dest, mask);
        Next(rtable, k);
        if dest == rtable[k].ip && mask == rtable[k].mask {
          Removes(rtable, k, rest, result);
          rtable := rtable[..k] + rtable[k + 1..];
          removed := removed + 1;
        } else {
          Keeps(rtable, k, rest, result);
          k := k + 1;
        }
      }
      End(rtable, k, result);
    }

    /** The interface goes down: its static routes are kept inactive, its dynamic ones removed. */
    method DeactivateRoutes(iface: string)
      requires Valid() && HasPorts(rtable)
      modifies this`rtable, hw
      ensures Valid() && multiset(rtable) == multiset(Deactivated(old(rtable), iface))
    {
      if isNetfpga {
        FlaggedKnown(rtable, iface);
      }
      SwitchOff(iface);
      TriggerModified();
    }

    /** The loop of `DeactivateRoutes`. */
    method SwitchOff(iface: string)
      modifies this`rtable
      ensures rtable == Deactivated(old(rtable), iface)
    {
      ghost var result := Deactivated(rtable, iface);
      var k := 0;
      Start(rtable, result);
      while k < |rtable|
        invariant k <= |rtable| && Swept(rtable, k, Deactivated(rtable[k..], iface), result)
        decreases |rtable| - k
      {
        var r := rtable[k];
        ghost var rest := Deactivated(rtable[k + 1..], iface);
        Next(rtable, k);
        if !OnIface(r, iface) {
          Keeps(rtable, k, rest, result);
          k := k + 1;
        } else if r.isStatic {
          Sets(rtable, k, r.(isActive := false), rest, result);
          rtable := rtable[k := r.(isActive := false)];
          k := k + 1;
        } else {
          Removes(rtable, k, rest, result);
          rtable := rtable[..k] + rtable[k + 1..];
        }
      }
      End(rtable, k, result);
    }

    /** The interface comes up: its routes become active. */
    method ActivateRoutes(iface: string)
      requires Valid() && HasPorts(rtable)
      modifies this`rtable, hw
      ensures Valid() && multiset(rtable) == multiset(Activated(old(rtable), iface))
    {
      if isNetfpga {
        FlaggedKnown(rtable, iface);
      }
      SwitchOn(iface);
      TriggerModified();
    }

    /** The loop of `ActivateRoutes`. */
    method SwitchOn(iface: string)
      modifies this`rtable
      ensures rtable == Activated(old(rtable), iface)
    {
      ghost var result := Activated(rtable, iface);
      var k := 0;
      Start(rtable, result);
      while k < |rtable|
        invariant k <= |rtable| && Swept(rtable, k, Activated(rtable[k..], iface), result)
        decreases |rtable| - k
      {
        var r := rtable[k];
        ghost var rest := Activated(rtable[k + 1..], iface);
        Next(rtable, k);
        if OnIface(r, iface) {
          Sets(rtable, k, r.(isActive := true), rest, result);
          rtable := rtable[k := r.(isActive := true)];
        } else {
          Keeps(rtable, k, rest, result);
        }
        k := k + 1;
      }
      End(rtable, k, result);
    }

    /** The rebuild of the path computation: the dynamic routes are replaced by freshly computed ones. */
    method ReplaceDynamic(computed: seq<Route>)
      requires Valid() && HasPorts(rtable) && HasPorts(computed)
      modifies this`rtable, hw
      ensures Valid() && multiset(rtable) == multiset(Statics(old(rtable)) + computed)
    {
      if isNetfpga {
        StaticsKnown(rtable, computed);
      }
      RemoveDynamic();
      rtable := rtable + computed;
      TriggerModified();
    }

    /** The loop of `ReplaceDynamic` that frees the dynamic routes. */
    method RemoveDynamic()
      modifies this`rtable
      ensures rtable == Statics(old(rtable))
    {
      ghost var result := Statics(rtable);
      var k := 0;
      Start(rtable, result);
      while k < |rtable|
        invariant k <= |rtable| && Swept(rtable, k, Statics(rtable[k..]), result)
        decreases |rtable| - k
      {
        ghost var rest := Statics(rtable[k + 1..]);
        Next(rtable, k);
        if !rtable[k].isStatic {
          Removes(rtable, k, rest, result);
          rtable := rtable[..k] + rtable[k + 1..];
        } else {
          Keeps(rtable, k, rest, result);
          k := k + 1;
        }
      }
      End(rtable, k, result);
    }
  }

  lemma {:induction false} StaticsKnown(rs: seq<Route>, more: seq<Route>)
    requires KnownIfaces(rs) && KnownIfaces(more)
    ensures KnownIfaces(Statics(rs) + more)
  {
    if rs != [] {
      StaticsKnown(rs[1..], more);
      assert rs[0] in rs;
    }
  }

  lemma {:induction false} FlaggedKnown(rs: seq<Route>, iface: string)
    requires KnownIfaces(rs)
    ensures KnownIfaces(Deactivated(rs, iface)) && KnownIfaces(Activated(rs, iface))
  {
    if rs != [] {
      FlaggedKnown(rs[1..], iface);
      assert rs[0] in rs;
    }
  }

  /** After every operation the hardware forwards by the route software picks. */
  lemma TableAgrees(t: Table, dst: Addr)
    requires t.Valid() && t.isNetfpga && ContiguousMasks(t.rtable) && KnownIfaces(t.rtable)
    ensures match HwLookup(t.hw[..], dst)
            case Some(row) => exists k :: LongestPrefix(t.rtable, dst, k) && Carries(row, t.rtable[k])
            case None => |Active(t.rtable)| <= DEPTH ==> NoMatch(t.rtable, dst)
  {
    HardwareRefinesSoftware(t.rtable, dst);
    forall k | Longest(t.rtable, dst, k) ensures LongestPrefix(t.rtable, dst, k) {
      LongestIff(t.rtable, dst, k);
    }
  }

  /**
   The rows hold the active routes in list order, as many as there is room for, and then zeros:
   `from` tells where in the list each of them is.
   */
  ghost predicate HoldsRows(rs: seq<Route>, rows: seq<HwRow>, from: seq<nat>) {
    && |rows| == 32 && (forall a, b :: 0 <= a < b < |from| ==> from[a] < from[b])
    && (forall k :: 0 <= k < |rs| ==> (k in from <==> rs[k].isActive))
    && (forall b :: 0 <= b < |from| ==> from[b] < |rs|)
    && forall j :: 0 <= j < 32 ==>
         if j < |from| then Carries(rows[j], rs[from[j]]) else rows[j] == HwRow(0, 0, 0, 0)
  }

  lemma {:induction false} ActiveIsFilter(rs: seq<Route>)
    ensures Active(rs) == Filter((r: Route) => r.isActive, rs)
  {
    if rs != [] {
      ActiveIsFilter(rs[1..]);
      FilterFirst((r: Route) => r.isActive, rs);
    }
  }

  lemma ImageHoldsActive(rs: seq<Route>)
    requires KnownIfaces(rs)
    ensures HoldsActive(rs, Image(rs))
  {
    var rows := Image(rs);
    ActiveIsFilter(rs);
    var from := FilterIsDrawn((r: Route) => r.isActive, rs);
    forall j | 0 <= j < DEPTH
      ensures if j < |from| then Carries(rows[j], rs[from[j]]) else rows[j] == HwRow(0, 0, 0, 0)
    {
      if j < |from| {
        RowCarries(rs[from[j]]);
      }
    }
    assert HoldsRows(rs, rows, from);
  }

  ghost predicate HoldsActive(rs: seq<Route>, rows: seq<HwRow>) {
    exists from :: HoldsRows(rs, rows, from)
  }

  /** From `cur` on the list holds the active routes from the `i`-th on. */
  ghost predicate Remaining(rs: seq<Route>, cur: nat, act: seq<Route>, i: nat)
    requires cur <= |rs|
  {
    Active(rs[cur..]) == if i < |act| then act[i..] else []
  }

  lemma RemainingStart(rs: seq<Route>, cur: nat)
    requires cur <= |rs| && Active(rs[cur..]) == Active(rs[0..])
    ensures Remaining(rs, cur, Active(rs), 0)
  {
    assert rs[0..] == rs && Active(rs)[0..] == Active(rs);
  }

  lemma RemainingNext(rs: seq<Route>, cur: nat, next: nat, act: seq<Route>, i: nat)
    requires cur < next <= |rs| && rs[cur].isActive && Active(rs[next..]) == Active(rs[cur + 1..])
    requires Remaining(rs, cur, act, i)
    ensures i < |act| && act[i] == rs[cur] && Remaining(rs, next, act, i + 1)
  {
    assert rs[cur..][0] == rs[cur] && rs[cur..][1..] == rs[cur + 1..];
    assert Active(rs[cur..]) == [rs[cur]] + Active(rs[cur + 1..]);
    assert act[i..][0] == act[i] && act[i..][1..] == act[i + 1..];
    assert ([rs[cur]] + Active(rs[cur + 1..]))[1..] == Active(rs[cur + 1..]);
  }

  lemma RemainingEnd(rs: seq<Route>, cur: nat, act: seq<Route>, i: nat)
    requires cur == |rs| && Remaining(rs, cur, act, i)
    ensures |act| <= i && Remaining(rs, cur, act, i + 1)
  {
    assert rs[cur..] == [];
  }

  /** One step of the sweep that deletes a route. */
  /** `rows` are the rows the hardware is to hold. */
  ghost predicate RowsOf(rs: seq<Route>, rows: seq<HwRow>) {
    && |rows| == DEPTH
    && forall j :: 0 <= j < DEPTH ==> rows[j] == if j < |Active(rs)| then RowOf(Active(rs)[j]) else ZERO_ROW
  }

  /** One row: the route under the cursor, or zeros at the end of the list. */
  method WriteRow(rs: seq<Route>, cur: nat, hw: array<HwRow>, i: nat, ghost rows: seq<HwRow>) returns (next: nat)
    requires hw.Length == DEPTH && i < DEPTH && RowsOf(rs, rows)
    requires cur <= |rs| && (cur < |rs| ==> rs[cur].isActive) && Remaining(rs, cur, Active(rs), i)
    modifies hw
    ensures hw[..] == old(hw[..])[i := rows[i]]
    ensures next <= |rs| && (next < |rs| ==> rs[next].isActive) && Remaining(rs, next, Active(rs), i + 1)
  {
    if cur < |rs| {
      var r := rs[cur];
      hw[i] := HwRow(r.ip, r.mask, r.gw, PortNumber(r.iface));
      next := NextActive(rs, cur + 1);
      RemainingNext(rs, cur, next, Active(rs), i);
    } else {
      RemainingEnd(rs, cur, Active(rs), i);
      hw[i] := ZERO_ROW;
      next := cur;
    }
  }

  /** Writes every row: the active routes in list order, then zero rows. */
  method FillRows(rs: seq<Route>, hw: array<HwRow>, ghost rows: seq<HwRow>)
    requires hw.Length == DEPTH && RowsOf(rs, rows)
    modifies hw
    ensures hw[..] == rows
  {
    var cur := NextActive(rs, 0);
    RemainingStart(rs, cur);
    for i := 0 to DEPTH
      invariant 0 <= cur <= |rs| && (cur < |rs| ==> rs[cur].isActive) && Remaining(rs, cur, Active(rs), i)
      invariant Filled(hw[..], rows, i)
    {
      FilledNext(hw[..], rows, i);
      cur := WriteRow(rs, cur, hw, i, rows);
    }
    assert hw[..] == rows;
  }

  /** The first `i` rows are written. */
  ghost predicate Filled(hw: seq<HwRow>, rows: seq<HwRow>, i: nat) {
    |hw| == |rows| && i <= |hw| && forall j :: 0 <= j < i ==> hw[j] == rows[j]
  }

  lemma FilledNext(hw: seq<HwRow>, rows: seq<HwRow>, i: nat)
    requires Filled(hw, rows, i) && i < |hw|
    ensures Filled(hw[i := rows[i]], rows, i + 1)
  {
  }

  /** The next active route at or after `from`. */
  method NextActive(rs: seq<Route>, from: nat) returns (k: nat)
    requires from <= |rs|
    ensures from <= k <= |rs| && (k < |rs| ==> rs[k].isActive)
    ensures Active(rs[k..]) == Active(rs[from..])
  {
    k := from;
    while k < |rs| && !rs[k].isActive
      invariant from <= k <= |rs| && Active(rs[k..]) == Active(rs[from..])
    {
      assert rs[k..][1..] == rs[k + 1..];
      k := k + 1;
    }
  }

  lemma {:induction false} WithoutKnown(rs: seq<Route>, dest: Addr, mask: Addr)
    requires KnownIfaces(rs)
    ensures KnownIfaces(WithoutRoute(rs, dest, mask)) && |WithoutRoute(rs, dest, mask)| <= |rs|
  {
    if rs != [] {
      WithoutKnown(rs[1..], dest, mask);
      assert rs[0] in rs;
    }
  }

  lemma SameLength(a: seq<Route>, b: seq<Route>)
    requires multiset(a) == multiset(b)
    ensures |a| == |b|
  {
    assert |multiset(a)| == |multiset(b)|;
  }

  lemma SameRoutesKnown(a: seq<Route>, b: seq<Route>)
    requires multiset(a) == multiset(b) && KnownIfaces(a)
    ensures KnownIfaces(b)
  {
    forall r | r in b ensures PortNumber(r.iface) != 0 {
      assert r in multiset(b);
      assert r in a;
    }
  }

  /** The loop over the 32 bits of a mask. */
  method CountBits(mask: Addr) returns (bits: nat)
    ensures bits == BitCount(mask)
  {
    bits := 0;
    for i := 0 to 32
      invariant bits + BitCount(ShiftRight(mask, i)) == BitCount(mask)
    {
      if ShiftRight(mask, i) % 2 == 1 {
        bits := bits + 1;
      }
    }
    ShiftedOut(mask);
  }

  lemma {:induction false} ShiftBound(m: nat, i: nat, j: nat)
    requires m < ShiftLeft(1, i + j)
    ensures ShiftRight(m, i) < ShiftLeft(1, j)
  {
    if i > 0 {
      ShiftBound(m, i - 1, j + 1);
    }
  }

  lemma ShiftedOut(mask: Addr)
    ensures ShiftRight(mask, 32) == 0
  {
    PowerOfTwo32();
    ShiftBound(mask, 32, 0);
  }

  lemma PowerOfTwo32()
    ensures ShiftLeft(1, 32) == 0x1_0000_0000
  {
    assert ShiftLeft(1, 8) == 256;
    assert ShiftLeft(1, 16) == 0x1_0000;
    assert ShiftLeft(1, 24) == 0x100_0000;
  }
}
