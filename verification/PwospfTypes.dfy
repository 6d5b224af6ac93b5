/**
 The records shared by the link-state protocol and the path computation
 (or_data_types.h). A linked list owned by one record is a `seq` field of that
 record; the routers themselves stay objects, because `prev_router` points at them.
 */
module PwospfTypes {

  /** An IPv4 address or mask, most significant octet first. */
  type Addr = x: int | 0 <= x < 0x1_0000_0000

  /** A 32-bit router identifier. Zero marks an interface without a neighbour. */
  type RouterId = x: int | 0 <= x < 0x1_0000_0000

  const BLANK: RouterId := 0

  datatype Option<+T> = None | Some(value: T)

  type Word16 = x: int | 0 <= x < 0x1_0000

  /** One entry of a router's interface list: a subnet and the router at its far end. */
  datatype Iface = Iface(subnet: Addr, mask: Addr, rid: RouterId, active: bool)

  /** Bitwise and, bit by bit from the least significant one. */
  function BitAnd(x: nat, y: nat): (z: nat)
    ensures z <= x && z <= y
  {
    if x == 0 || y == 0 then 0
    else 2 * BitAnd(x / 2, y / 2) + if x % 2 == 1 && y % 2 == 1 then 1 else 0
  }

  /** The subnet part of an address. */
  function Net(a: Addr, mask: Addr): Addr {
    BitAnd(a, mask)
  }

  lemma {:induction false} BitAndTwice(x: nat, y: nat)
    ensures BitAnd(BitAnd(x, y), y) == BitAnd(x, y)
  {
    if x != 0 && y != 0 {
      BitAndTwice(x / 2, y / 2);
    }
  }

  function Pow2(i: nat): (p: nat)
    ensures p > 0
  {
    if i == 0 then 1 else 2 * Pow2(i - 1)
  }

  /** The `i`-th bit of a number, counted from the least significant one. */
  predicate Bit(x: nat, i: nat) {
    x / Pow2(i) % 2 == 1
  }

  lemma AtLeastOnce(d: nat, n: int)
    requires d > 0
    ensures n >= 1 ==> d * n >= d
    ensures n <= -1 ==> d * n + d <= 0
  {
    if n >= 1 {
      assert d * n == d + d * (n - 1);
    } else if n <= -1 {
      assert d * n == d * (n + 1) - d;
    }
  }

  /** Quotient and remainder are determined. */
  lemma QuotientIs(x: nat, d: nat, q: nat, r: nat)
    requires x == d * q + r && r < d
    ensures x / d == q && x % d == r
  {
    var n := x / d - q;
    assert d * n == d * (x / d) - d * q;
    AtLeastOnce(d, n);
  }

  lemma HalfOf(x: nat, p: nat)
    requires p > 0
    ensures x / (2 * p) == x / 2 / p && x % (2 * p) == 2 * (x / 2 % p) + x % 2
  {
    var q, r := x / 2 / p, x / 2 % p;
    assert x / 2 == p * q + r;
    assert 2 * p * q == 2 * (p * q);
    QuotientIs(x, 2 * p, q, 2 * r + x % 2);
  }

  lemma NextBit(x: nat, i: nat)
    ensures Bit(x, i + 1) == Bit(x / 2, i)
  {
    HalfOf(x, Pow2(i));
  }

  /** A bit is set in the result exactly if it is set in both. */
  lemma {:induction false} BitAndBits(x: nat, y: nat, i: nat)
    ensures Bit(BitAnd(x, y), i) <==> Bit(x, i) && Bit(y, i)
    decreases i
  {
    if x == 0 || y == 0 {
      NoBits(i);
    } else if i > 0 {
      AndHalves(x, y);
      NextBit(x, i - 1);
      NextBit(y, i - 1);
      NextBit(BitAnd(x, y), i - 1);
      BitAndBits(x / 2, y / 2, i - 1);
    } else {
      LowestBit(x);
      LowestBit(y);
      LowestBit(BitAnd(x, y));
    }
  }

  lemma AndHalves(x: nat, y: nat)
    ensures BitAnd(x, y) / 2 == BitAnd(x / 2, y / 2)
  {
  }

  lemma LowestBit(x: nat)
    ensures Bit(x, 0) <==> x % 2 == 1
  {
    assert x / Pow2(0) == x;
  }

  lemma NoBits(i: nat)
    ensures !Bit(0, i)
  {
    assert 0 / Pow2(i) == 0;
  }

  /** A masked address is left alone by its mask. */
  lemma NetTwice(a: Addr, mask: Addr)
    ensures Net(Net(a, mask), mask) == Net(a, mask)
  {
    BitAndTwice(a, mask);
  }

  /** Every subnet of the list is masked. */
  predicate MaskedEntries(list: seq<Iface>) {
    forall i :: 0 <= i < |list| ==> Net(list[i].subnet, list[i].mask) == list[i].subnet
  }

  class PwospfRouter {
    const routerId: RouterId
    var seqno: Word16
    var lastUpdate: int
    var interfaces: seq<Iface>
    var distance: int
    var pathFound: bool
    var prev: PwospfRouter?

    constructor (rid: RouterId)
      ensures routerId == rid && seqno == 0 && interfaces == [] && distance == 0 && !pathFound && prev == null
    {
      routerId := rid;
      seqno, lastUpdate := 0, 0;
      interfaces := [];
      distance := 0;
      pathFound := false;
      prev := null;
    }
  }
}
