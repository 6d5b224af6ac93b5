/**
 Address translation (or_nat.c, or_utils.c populate_nat_packet). Addresses, ports and
 checksums are 16-bit words as a little-endian host reads them, byte-swapped.
 */
module Nat {
  import opened IpChecksum

  const ICMP := 1
  const TCP := 6
  const UDP := 17
  const ECHO_REPLY := 0
  const ECHO_REQUEST := 8

  datatype Ip = Ip(hi: Word, lo: Word)

  /** An address and a port with the complements of their sums. */
  datatype Pair = Pair(ip: Ip, port: Word, checksum: Word, checksumIp: Word, checksumPort: Word)

  function Swap(w: Word): Word {
    w % 0x100 * 0x100 + w / 0x100
  }

  /** The words in the byte order of the wire. */
  function Ordered(ws: seq<Word>): seq<Word> {
    seq(|ws|, i requires 0 <= i < |ws| => Swap(ws[i]))
  }

  ghost predicate Congruent(a: int, b: int) {
    (a - b) % FULL == 0
  }

  // ----- arithmetic on swapped words

  lemma CongruentUp(a: int, b: int, q: int)
    requires a - b == FULL * q
    ensures Congruent(a, b)
  {
  }

  lemma CongruentAdd(a: int, b: int, c: int, d: int)
    requires Congruent(a, b) && Congruent(c, d)
    ensures Congruent(a + c, b + d)
  {
    CongruentUp(a + c, b + d, (a - b) / FULL + (c - d) / FULL);
  }

  lemma CongruentScale(a: int, b: int)
    requires Congruent(a, b)
    ensures Congruent(0x100 * a, 0x100 * b)
  {
    CongruentUp(0x100 * a, 0x100 * b, 0x100 * ((a - b) / FULL));
  }

  lemma CongruentZero(a: int, b: int)
    requires Congruent(a, b)
    ensures a % FULL == 0 <==> b % FULL == 0
  {
    var k, i, j := (a - b) / FULL, a / FULL, b / FULL;
    assert a - b == FULL * k;
    if a % FULL == 0 {
      assert b == FULL * (i - k);
    }
    if b % FULL == 0 {
      assert a == FULL * (j + k);
    }
  }

  lemma SwapTwice(hi: nat, lo: nat)
    requires hi < 0x100 && lo < 0x100
    ensures Swap(hi * 0x100 + lo) == lo * 0x100 + hi
  {
  }

  /** Swapping multiplies by 256, and doing it twice changes nothing. */
  lemma SwapScales(w: Word)
    ensures Congruent(Swap(w), 0x100 * w) && Congruent(w, 0x100 * Swap(w)) && Swap(Swap(w)) == w
    ensures Swap(w) == 0 <==> w == 0
  {
    SwapTwice(w / 0x100, w % 0x100);
    CongruentUp(0x100 * w, Swap(w), w / 0x100);
    CongruentUp(0x100 * Swap(w), w, w % 0x100);
  }

  /** Sums of swapped words are 256 times the sums, and back. */
  lemma {:induction false} OrderedScales(ws: seq<Word>)
    ensures Congruent(Sum(Ordered(ws)), 0x100 * Sum(ws)) && Congruent(Sum(ws), 0x100 * Sum(Ordered(ws)))
    ensures Sum(ws) == 0 <==> Sum(Ordered(ws)) == 0
  {
    if ws != [] {
      var n := |ws| - 1;
      assert Ordered(ws)[..n] == Ordered(ws[..n]);
      OrderedScales(ws[..n]);
      SwapScales(ws[n]);
      var a, b := Sum(ws[..n]), Sum(Ordered(ws[..n]));
      var w: int, v: int := ws[n], Swap(ws[n]);
      CongruentAdd(b, 0x100 * a, v, 0x100 * w);
      CongruentAdd(a, 0x100 * b, w, 0x100 * v);
    }
  }

  /** The sum of the words verifies in the one byte order iff it does in the other. */
  lemma OrderedVerifies(ws: seq<Word>)
    ensures Verified(Ordered(ws)) <==> Verified(ws)
  {
    OrderedScales(ws);
    var a, b := Sum(ws), Sum(Ordered(ws));
    if a % FULL == 0 {
      CongruentScale(a, 0);
      CongruentZero(b, 0x100 * a);
    }
    if b % FULL == 0 {
      CongruentScale(b, 0);
      CongruentZero(a, 0x100 * b);
    }
  }

  /** The incremental update: `old` plus `pos` minus `neg`. */
  function NatChecksum(old_: Word, pos: Word, neg: Word): Word {
    var sum := old_ + pos;
    var folded := sum / 0x1_0000 + sum % 0x1_0000;
    var difference := (folded - neg) % 0x1_0000_0000;
    var borrowed := if difference > 0xFFFF then difference - 1 else difference;
    borrowed % 0x1_0000
  }

  /** Also where the subtraction wraps around. */
  lemma NatChecksumSound(old_: Word, pos: Word, neg: Word)
    ensures Congruent(NatChecksum(old_, pos, neg), old_ + pos - neg)
  {
    var sum := old_ + pos;
    var folded := sum / 0x1_0000 + sum % 0x1_0000;
    assert sum == FULL * (sum / 0x1_0000) + folded;
    if folded >= neg {
      CongruentUp(old_ + pos - neg, folded - neg, sum / 0x1_0000);
      assert NatChecksum(old_, pos, neg) == folded - neg;
    } else {
      assert (folded - neg) % 0x1_0000_0000 == 0x1_0000_0000 + folded - neg;
      assert NatChecksum(old_, pos, neg) == FULL + folded - neg;
      CongruentUp(old_ + pos - neg, FULL + folded - neg, sum / 0x1_0000 - 1);
    }
  }

  /** Rewriting there and back gives the old checksum, up to the two forms of zero. */
  lemma ThereAndBack(old_: Word, pos: Word, neg: Word)
    ensures var back := NatChecksum(NatChecksum(old_, pos, neg), neg, pos);
            back == old_ || (back == 0 && old_ == FULL) || (back == FULL && old_ == 0)
  {
    var there := NatChecksum(old_, pos, neg);
    var back := NatChecksum(there, neg, pos);
    NatChecksumSound(old_, pos, neg);
    NatChecksumSound(there, neg, pos);
    CongruentWords(back, old_, (back - (there + neg - pos)) / FULL + (there - (old_ + pos - neg)) / FULL);
  }

  lemma CongruentWords(a: Word, b: Word, k: int)
    requires a - b == FULL * k
    ensures a == b || (a == 0 && b == FULL) || (a == FULL && b == 0)
  {
    assert -1 <= k <= 1;
  }

  /** When the update of a zero checksum is zero again. */
  lemma ZeroStaysZero(pos: Word, neg: Word)
    ensures NatChecksum(0, pos, neg) == 0 <==> pos == neg || (pos == 0 && neg == FULL)
  {
    if pos < neg {
      assert (pos - neg) % 0x1_0000_0000 == 0x1_0000_0000 + pos - neg;
    }
  }

  // ----- the cached complements

  /** The caches hold the negatives of the sums. */
  ghost predicate Cached(p: Pair) {
    && (p.checksum + p.ip.hi + p.ip.lo + p.port) % FULL == 0
    && (p.checksumIp + p.ip.hi + p.ip.lo) % FULL == 0
    && p.checksumPort + p.port == FULL
  }

  /** Folds a sum of host-order words and complements it. */
  method Complement(t: nat) returns (c: Word)
    requires t < 0x100_0000
    ensures Completes(t, c)
  {
    FoldTwice(t);
    var sum := t / 0x1_0000 + t % 0x1_0000;
    sum := sum + sum / 0x1_0000;
    c := FULL - sum % 0x1_0000;
  }

  lemma ComplementSwaps(a: Word, b: Word, d: Word, c: Word)
    requires Completes(Swap(a) + Swap(b) + Swap(d), c)
    ensures (Swap(c) + a + b + d) % FULL == 0
  {
    SwapScales(a);
    SwapScales(b);
    SwapScales(d);
    SwapScales(c);
    CongruentAdd(a, 0x100 * Swap(a), b, 0x100 * Swap(b));
    CongruentAdd(a + b, 0x100 * (Swap(a) + Swap(b)), d, 0x100 * Swap(d));
    var t := Swap(a) + Swap(b) + Swap(d);
    CongruentAdd(Swap(c), 0x100 * c, a + b + d, 0x100 * t);
    CongruentScale(t + c, 0);
    CongruentZero(Swap(c) + a + b + d, 0x100 * (t + c));
  }

  method ComputeNatChecksums(pair: Pair) returns (p: Pair)
    ensures Cached(p) && p.ip == pair.ip && p.port == pair.port
  {
    var hi, lo := pair.ip.hi, pair.ip.lo;
    var s := Complement(Swap(hi) + Swap(lo) + Swap(pair.port));
    ComplementSwaps(hi, lo, pair.port, s);
    var sIp := Complement(Swap(hi) + Swap(lo));
    ComplementSwaps(hi, lo, 0, sIp);
    p := pair.(checksum := Swap(s), checksumIp := Swap(sIp), checksumPort := FULL - pair.port);
  }

  // ----- headers

  /** What translation leaves alone: the protocol, the ICMP type and the other covered words. */
  datatype Kind = Kind(proto: int, icmpType: int, rest: seq<Word>)

  /** What it rewrites; `id` is the identifier of an ICMP echo message. */
  datatype Header = Header(src: Ip, dst: Ip, sport: Word, dport: Word, id: Word, sum: Word)

  /** The packets translated by address and port: TCP, UDP and ICMP echo. */
  predicate Supported(k: Kind) {
    k.proto == TCP || k.proto == UDP || (k.proto == ICMP && (k.icmpType == ECHO_REQUEST || k.icmpType == ECHO_REPLY))
  }

  /** The words the transport checksum covers, with those of the pseudo header. */
  function Covered(k: Kind, h: Header): seq<Word>
    requires Supported(k)
  {
    if k.proto == ICMP then
      var messageType: Word := k.icmpType;
      [messageType, h.id, h.sum] + k.rest
    else
      var protocol: Word := k.proto * 0x100;
      [h.src.hi, h.src.lo, h.dst.hi, h.dst.lo, h.sport, h.dport, h.sum, protocol] + k.rest
  }

  /** The port that stands for the source of an outgoing packet. */
  function SrcPort(k: Kind, h: Header): Word {
    if k.proto == ICMP then h.id else h.sport
  }

  /** The port that stands for the destination of an incoming packet. */
  function DstPort(k: Kind, h: Header): Word {
    if k.proto == ICMP then h.id else h.dport
  }

  /** An incoming packet for the external pair is redirected to the internal one. */
  function Inbound(k: Kind, h: Header, ext: Pair, int_: Pair): Header {
    if k.proto == ICMP then
      h.(dst := int_.ip, id := int_.port, sum := NatChecksum(h.sum, int_.checksumPort, ext.checksumPort))
    else
      h.(dst := int_.ip, dport := int_.port, sum := NatChecksum(h.sum, int_.checksum, ext.checksum))
  }

  /** An outgoing packet from the internal pair is made to come from the external one. */
  function Outbound(k: Kind, h: Header, ext: Pair, int_: Pair): Header {
    if k.proto == ICMP then
      h.(src := ext.ip, id := ext.port, sum := NatChecksum(h.sum, ext.checksumPort, int_.checksumPort))
    else
      h.(src := ext.ip, sport := ext.port, sum := NatChecksum(h.sum, ext.checksum, int_.checksum))
  }

  lemma {:induction false} SumAppend(a: seq<Word>, b: seq<Word>)
    ensures Sum(a + b) == Sum(a) + Sum(b)
  {
    if b == [] {
      assert a + b == a;
    } else {
      assert (a + b)[..|a + b| - 1] == a + b[..|b| - 1];
      SumAppend(a, b[..|b| - 1]);
    }
  }

  lemma SumOf2(a: Word, b: Word)
    ensures Sum([a, b]) == a + b
  {
    assert [a, b][..1] == [a] && [a][..0] == [];
    assert Sum([a]) == a;
  }

  lemma SumOf3(a: Word, b: Word, c: Word)
    ensures Sum([a, b, c]) == a + b + c
  {
    assert [a, b, c][..2] == [a, b];
    SumOf2(a, b);
  }

  /** What the covered words sum to. */
  lemma CoveredSum(k: Kind, h: Header)
    requires Supported(k)
    ensures Sum(Covered(k, h)) == Sum(k.rest) + h.sum +
              if k.proto == ICMP then k.icmpType + h.id
              else h.src.hi + h.src.lo + h.dst.hi + h.dst.lo + h.sport + h.dport + k.proto * 0x100
  {
    if k.proto == ICMP {
      var messageType: Word := k.icmpType;
      SumOf3(messageType, h.id, h.sum);
      SumAppend([messageType, h.id, h.sum], k.rest);
    } else {
      var protocol: Word := k.proto * 0x100;
      var a, b, c := [h.src.hi, h.src.lo, h.dst.hi], [h.dst.lo, h.sport, h.dport], [h.sum, protocol];
      SumOf3(h.src.hi, h.src.lo, h.dst.hi);
      SumOf3(h.dst.lo, h.sport, h.dport);
      SumOf2(h.sum, protocol);
      SumAppend(a, b);
      SumAppend(a + b, c);
      SumAppend(a + b + c, k.rest);
      assert a + b + c == [h.src.hi, h.src.lo, h.dst.hi, h.dst.lo, h.sport, h.dport, h.sum, protocol];
    }
  }

  /**
   One address and port give way to another: the sum changes by their difference, and the
   adjusted checksum makes up for it.
   */
  lemma AdjustmentBalances(before: int, after: int, old_: Word, gone: Pair, come: Pair)
    requires Cached(gone) && Cached(come)
    requires var new_ := NatChecksum(old_, come.checksum, gone.checksum);
             after - before == new_ - old_ + come.ip.hi + come.ip.lo + come.port - gone.ip.hi - gone.ip.lo - gone.port
    ensures Congruent(after, before)
  {
    var new_ := NatChecksum(old_, come.checksum, gone.checksum);
    NatChecksumSound(old_, come.checksum, gone.checksum);
    var q := (new_ - (old_ + come.checksum - gone.checksum)) / FULL;
    var qc := (come.checksum + come.ip.hi + come.ip.lo + come.port) / FULL;
    var qg := (gone.checksum + gone.ip.hi + gone.ip.lo + gone.port) / FULL;
    CongruentUp(after, before, q + qc - qg);
  }

  /** The same for the identifier of an echo message. */
  lemma PortAdjustmentBalances(before: int, after: int, old_: Word, gone: Pair, come: Pair)
    requires Cached(gone) && Cached(come)
    requires after - before == NatChecksum(old_, come.checksumPort, gone.checksumPort) - old_ + come.port - gone.port
    ensures Congruent(after, before)
  {
    var new_ := NatChecksum(old_, come.checksumPort, gone.checksumPort);
    NatChecksumSound(old_, come.checksumPort, gone.checksumPort);
    CongruentUp(after, before, (new_ - (old_ + come.checksumPort - gone.checksumPort)) / FULL);
  }

  /**
   What congruent sums mean to the receiver, who sees the words in wire order: a message with
   a nonzero word is accepted after the rewrite iff it was before.
   */
  lemma CongruentVerifies(before: seq<Word>, after: seq<Word>)
    requires Congruent(Sum(after), Sum(before)) && Sum(before) > 0 && Sum(after) > 0
    ensures Verified(Ordered(after)) <==> Verified(Ordered(before))
  {
    OrderedVerifies(before);
    OrderedVerifies(after);
    CongruentZero(Sum(after), Sum(before));
  }

  /** The sums agree, and so does the verdict of the receiver unless a message is all zeros. */
  ghost predicate Balanced(before: seq<Word>, after: seq<Word>) {
    && Congruent(Sum(after), Sum(before))
    && (Sum(before) > 0 && Sum(after) > 0 ==> (Verified(Ordered(after)) <==> Verified(Ordered(before))))
  }

  lemma Balances(before: seq<Word>, after: seq<Word>)
    requires Congruent(Sum(after), Sum(before))
    ensures Balanced(before, after)
  {
    if Sum(before) > 0 && Sum(after) > 0 {
      CongruentVerifies(before, after);
    }
  }

  /** Incoming: rewriting the destination keeps the checksum as valid as it was. */
  lemma InboundBalances(k: Kind, h: Header, ext: Pair, int_: Pair)
    requires Supported(k) && Cached(ext) && Cached(int_) && h.dst == ext.ip && DstPort(k, h) == ext.port
    ensures Balanced(Covered(k, h), Covered(k, Inbound(k, h, ext, int_)))
  {
    var h' := Inbound(k, h, ext, int_);
    CoveredSum(k, h);
    CoveredSum(k, h');
    var before, after := Sum(Covered(k, h)), Sum(Covered(k, h'));
    if k.proto == ICMP {
      PortAdjustmentBalances(before, after, h.sum, ext, int_);
    } else {
      AdjustmentBalances(before, after, h.sum, ext, int_);
    }
    Balances(Covered(k, h), Covered(k, h'));
  }

  /** Outgoing: so does rewriting the source. */
  lemma OutboundBalances(k: Kind, h: Header, ext: Pair, int_: Pair)
    requires Supported(k) && Cached(ext) && Cached(int_) && h.src == int_.ip && SrcPort(k, h) == int_.port
    ensures Balanced(Covered(k, h), Covered(k, Outbound(k, h, ext, int_)))
  {
    var h' := Outbound(k, h, ext, int_);
    CoveredSum(k, h);
    CoveredSum(k, h');
    var before, after := Sum(Covered(k, h)), Sum(Covered(k, h'));
    if k.proto == ICMP {
      PortAdjustmentBalances(before, after, h.sum, int_, ext);
    } else {
      AdjustmentBalances(before, after, h.sum, int_, ext);
    }
    Balances(Covered(k, h), Covered(k, h'));
  }

  /** The receiver accepts the segment; a zero UDP checksum says that there is none. */
  ghost predicate Accepted(k: Kind, h: Header)
    requires Supported(k)
  {
    (k.proto == UDP && h.sum == 0) || Verified(Ordered(Covered(k, h)))
  }

  /** The pseudo header of TCP and UDP is never all zeros, nor is an echo request. */
  lemma CoveredPositive(k: Kind, h: Header)
    requires Supported(k) && (k.proto == ICMP ==> k.icmpType == ECHO_REQUEST)
    ensures Sum(Covered(k, h)) > 0
  {
    CoveredSum(k, h);
  }

  /** TCP and echo requests, and UDP with a checksum: what the receiver accepted, it still accepts. */
  lemma AcceptedAfterOutbound(k: Kind, h: Header, ext: Pair, int_: Pair)
    requires Supported(k) && (k.proto == ICMP ==> k.icmpType == ECHO_REQUEST) && (k.proto == UDP ==> h.sum != 0)
    requires Cached(ext) && Cached(int_) && h.src == int_.ip && SrcPort(k, h) == int_.port
    ensures Accepted(k, h) ==> Accepted(k, Outbound(k, h, ext, int_))
    ensures k.proto != UDP ==> (Accepted(k, h) <==> Accepted(k, Outbound(k, h, ext, int_)))
  {
    OutboundBalances(k, h, ext, int_);
    CoveredPositive(k, h);
    CoveredPositive(k, Outbound(k, h, ext, int_));
  }

  /** The same for incoming packets. */
  lemma AcceptedAfterInbound(k: Kind, h: Header, ext: Pair, int_: Pair)
    requires Supported(k) && (k.proto == ICMP ==> k.icmpType == ECHO_REQUEST) && (k.proto == UDP ==> h.sum != 0)
    requires Cached(ext) && Cached(int_) && h.dst == ext.ip && DstPort(k, h) == ext.port
    ensures Accepted(k, h) ==> Accepted(k, Inbound(k, h, ext, int_))
    ensures k.proto != UDP ==> (Accepted(k, h) <==> Accepted(k, Inbound(k, h, ext, int_)))
  {
    InboundBalances(k, h, ext, int_);
    CoveredPositive(k, h);
    CoveredPositive(k, Inbound(k, h, ext, int_));
  }

  /**
   A UDP segment without a checksum is given one. It is then accepted iff the segment happened
   to sum to zero anyway, or both pairs have the same complement, or the two forms of zero.
   */
  lemma ZeroUdpAcceptedIff(k: Kind, h: Header, ext: Pair, int_: Pair)
    requires k.proto == UDP && h.sum == 0
    requires Cached(ext) && Cached(int_) && h.src == int_.ip && h.sport == int_.port
    ensures Accepted(k, Outbound(k, h, ext, int_)) <==>
            || Verified(Ordered(Covered(k, h)))
            || ext.checksum == int_.checksum || (ext.checksum == 0 && int_.checksum == FULL)
  {
    OutboundBalances(k, h, ext, int_);
    CoveredPositive(k, h);
    CoveredPositive(k, Outbound(k, h, ext, int_));
    ZeroStaysZero(ext.checksum, int_.checksum);
  }

  /** So is an incoming one. */
  lemma ZeroUdpInboundAcceptedIff(k: Kind, h: Header, ext: Pair, int_: Pair)
    requires k.proto == UDP && h.sum == 0
    requires Cached(ext) && Cached(int_) && h.dst == ext.ip && h.dport == ext.port
    ensures Accepted(k, Inbound(k, h, ext, int_)) <==>
            || Verified(Ordered(Covered(k, h)))
            || ext.checksum == int_.checksum || (int_.checksum == 0 && ext.checksum == FULL)
  {
    InboundBalances(k, h, ext, int_);
    CoveredPositive(k, h);
    CoveredPositive(k, Inbound(k, h, ext, int_));
    ZeroStaysZero(int_.checksum, ext.checksum);
  }

  /** Such a segment: an empty datagram that is lost behind the translator. */
  lemma ZeroUdpIsLost()
    ensures var k, h := Kind(UDP, 0, []), Header(Ip(0, 1), Ip(0, 2), 0, 0, 0, 0);
            var int_, ext := Pair(Ip(0, 1), 0, FULL - 1, FULL - 1, FULL), Pair(Ip(0, 3), 0, FULL - 3, FULL - 3, FULL);
            Cached(ext) && Cached(int_) && Accepted(k, h) && !Accepted(k, Outbound(k, h, ext, int_))
  {
    var k, h := Kind(UDP, 0, []), Header(Ip(0, 1), Ip(0, 2), 0, 0, 0, 0);
    var int_, ext := Pair(Ip(0, 1), 0, FULL - 1, FULL - 1, FULL), Pair(Ip(0, 3), 0, FULL - 3, FULL - 3, FULL);
    ZeroUdpAcceptedIff(k, h, ext, int_);
    CoveredSum(k, h);
    OrderedVerifies(Covered(k, h));
  }

  /**
   An incoming echo reply that was accepted still is, unless it becomes all zeros: nothing
   else in it, a zero identifier, and a checksum that the adjustment brings to zero.
   */
  lemma EchoReplyAcceptedIff(k: Kind, h: Header, ext: Pair, int_: Pair)
    requires k.proto == ICMP && k.icmpType == ECHO_REPLY && Accepted(k, h)
    requires Cached(ext) && Cached(int_) && h.dst == ext.ip && h.id == ext.port
    ensures Accepted(k, Inbound(k, h, ext, int_)) <==> Sum(k.rest) > 0 || int_.port > 0 || ext.port == FULL
  {
    var h' := Inbound(k, h, ext, int_);
    InboundBalances(k, h, ext, int_);
    CoveredSum(k, h);
    CoveredSum(k, h');
    var before, after := Covered(k, h), Covered(k, h');
    OrderedVerifies(after);
    OrderedVerifies(before);
    assert Sum(before) > 0 && Sum(after) == Sum(k.rest) + h'.sum + int_.port;
    if Sum(k.rest) == 0 && int_.port == 0 {
      assert Sum(before) == h.sum + ext.port;
      ZeroIdentifier(h.sum, ext.port);
      assert h'.sum == NatChecksum(h.sum, FULL, FULL - ext.port);
      assert Sum(after) > 0 <==> ext.port == FULL;
    } else {
      assert Sum(after) > 0;
    }
    assert Sum(after) > 0 ==> Verified(Ordered(after));
  }

  /** The same for an outgoing reply: it is the external identifier that may be zero. */
  lemma EchoReplyOutboundAcceptedIff(k: Kind, h: Header, ext: Pair, int_: Pair)
    requires k.proto == ICMP && k.icmpType == ECHO_REPLY && Accepted(k, h)
    requires Cached(ext) && Cached(int_) && h.src == int_.ip && h.id == int_.port
    ensures Accepted(k, Outbound(k, h, ext, int_)) <==> Sum(k.rest) > 0 || ext.port > 0 || int_.port == FULL
  {
    var h' := Outbound(k, h, ext, int_);
    OutboundBalances(k, h, ext, int_);
    CoveredSum(k, h);
    CoveredSum(k, h');
    var before, after := Covered(k, h), Covered(k, h');
    OrderedVerifies(after);
    OrderedVerifies(before);
    assert Sum(before) > 0 && Sum(after) == Sum(k.rest) + h'.sum + ext.port;
    if Sum(k.rest) == 0 && ext.port == 0 {
      assert Sum(before) == h.sum + int_.port;
      ZeroIdentifier(h.sum, int_.port);
      assert h'.sum == NatChecksum(h.sum, FULL, FULL - int_.port);
      assert Sum(after) > 0 <==> int_.port == FULL;
    } else {
      assert Sum(after) > 0;
    }
    assert Sum(after) > 0 ==> Verified(Ordered(after));
  }

  lemma ZeroIdentifier(sum: Word, port: Word)
    requires (sum + port) % FULL == 0 && sum + port > 0
    ensures NatChecksum(sum, FULL, FULL - port) == if port == FULL then FULL else 0
  {
    assert sum + port == FULL || sum + port == 2 * FULL;
    if sum > 0 {
      assert (sum + FULL) / 0x1_0000 == 1;
    }
  }

  /** Such a reply: identifier 5 outside and 0 inside, and no other word. */
  lemma ZeroEchoReplyIsLost()
    ensures var k, h := Kind(ICMP, ECHO_REPLY, []), Header(Ip(0, 1), Ip(0, 2), 0, 0, 5, FULL - 5);
            var int_, ext := Pair(Ip(0, 3), 0, FULL - 3, FULL - 3, FULL),
                Pair(Ip(0, 2), 5, FULL - 7, FULL - 2, FULL - 5);
            Cached(ext) && Cached(int_) && Accepted(k, h) && !Accepted(k, Inbound(k, h, ext, int_))
  {
    var k, h := Kind(ICMP, ECHO_REPLY, []), Header(Ip(0, 1), Ip(0, 2), 0, 0, 5, FULL - 5);
    var int_, ext := Pair(Ip(0, 3), 0, FULL - 3, FULL - 3, FULL), Pair(Ip(0, 2), 5, FULL - 7, FULL - 2, FULL - 5);
    CoveredSum(k, h);
    OrderedVerifies(Covered(k, h));
    EchoReplyAcceptedIff(k, h, ext, int_);
  }

  // ----- there and back

  /** The segment sent back by its receiver. */
  function Reflect(h: Header): Header {
    Header(h.dst, h.src, h.dport, h.sport, h.id, h.sum)
  }

  ghost predicate SameChecksum(a: Word, b: Word) {
    a == b || (a == 0 && b == FULL) || (a == FULL && b == 0)
  }

  /**
   An outgoing segment that comes back is delivered to its sender as if it had not been
   translated, its checksum the same up to the two forms of zero.
   */
  lemma ReflectedReturns(k: Kind, h: Header, ext: Pair, int_: Pair)
    requires Supported(k) && Cached(ext) && Cached(int_) && h.src == int_.ip && SrcPort(k, h) == int_.port
    ensures var back := Inbound(k, Reflect(Outbound(k, h, ext, int_)), ext, int_);
            back == Reflect(h).(sum := back.sum) && SameChecksum(back.sum, h.sum)
  {
    if k.proto == ICMP {
      ThereAndBack(h.sum, ext.checksumPort, int_.checksumPort);
    } else {
      ThereAndBack(h.sum, ext.checksum, int_.checksum);
    }
  }

  // ----- packets and the table

  class Packet {
    const kind: Kind
    var src: Ip
    var dst: Ip
    var sport: Word
    var dport: Word
    var id: Word
    var sum: Word

    constructor (kind: Kind, h: Header)
      ensures this.kind == kind && Head() == h
    {
      this.kind, src, dst, sport, dport, id, sum := kind, h.src, h.dst, h.sport, h.dport, h.id, h.sum;
    }

    function Head(): Header
      reads this
    {
      Header(src, dst, sport, dport, id, sum)
    }
  }

  class NatEntry {
    const natExt: Pair
    const natInt: Pair
    var hits: nat

    constructor (natExt: Pair, natInt: Pair)
      ensures this.natExt == natExt && this.natInt == natInt && hits == 0
    {
      this.natExt, this.natInt, hits := natExt, natInt, 0;
    }
  }

  predicate HasExt(e: NatEntry, ip: Ip, port: Word) {
    e.natExt.ip == ip && e.natExt.port == port
  }

  predicate HasInt(e: NatEntry, ip: Ip, port: Word) {
    e.natInt.ip == ip && e.natInt.port == port
  }

  /** Overwrites the address and the port or identifier on one side of a packet. */
  method PopulateNatPacket(p: Packet, e: NatEntry, outbound: bool)
    modifies p
    ensures var h := old(p.Head());
            p.Head() == if outbound then
                          (if p.kind.proto == ICMP then h.(src := e.natExt.ip, id := e.natExt.port)
                           else h.(src := e.natExt.ip, sport := e.natExt.port))
                        else if p.kind.proto == ICMP then h.(dst := e.natInt.ip, id := e.natInt.port)
                        else h.(dst := e.natInt.ip, dport := e.natInt.port)
  {
    if outbound {
      p.src := e.natExt.ip;
      if p.kind.proto == ICMP { p.id := e.natExt.port; } else { p.sport := e.natExt.port; }
    } else {
      p.dst := e.natInt.ip;
      if p.kind.proto == ICMP { p.id := e.natInt.port; } else { p.dport := e.natInt.port; }
    }
  }

  /** The uniqueness test of a drawn port: no stored external port equals it. */
  predicate PassesUniqueTest(stored: seq<Word>, port: Word) {
    port !in stored
  }

  /** A port may be used if it is not privileged and passes the test. */
  predicate MayUse(stored: seq<Word>, port: Word) {
    port > 1024 && PassesUniqueTest(stored, port)
  }

  /** The first of the drawn ports that may be used. */
  ghost predicate FirstUsable(stored: seq<Word>, draws: seq<Word>, port: Word) {
    exists k :: 0 <= k < |draws| && draws[k] == port && MayUse(stored, port)
                && forall j :: 0 <= j < k ==> !MayUse(stored, draws[j])
  }

  /**
   The test compares a port in host order with stored ones in wire order. It tells whether
   the port that will be stored is new if and only if the two orders agree: equal bytes.
   */
  lemma UniqueTestRightIff(port: Word)
    ensures (forall stored :: PassesUniqueTest(stored, port) <==> Swap(port) !in stored) <==>
            port % 0x100 == port / 0x100
  {
    if forall stored :: PassesUniqueTest(stored, port) <==> Swap(port) !in stored {
      assert PassesUniqueTest([Swap(port)], port) <==> Swap(port) !in [Swap(port)];
      assert port == Swap(port);
    } else {
      assert port != Swap(port);
    }
  }

  /** The external ports of the entries, as they are stored. */
  function ExtPorts(entries: seq<NatEntry>): (ports: seq<Word>)
    ensures |ports| == |entries| && forall i :: 0 <= i < |entries| ==> ports[i] == entries[i].natExt.port
  {
    seq(|entries|, i requires 0 <= i < |entries| => entries[i].natExt.port)
  }

  /** No two entries share an external pair. */
  ghost predicate DistinctExt(entries: seq<NatEntry>) {
    forall i, j :: 0 <= i < j < |entries| ==> !HasExt(entries[i], entries[j].natExt.ip, entries[j].natExt.port)
  }

  /** The pair is some entry's external one. */
  ghost predicate TakenExt(entries: seq<NatEntry>, ip: Ip, port: Word) {
    exists i :: 0 <= i < |entries| && HasExt(entries[i], ip, port)
  }

  /** A new entry keeps the external pairs distinct if and only if its pair was not taken. */
  lemma DistinctExtIff(entries: seq<NatEntry>, e: NatEntry)
    requires DistinctExt(entries)
    ensures DistinctExt(entries + [e]) <==> !TakenExt(entries, e.natExt.ip, e.natExt.port)
  {
    var all, n := entries + [e], |entries|;
    if DistinctExt(all) {
      forall i | 0 <= i < n ensures !HasExt(entries[i], e.natExt.ip, e.natExt.port) {
        assert !HasExt(all[i], all[n].natExt.ip, all[n].natExt.port);
      }
    }
  }

  class NatTable {
    var entries: seq<NatEntry>

    /** Caches are right, and no two entries serve one internal pair. */
    ghost predicate Valid()
      reads this
    {
      && (forall i :: 0 <= i < |entries| ==> Cached(entries[i].natExt) && Cached(entries[i].natInt))
      && forall i, j :: 0 <= i < j < |entries| ==> !HasInt(entries[i], entries[j].natInt.ip, entries[j].natInt.port)
    }

    constructor ()
      ensures Valid() && entries == []
    {
      entries := [];
    }

    /** The first entry for the packet's destination. */
    method FindExternal(p: Packet) returns (k: nat)
      ensures k <= |entries| && (k < |entries| ==> HasExt(entries[k], p.dst, DstPort(p.kind, p.Head())))
      ensures forall j :: 0 <= j < k ==> !HasExt(entries[j], p.dst, DstPort(p.kind, p.Head()))
    {
      k := 0;
      while k < |entries| && !HasExt(entries[k], p.dst, DstPort(p.kind, p.Head()))
        invariant k <= |entries|
        invariant forall j :: 0 <= j < k ==> !HasExt(entries[j], p.dst, DstPort(p.kind, p.Head()))
      {
        k := k + 1;
      }
    }

    /** The first entry for the packet's source. */
    method FindInternal(p: Packet) returns (k: nat)
      ensures k <= |entries| && (k < |entries| ==> HasInt(entries[k], p.src, SrcPort(p.kind, p.Head())))
      ensures forall j :: 0 <= j < k ==> !HasInt(entries[j], p.src, SrcPort(p.kind, p.Head()))
    {
      k := 0;
      while k < |entries| && !HasInt(entries[k], p.src, SrcPort(p.kind, p.Head()))
        invariant k <= |entries|
        invariant forall j :: 0 <= j < k ==> !HasInt(entries[j], p.src, SrcPort(p.kind, p.Head()))
      {
        k := k + 1;
      }
    }

    /** The loop over the stored ports. */
    method IsUniqueNatExtPort(port: Word) returns (unique: bool)
      ensures unique <==> PassesUniqueTest(ExtPorts(entries), port)
    {
      for i := 0 to |entries|
        invariant forall j :: 0 <= j < i ==> entries[j].natExt.port != port
      {
        if entries[i].natExt.port == port {
          assert ExtPorts(entries)[i] == port;
          return false;
        }
      }
      return true;
    }

    /** Draws random ports until one may be used. */
    method DrawPort(draws: seq<Word>) returns (port: Word)
      requires exists k :: 0 <= k < |draws| && MayUse(ExtPorts(entries), draws[k])
      ensures FirstUsable(ExtPorts(entries), draws, port)
      ensures 1024 < port && forall i :: 0 <= i < |entries| ==> entries[i].natExt.port != port
      ensures exists k :: 0 <= k < |draws| && draws[k] == port && forall j :: 0 <= j < k ==>
                draws[j] <= 1024 || exists i :: 0 <= i < |entries| && entries[i].natExt.port == draws[j]
    {
      var k := 0;
      while true
        invariant 0 <= k < |draws| && exists j :: k <= j < |draws| && MayUse(ExtPorts(entries), draws[j])
        invariant forall j :: 0 <= j < k ==> !MayUse(ExtPorts(entries), draws[j])
        decreases |draws| - k
      {
        var unique := IsUniqueNatExtPort(draws[k]);
        if draws[k] > 1024 && unique {
          return draws[k];
        }
        assert draws[k] <= 1024 || exists i :: 0 <= i < |entries| && entries[i].natExt.port == draws[k];
        k := k + 1;
      }
    }

    /**
     Appends an entry that maps the packet's source to the router's address and a drawn port.
     The external pairs stay distinct if and only if the pair was not taken, which the test
     of the port does not tell.
     */
    method CreateEntry(p: Packet, extIp: Ip, draws: seq<Word>) returns (e: NatEntry, port: Word)
      requires Valid()
      requires forall j :: 0 <= j < |entries| ==> !HasInt(entries[j], p.src, SrcPort(p.kind, p.Head()))
      requires exists k :: 0 <= k < |draws| && MayUse(ExtPorts(entries), draws[k])
      modifies this
      ensures Valid() && fresh(e) && entries == old(entries) + [e]
      ensures FirstUsable(ExtPorts(old(entries)), draws, port)
      ensures HasExt(e, extIp, Swap(port)) && HasInt(e, p.src, SrcPort(p.kind, p.Head())) && e.hits == 0
      ensures DistinctExt(old(entries)) ==> (DistinctExt(entries) <==> !TakenExt(old(entries), extIp, Swap(port)))
    {
      port := DrawPort(draws);
      var ext := ComputeNatChecksums(Pair(extIp, Swap(port), 0, 0, 0));
      var int_ := ComputeNatChecksums(Pair(p.src, SrcPort(p.kind, p.Head()), 0, 0, 0));
      e := new NatEntry(ext, int_);
      if DistinctExt(entries) {
        DistinctExtIff(entries, e);
      }
      entries := entries + [e];
    }

    /** A packet from outside: redirected to the internal pair of the first entry it matches. */
    method ProcessNatExtPacket(p: Packet) returns (k: nat)
      requires Valid() && Supported(p.kind)
      modifies p, entries
      ensures Valid() && entries == old(entries) && k <= |entries|
      ensures forall j :: 0 <= j < k ==> !HasExt(entries[j], old(p.dst), DstPort(p.kind, old(p.Head())))
      ensures k < |entries| ==> HasExt(entries[k], old(p.dst), DstPort(p.kind, old(p.Head())))
      ensures (exists j :: 0 <= j < |entries| && entries[j].natExt.ip == old(p.dst) &&
                           entries[j].natExt.port == if p.kind.proto == 1 then old(p.id) else old(p.dport)) ==>
                k < |entries|
      ensures p.Head() == if k < |entries| then Inbound(p.kind, old(p.Head()), entries[k].natExt, entries[k].natInt)
                          else old(p.Head())
      ensures k < |entries| ==> entries[k].hits == old(entries[k].hits) + 1
      ensures Balanced(Covered(p.kind, old(p.Head())), Covered(p.kind, p.Head()))
    {
      k := FindExternal(p);
      if k < |entries| {
        var e := entries[k];
        e.hits := e.hits + 1;
        InboundBalances(p.kind, p.Head(), e.natExt, e.natInt);
        PopulateNatPacket(p, e, false);
        if p.kind.proto == ICMP {
          p.sum := NatChecksum(p.sum, e.natInt.checksumPort, e.natExt.checksumPort);
        } else {
          p.sum := NatChecksum(p.sum, e.natInt.checksum, e.natExt.checksum);
        }
      } else {
        Balances(Covered(p.kind, p.Head()), Covered(p.kind, p.Head()));
      }
    }

    /** A packet from inside: a new source gets an entry; then it leaves from the external pair. */
    method ProcessNatIntPacket(p: Packet, extIp: Ip, draws: seq<Word>) returns (e: NatEntry)
      requires Valid() && Supported(p.kind)
      requires
        || (exists j :: 0 <= j < |entries| && HasInt(entries[j], p.src, SrcPort(p.kind, p.Head())))
        || (exists k :: 0 <= k < |draws| && MayUse(ExtPorts(entries), draws[k]))
      modifies this, p, entries
      ensures Valid() && e in entries && HasInt(e, old(p.src), SrcPort(p.kind, old(p.Head())))
      ensures if e in old(entries) then entries == old(entries) && e.hits == old(e.hits) + 1
              else NewEntry(old(entries), entries, e, extIp, draws) && fresh(e) && e.hits == 1
      ensures p.Head() == Outbound(p.kind, old(p.Head()), e.natExt, e.natInt)
      ensures Balanced(Covered(p.kind, old(p.Head())), Covered(p.kind, p.Head()))
    {
      var k := FindInternal(p);
      if k < |entries| {
        e := entries[k];
      } else {
        var port;
        e, port := CreateEntry(p, extIp, draws);
        assert e == entries[|entries| - 1];
      }
      OutboundBalances(p.kind, p.Head(), e.natExt, e.natInt);
      PopulateNatPacket(p, e, true);
      e.hits := e.hits + 1;
      if p.kind.proto == ICMP {
        p.sum := NatChecksum(p.sum, e.natExt.checksumPort, e.natInt.checksumPort);
      } else {
        p.sum := NatChecksum(p.sum, e.natExt.checksum, e.natInt.checksum);
      }
    }
  }

  /** The table has one entry more, for the address and a drawn port. */
  ghost predicate NewEntry(before: seq<NatEntry>, after: seq<NatEntry>, e: NatEntry, extIp: Ip, draws: seq<Word>) {
    && after == before + [e]
    && exists port :: FirstUsable(ExtPorts(before), draws, port) && HasExt(e, extIp, Swap(port))
  }

  /** A packet from a new source draws a port that passes the test. */
  method DrawOnce(t: NatTable, p: Packet, extIp: Ip, port: Word) returns (e: NatEntry)
    requires t.Valid() && Supported(p.kind) && MayUse(ExtPorts(t.entries), port)
    requires forall j :: 0 <= j < |t.entries| ==> !HasInt(t.entries[j], p.src, SrcPort(p.kind, p.Head()))
    modifies t, p, t.entries
    ensures t.Valid() && t.entries == old(t.entries) + [e] && fresh(e)
    ensures HasExt(e, extIp, Swap(port)) && HasInt(e, old(p.src), SrcPort(p.kind, old(p.Head())))
  {
    assert [port][0] == port;
    e := t.ProcessNatIntPacket(p, extIp, [port]);
  }

  /**
   Two new sources that draw the same port share an external pair, although the port passed
   the test each time: every unprivileged port whose two bytes differ does this.
   */
  method DrawnTwice(p: Packet, q: Packet, extIp: Ip, port: Word) returns (t: NatTable)
    requires port > 1024 && port % 0x100 != port / 0x100
    requires p != q && Supported(p.kind) && Supported(q.kind)
    requires p.src != q.src || SrcPort(p.kind, p.Head()) != SrcPort(q.kind, q.Head())
    modifies p, q
    ensures t.Valid() && |t.entries| == 2 && !DistinctExt(t.entries)
    ensures HasInt(t.entries[0], old(p.src), SrcPort(p.kind, old(p.Head())))
    ensures HasInt(t.entries[1], old(q.src), SrcPort(q.kind, old(q.Head())))
  {
    t := new NatTable();
    var e := DrawOnce(t, p, extIp, port);
    assert t.entries == [e] && Swap(port) != port;
    var f := DrawOnce(t, q, extIp, port);
    assert t.entries == [e, f];
    assert HasExt(t.entries[0], t.entries[1].natExt.ip, t.entries[1].natExt.port);
  }

  /** The index an external lookup yields. */
  ghost predicate FoundExternal(entries: seq<NatEntry>, ip: Ip, port: Word, k: nat) {
    k < |entries| && HasExt(entries[k], ip, port) && forall j :: 0 <= j < k ==> !HasExt(entries[j], ip, port)
  }

  /**
   A reply to a translated packet goes back to the packet's sender iff the reply's lookup does
   not meet an earlier entry with the same external pair and another internal one.
   */
  lemma ReplyReturnsIff(entries: seq<NatEntry>, k: Kind, sent: Header, reply: Header, i: nat, found: nat)
    requires i < |entries| && HasInt(entries[i], sent.src, SrcPort(k, sent))
    requires forall a, b :: 0 <= a < b < |entries| ==> !HasInt(entries[a], entries[b].natInt.ip, entries[b].natInt.port)
    requires var out := Outbound(k, sent, entries[i].natExt, entries[i].natInt);
             reply.dst == out.src && DstPort(k, reply) == SrcPort(k, out)
    requires FoundExternal(entries, reply.dst, DstPort(k, reply), found)
    ensures var back := Inbound(k, reply, entries[found].natExt, entries[found].natInt);
            (back.dst == sent.src && DstPort(k, back) == SrcPort(k, sent)) <==>
            forall j :: 0 <= j < i ==> !HasExt(entries[j], entries[i].natExt.ip, entries[i].natExt.port)
  {
    var e := entries[i];
    assert HasExt(e, reply.dst, DstPort(k, reply));
    assert found <= i;
    if found < i {
      assert !HasInt(entries[found], e.natInt.ip, e.natInt.port);
    }
  }
}
