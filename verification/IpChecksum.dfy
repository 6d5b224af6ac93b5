/**
 The Internet checksum of IP headers (or_ip.c) and the headers that forwarding rewrites.
 A header is an array of 16-bit words in host order; word 0 holds the version and the header
 length, word 3 the fragment field, word 4 the TTL and the protocol, word 5 the checksum.
 */
module IpChecksum {
  type Word = x: int | 0 <= x < 0x1_0000

  const FULL := 0xFFFF

  function Sum(ws: seq<Word>): nat {
    if ws == [] then 0 else Sum(ws[..|ws| - 1]) + ws[|ws| - 1]
  }

  /** The one's-complement sum is zero, in its negative form. */
  ghost predicate Verified(ws: seq<Word>) {
    Sum(ws) > 0 && Sum(ws) % FULL == 0
  }

  // ----- sums

  lemma {:induction false} SumBound(ws: seq<Word>)
    ensures Sum(ws) <= FULL * |ws|
  {
    if ws != [] {
      SumBound(ws[..|ws| - 1]);
    }
  }

  lemma {:induction false} SumSet(ws: seq<Word>, k: nat, w: Word)
    requires k < |ws|
    ensures Sum(ws[k := w]) == Sum(ws) - ws[k] + w
  {
    var n := |ws| - 1;
    if k < n {
      assert ws[k := w][..n] == ws[..n][k := w];
      SumSet(ws[..n], k, w);
    } else {
      assert ws[k := w][..n] == ws[..n];
    }
  }

  /** One fold with truncation finds the positive multiples of 65535. */
  lemma FoldOnce(t: nat)
    requires t <= 0x1_0000 * FULL
    ensures (t / 0x1_0000 + t % 0x1_0000) % 0x1_0000 == FULL <==> t > 0 && t % FULL == 0
  {
    var f := t / 0x1_0000 + t % 0x1_0000;
    assert t == FULL * (t / 0x1_0000) + f;
    assert f < 2 * FULL;
  }

  /** The complement of the folded sum is the word that completes the sum, and zero rather than 65535. */
  ghost predicate Completes(t: nat, c: Word) {
    (t + c) % FULL == 0 && (c == FULL <==> t == 0)
  }

  lemma FoldTwice(t: nat)
    requires t < 0x100_0000
    ensures var f := t / 0x1_0000 + t % 0x1_0000;
            Completes(t, FULL - (f + f / 0x1_0000) % 0x1_0000)
  {
    var f := t / 0x1_0000 + t % 0x1_0000;
    assert t == FULL * (t / 0x1_0000) + f;
    assert f < 2 * FULL;
    if f >= 0x1_0000 {
      assert t + FULL - (f + 1 - 0x1_0000) == FULL * (t / 0x1_0000 + 2);
    } else {
      assert t + FULL - f == FULL * (t / 0x1_0000 + 1);
    }
  }

  /** The words that complete a sum are one, or zero and 65535 together. */
  lemma CompletedBy(t: nat, s: Word, c: Word)
    requires Completes(t, s)
    ensures t + c > 0 && (t + c) % FULL == 0 <==> c == s || (s == 0 && c == FULL)
  {
    assert t == FULL * (t / FULL) + t % FULL;
    if s == FULL {
      assert t == 0;
    } else {
      assert s == 0 <==> t % FULL == 0;
      assert s > 0 ==> s == FULL - t % FULL;
    }
  }

  // ----- the header

  function HeaderLength(ws: seq<Word>): nat
    requires |ws| > 0
  {
    ws[0] / 0x100 % 0x10
  }

  function Version(ws: seq<Word>): nat
    requires |ws| > 0
  {
    ws[0] / 0x1000
  }

  function Ttl(ws: seq<Word>): nat
    requires |ws| > 4
  {
    ws[4] / 0x100
  }

  function SetTtl(w: Word, ttl: nat): Word
    requires ttl < 0x100
  {
    ttl * 0x100 + w % 0x100
  }

  /** An option-free header. */
  ghost predicate Plain(ws: seq<Word>) {
    |ws| == 10 && Version(ws) == 4 && HeaderLength(ws) == 5
  }

  predicate Fragmented(w: Word) {
    w / 0x2000 % 2 == 1 || w % 0x2000 != 0
  }

  /**
   Writes zero to the checksum word and returns the value that belongs there. The header
   verifies with that value, and with no other but 65535 in place of zero.
   */
  method ComputeIpChecksum(h: array<Word>) returns (s: Word)
    requires h.Length > 5 && 5 < 2 * HeaderLength(h[..]) <= h.Length
    modifies h
    ensures h[..] == old(h[..])[5 := 0]
    ensures Completes(Sum(h[..2 * HeaderLength(h[..])]), s)
  {
    h[5] := 0;
    var sum: nat := 0;
    var numShorts := 2 * HeaderLength(h[..]);
    for i := 0 to numShorts
      invariant sum == Sum(h[..i])
    {
      assert h[..i + 1][..i] == h[..i];
      if i != 5 {
        sum := sum + h[i];
      }
    }
    SumBound(h[..numShorts]);
    FoldTwice(sum);
    sum := sum / 0x1_0000 + sum % 0x1_0000;
    sum := sum + sum / 0x1_0000;
    s := FULL - sum % 0x1_0000;
  }

  /** Zero, the sign of success, iff the words sum to a positive multiple of 65535. */
  method VerifyChecksum(data: array<Word>, length: nat) returns (r: int)
    requires length <= data.Length && length <= 0x1_0000
    ensures r == if Verified(data[..length]) then 0 else 1
  {
    var sum: nat := 0;
    for i := 0 to length
      invariant sum == Sum(data[..i])
    {
      assert data[..i + 1][..i] == data[..i];
      SumBound(data[..i + 1]);
      sum := (sum + data[i]) % 0x1_0000_0000;
    }
    SumBound(data[..length]);
    FoldOnce(sum);
    var folded := (sum / 0x1_0000 + sum % 0x1_0000) % 0x1_0000;
    r := if folded == FULL then 0 else 1;
  }

  /** Version 4, no options, not a fragment, and a sum that verifies. */
  method IsPacketValid(h: array<Word>) returns (ok: bool)
    requires h.Length == 10
    ensures ok <==> Plain(h[..]) && !Fragmented(h[3]) && Verified(h[..])
    ensures ok <==> h[0] / 0x100 == 0x45 && h[3] % 0x4000 == 0 && Sum(h[..]) > 0 && Sum(h[..]) % 0xFFFF == 0
  {
    if h[0] / 0x1000 != 4 || h[0] / 0x100 % 0x10 != 5 {
      return false;
    }
    if h[3] / 0x2000 % 2 == 1 || h[3] % 0x2000 != 0 {
      return false;
    }
    var r := VerifyChecksum(h, 10);
    assert h[..10] == h[..];
    return r == 0;
  }

  /** Storing the computed checksum makes the header verify; what else would, is known. */
  lemma StoredVerifies(ws: seq<Word>, s: Word, c: Word)
    requires |ws| > 5 && ws[5] == 0 && Completes(Sum(ws), s)
    ensures Verified(ws[5 := s])
    ensures Verified(ws[5 := c]) <==> c == s || (s == 0 && c == FULL)
  {
    SumSet(ws, 5, s);
    SumSet(ws, 5, c);
    CompletedBy(Sum(ws), s, s);
    CompletedBy(Sum(ws), s, c);
  }

  // ----- forwarding

  /** `after` is `before` with another TTL and the checksum that belongs to it. */
  ghost predicate Retimed(before: seq<Word>, after: seq<Word>, ttl: nat) {
    && |before| == |after| == 10 && ttl < 0x100
    && after == before[4 := SetTtl(before[4], ttl)][5 := after[5]]
    && Verified(after) && after[5] < FULL
  }

  /** Writes a TTL and the checksum for it; the two rewrites of the forwarding path share it. */
  method StoreTtl(h: array<Word>, ttl: nat)
    requires h.Length == 10 && Plain(h[..]) && ttl < 0x100
    modifies h
    ensures Retimed(old(h[..]), h[..], ttl)
  {
    h[4] := SetTtl(h[4], ttl);
    h[5] := 0;
    var s := ComputeIpChecksum(h);
    ghost var ws := h[..];
    assert h[..10] == ws;
    h[5] := s;
    StoredVerifies(ws, s, s);
    SumHasFirst(ws);
    assert h[..] == ws[5 := s];
  }

  lemma {:induction false} SumHasFirst(ws: seq<Word>)
    requires |ws| > 0
    ensures Sum(ws) >= ws[0]
  {
    if |ws| > 1 {
      SumHasFirst(ws[..|ws| - 1]);
    }
  }

  /** The TTL and checksum part of forwarding; a TTL of 1 is answered with an error instead. */
  method Forward(h: array<Word>) returns (sent: bool)
    requires h.Length == 10 && Plain(h[..])
    modifies h
    ensures sent <==> Ttl(old(h[..])) != 1
    ensures sent ==> Retimed(old(h[..]), h[..], (Ttl(old(h[..])) + 255) % 0x100)
    ensures !sent ==> h[..] == old(h[..])
  {
    if Ttl(h[..]) == 1 {
      return false;
    }
    StoreTtl(h, (Ttl(h[..]) + 255) % 0x100);
    return true;
  }

  /** Before an error quotes a packet that waited in vain, its TTL is raised again. */
  method UndoForward(h: array<Word>)
    requires h.Length == 10 && Plain(h[..])
    modifies h
    ensures if Ttl(old(h[..])) < 255 then Retimed(old(h[..]), h[..], Ttl(old(h[..])) + 1) else h[..] == old(h[..])
  {
    var ttl := Ttl(h[..]);
    if ttl < 255 {
      StoreTtl(h, ttl + 1);
    }
  }

  lemma SameRest(before: seq<Word>, after: seq<Word>, ttl: nat)
    requires Retimed(before, after, ttl)
    ensures Ttl(after) == ttl && (Plain(before) ==> Plain(after))
    ensures after[4] == before[4] + (ttl - Ttl(before)) * 0x100
    ensures Sum(after) - Sum(before) == (ttl - Ttl(before)) * 0x100 + after[5] - before[5]
  {
    SumSet(before, 4, SetTtl(before[4], ttl));
    SumSet(before[4 := SetTtl(before[4], ttl)], 5, after[5]);
  }

  /**
   A header that arrives valid and is forwarded, then queued in vain and restored, is the
   header that arrived, but for the two forms of a zero checksum.
   */
  lemma UndoRestores(arrived: seq<Word>, sent: seq<Word>, restored: seq<Word>)
    requires |arrived| == 10 && Verified(arrived) && Ttl(arrived) >= 2
    requires Retimed(arrived, sent, Ttl(arrived) - 1) && Retimed(sent, restored, Ttl(arrived))
    ensures restored == arrived[5 := if arrived[5] == FULL then 0 else arrived[5]]
  {
    SameRest(arrived, sent, Ttl(arrived) - 1);
    SameRest(sent, restored, Ttl(arrived));
    assert restored[4] == arrived[4];
    SameResidue(Sum(arrived), Sum(restored), arrived[5], restored[5]);
    assert restored == arrived[5 := restored[5]];
  }

  lemma SameResidue(a: nat, b: nat, x: Word, y: Word)
    requires a % FULL == 0 && b % FULL == 0 && b - a == y - x && y < FULL
    ensures y == if x == FULL then 0 else x
  {
    assert FULL * (b / FULL - a / FULL) == y - x;
  }

  /** The recomputed checksum is the incrementally updated one: lowering the TTL by one adds 256. */
  lemma RecomputedIsIncremental(before: seq<Word>, after: seq<Word>)
    requires |before| == 10 && Verified(before) && Ttl(before) >= 2 && Retimed(before, after, Ttl(before) - 1)
    ensures (after[5] - before[5] - 0x100) % FULL == 0
  {
    SameRest(before, after, Ttl(before) - 1);
    assert Sum(after) - Sum(before) == FULL * (Sum(after) / FULL - Sum(before) / FULL);
  }

  // ----- many hops

  /** Only the TTL and the checksum may differ. */
  ghost predicate SameElsewhere(a: seq<Word>, b: seq<Word>) {
    |a| == |b| == 10 && b == a[4 := b[4]][5 := b[5]] && a[4] % 0x100 == b[4] % 0x100
  }

  lemma HopElsewhere(first: seq<Word>, before: seq<Word>, after: seq<Word>)
    requires SameElsewhere(first, before) && Hop(before, after)
    ensures SameElsewhere(first, after)
  {
  }

  /** The headers of a packet that a line of routers forwards. */
  ghost predicate Hops(hs: seq<seq<Word>>) {
    && hs != [] && Plain(hs[0]) && Verified(hs[0])
    && forall i {:trigger hs[i]} :: 0 < i < |hs| ==> Hop(hs[i - 1], hs[i])
  }

  /** The contract of `Forward` for a packet it sends on. */
  ghost predicate Hop(before: seq<Word>, after: seq<Word>) {
    |before| == 10 && Ttl(before) != 1 && Retimed(before, after, (Ttl(before) + 255) % 0x100)
  }

  /** Where a packet is after `n` hops from `first`. */
  ghost predicate Hopped(first: seq<Word>, h: seq<Word>, n: nat) {
    SameElsewhere(first, h) && Plain(h) && Verified(h) && Ttl(h) == Ttl(first) - n && Ttl(h) >= 1
  }

  lemma HopNext(first: seq<Word>, before: seq<Word>, after: seq<Word>, n: nat)
    requires Hopped(first, before, n) && Hop(before, after)
    ensures Hopped(first, after, n + 1)
  {
    HopElsewhere(first, before, after);
    SameRest(before, after, (Ttl(before) + 255) % 0x100);
  }

  /**
   A packet with TTL t >= 1 is forwarded at most t - 1 times; wherever it is, its header
   verifies and only the TTL and the checksum have changed.
   */
  lemma {:induction false} HopsAreBounded(hs: seq<seq<Word>>)
    requires Hops(hs) && Ttl(hs[0]) >= 1
    ensures |hs| <= Ttl(hs[0]) && Hopped(hs[0], hs[|hs| - 1], |hs| - 1)
  {
    var n := |hs| - 1;
    if n > 0 {
      HopsAreBounded(hs[..n]);
      assert Hop(hs[n - 1], hs[n]);
      HopNext(hs[0], hs[n - 1], hs[n], n - 1);
    }
  }
}
