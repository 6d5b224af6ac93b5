/** The URL codec (or_utils.c): strings of bytes, a zero byte ends a string in a buffer. */
module UrlCodec {
  type Byte = x: int | 0 <= x < 0x100

  const PERCENT: Byte := 0x25
  const PLUS: Byte := 0x2B
  const SPACE: Byte := 0x20

  predicate Alphanumeric(c: Byte) {
    0x30 <= c <= 0x39 || 0x61 <= c <= 0x7A || 0x41 <= c <= 0x5A
  }

  /** The upper-case hexadecimal digit of a value. */
  function HexDigit(v: int): Byte
    requires 0 <= v < 16
  {
    if v < 10 then 0x30 + v else 0x41 + v - 10
  }

  /** What scanning one character as a hexadecimal number stores; zero stays when it is no digit. */
  function HexValue(c: Byte): (v: int)
    ensures 0 <= v < 16
  {
    if 0x30 <= c <= 0x39 then c - 0x30
    else if 0x41 <= c <= 0x46 then c - 0x41 + 10
    else if 0x61 <= c <= 0x66 then c - 0x61 + 10
    else 0
  }

  function EncodedByte(c: Byte): seq<Byte> {
    if Alphanumeric(c) then [c] else [PERCENT, HexDigit(c / 16), HexDigit(c % 16)]
  }

  function Encoded(s: seq<Byte>): seq<Byte> {
    if s == [] then [] else EncodedByte(s[0]) + Encoded(s[1..])
  }

  function Decoded(t: seq<Byte>): seq<Byte> {
    if t == [] then []
    else if t[0] == PERCENT && 2 < |t| then [16 * HexValue(t[1]) + HexValue(t[2])] + Decoded(t[3..])
    else if t[0] == PLUS then [SPACE] + Decoded(t[1..])
    else [t[0]] + Decoded(t[1..])
  }

  /** The string a buffer holds: the bytes before the first zero. */
  function CString(buf: seq<Byte>): seq<Byte> {
    if buf == [] || buf[0] == 0 then [] else [buf[0]] + CString(buf[1..])
  }

  /** What encoding produces: letters, digits, and escapes of everything else in upper case. */
  predicate Canonical(t: seq<Byte>) {
    t == [] ||
    if Alphanumeric(t[0]) then Canonical(t[1..])
    else
      && t[0] == PERCENT && 2 < |t| && !Alphanumeric(16 * HexValue(t[1]) + HexValue(t[2]))
      && HexDigit(HexValue(t[1])) == t[1] && HexDigit(HexValue(t[2])) == t[2] && Canonical(t[3..])
  }

  // ----- the code, character by character

  const UPPER := "0123456789ABCDEF"
  const LOWER := "0123456789abcdef"

  predicate Is(c: Byte, x: char) {
    c == x as int
  }

  /** A letter or a digit. */
  predicate Unreserved(c: Byte) {
    'a' as int <= c <= 'z' as int || 'A' as int <= c <= 'Z' as int || '0' as int <= c <= '9' as int
  }

  /** Letters and digits stay; any other byte becomes a per cent sign and two upper-case digits, the high one first. */
  lemma EncodedByteIs(c: Byte)
    ensures if Unreserved(c) then EncodedByte(c) == [c]
            else
              && |EncodedByte(c)| == 3 && Is(EncodedByte(c)[0], '%')
              && Is(EncodedByte(c)[1], UPPER[c / 16]) && Is(EncodedByte(c)[2], UPPER[c % 16])
  {
    DigitsAre(c / 16);
    DigitsAre(c % 16);
  }

  lemma DigitsAre(v: nat)
    requires v < 16
    ensures Is(HexDigit(v), UPPER[v])
    ensures UPPER[v] as int == if v < 10 then 48 + v else 55 + v
    ensures LOWER[v] as int == if v < 10 then 48 + v else 87 + v
  {
  }

  /** A digit of either case has its value; any other character counts as zero. */
  lemma HexValueIs(c: Byte, v: nat)
    requires v < 16
    ensures Is(c, UPPER[v]) || Is(c, LOWER[v]) ==> HexValue(c) == v
    ensures (forall w :: 0 <= w < 16 ==> !Is(c, UPPER[w]) && !Is(c, LOWER[w])) ==> HexValue(c) == 0
  {
    DigitsAre(v);
    DigitsAre(HexValue(c));
  }

  /** Escapes are decoded, a plus is a space, anything else is itself; so is a per cent sign near the end. */
  lemma DecodedIs(t: seq<Byte>)
    requires t != []
    ensures Is(t[0], '%') && |t| >= 3 ==> Decoded(t) == [16 * HexValue(t[1]) + HexValue(t[2])] + Decoded(t[3..])
    ensures Is(t[0], '+') ==> Decoded(t) == [' ' as int] + Decoded(t[1..])
    ensures !Is(t[0], '+') && (!Is(t[0], '%') || |t| < 3) ==> Decoded(t) == [t[0]] + Decoded(t[1..])
  {
  }

  // ----- properties

  /** Decoding undoes encoding. */
  lemma {:induction false} RoundTrip(s: seq<Byte>)
    ensures Decoded(Encoded(s)) == s && Canonical(Encoded(s))
  {
    if s != [] {
      RoundTrip(s[1..]);
      var t := Encoded(s);
      assert if Alphanumeric(s[0]) then t[1..] == Encoded(s[1..]) else t[3..] == Encoded(s[1..]);
    }
  }

  /** The same through the buffers, for every string without a zero. */
  lemma BufferRoundTrip(s: seq<Byte>)
    requires 0 !in s
    ensures CString(Decoded(CString(Encoded(s)))) == s
  {
    EncodedFits(s);
    CStringOf(Encoded(s), []);
    RoundTrip(s);
    CStringOf(s, []);
  }

  /** Encoding undoes decoding exactly on what encoding produces. */
  lemma {:induction false} RoundTripBackIff(t: seq<Byte>)
    ensures Encoded(Decoded(t)) == t <==> Canonical(t)
  {
    if Canonical(t) {
      CanonicalReturns(t);
    } else if Encoded(Decoded(t)) == t {
      RoundTrip(Decoded(t));
    }
  }

  lemma EscapeReturns(a: Byte, b: Byte)
    requires HexDigit(HexValue(a)) == a && HexDigit(HexValue(b)) == b && !Alphanumeric(16 * HexValue(a) + HexValue(b))
    ensures EncodedByte(16 * HexValue(a) + HexValue(b)) == [PERCENT, a, b]
  {
  }

  lemma {:induction false} CanonicalReturns(t: seq<Byte>)
    requires Canonical(t)
    ensures Encoded(Decoded(t)) == t
  {
    if t != [] {
      if Alphanumeric(t[0]) {
        CanonicalReturns(t[1..]);
        assert Decoded(t)[1..] == Decoded(t[1..]);
      } else {
        CanonicalReturns(t[3..]);
        EscapeReturns(t[1], t[2]);
        assert Decoded(t)[1..] == Decoded(t[3..]);
        assert t == [t[0], t[1], t[2]] + t[3..];
      }
    }
  }

  lemma {:induction false} EncodedFits(s: seq<Byte>)
    ensures |Encoded(s)| <= 3 * |s| && 0 !in Encoded(s)
  {
    if s != [] {
      EncodedFits(s[1..]);
    }
  }

  /** A buffer that starts with a string and a zero holds that string up to its own first zero. */
  lemma {:induction false} CStringOf(s: seq<Byte>, rest: seq<Byte>)
    ensures CString(s + [0] + rest) == CString(s)
    ensures 0 !in s ==> CString(s) == s
  {
    if s != [] {
      CStringOf(s[1..], rest);
      assert (s + [0] + rest)[1..] == s[1..] + [0] + rest;
    }
  }

  lemma Terminated(buf: seq<Byte>, pos: nat, s: seq<Byte>)
    requires pos < |buf| && buf[pos] == 0 && buf[..pos] == s
    ensures CString(buf) == CString(s)
  {
    assert buf == s + [0] + buf[pos + 1..];
    CStringOf(s, buf[pos + 1..]);
  }

  // ----- the loops

  lemma EncodedNext(done: seq<Byte>, s: seq<Byte>, i: nat)
    requires i < |s|
    ensures done + EncodedByte(s[i]) + Encoded(s[i + 1..]) == done + Encoded(s[i..])
  {
    assert s[i..][1..] == s[i + 1..];
  }

  /** The buffer is allocated for the worst case and never overrun. */
  method UrlEncode(str: seq<Byte>) returns (ret: array<Byte>)
    requires 0 !in str
    ensures fresh(ret) && ret.Length == 3 * |str| + 1 && CString(ret[..]) == Encoded(str)
  {
    ret := new Byte[3 * |str| + 1];
    var pos := 0;
    for i := 0 to |str|
      invariant 0 <= pos <= 3 * i
      invariant ret[..pos] + Encoded(str[i..]) == Encoded(str)
    {
      var c := str[i];
      EncodedNext(ret[..pos], str, i);
      ghost var before := ret[..pos];
      if Alphanumeric(c) {
        ret[pos] := c;
        pos := pos + 1;
      } else {
        ret[pos] := PERCENT;
        ret[pos + 1] := HexDigit(c / 16);
        ret[pos + 2] := HexDigit(c % 16);
        pos := pos + 3;
      }
      assert ret[..pos] == before + EncodedByte(c);
    }
    ret[pos] := 0;
    EncodedFits(str);
    Terminated(ret[..], pos, Encoded(str));
    CStringOf(Encoded(str), []);
  }

  /** How many characters the next byte takes. */
  function Taken(t: seq<Byte>, i: nat): nat
    requires i < |t|
  {
    if t[i] == PERCENT && i + 2 < |t| then 3 else 1
  }

  /** The next byte. */
  function DecodedByte(t: seq<Byte>, i: nat): Byte
    requires i < |t|
  {
    if t[i] == PERCENT && i + 2 < |t| then 16 * HexValue(t[i + 1]) + HexValue(t[i + 2])
    else if t[i] == PLUS then SPACE else t[i]
  }

  lemma DecodedNext(done: seq<Byte>, t: seq<Byte>, i: nat)
    requires i < |t|
    ensures done + [DecodedByte(t, i)] + Decoded(t[i + Taken(t, i)..]) == done + Decoded(t[i..])
  {
    var left := t[i..];
    assert left[Taken(t, i)..] == t[i + Taken(t, i)..];
    assert Decoded(left) == [DecodedByte(t, i)] + Decoded(left[Taken(t, i)..]);
  }

  /** The string in the result ends early where an escape stands for zero. */
  method UrlDecode(str: seq<Byte>) returns (ret: array<Byte>)
    requires 0 !in str
    ensures fresh(ret) && ret.Length == |str| + 1 && CString(ret[..]) == CString(Decoded(str))
  {
    ret := new Byte[|str| + 1];
    var pos, i := 0, 0;
    while i < |str|
      invariant 0 <= pos <= i <= |str|
      invariant ret[..pos] + Decoded(str[i..]) == Decoded(str)
    {
      var c := str[i];
      DecodedNext(ret[..pos], str, i);
      ghost var before, at := ret[..pos], i;
      if c == PERCENT && i + 2 < |str| {
        var high, low := HexValue(str[i + 1]), HexValue(str[i + 2]);
        ret[pos] := 16 * high + low;
        i := i + 2;
      } else if c == PLUS {
        ret[pos] := SPACE;
      } else {
        ret[pos] := c;
      }
      pos := pos + 1;
      i := i + 1;
      assert ret[..pos] == before + [DecodedByte(str, at)];
    }
    assert Decoded(str[i..]) == [] && ret[..pos] + [] == ret[..pos];
    ret[pos] := 0;
    Terminated(ret[..], pos, Decoded(str));
  }
}
