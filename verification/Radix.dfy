/**
 * Bytes written in base 16 and base 32 (sections 8 and 6 of RFC 4648): both are the same number,
 * and each spelling determines the bytes.
 */
module Radix {
  import StoreModel

  type Byte = n: nat | n < 256
  type Nibble = n: nat | n < 16
  type Quintet = n: nat | n < 32

  /** The base 16 alphabet of section 8 of RFC 4648, in lower case. */
  function HexDigit(n: Nibble): char {
    if n < 10 then '0' + n as char else 'a' + (n - 10) as char
  }

  /** The base 32 alphabet of section 6 of RFC 4648. */
  function Base32Digit(n: Quintet): char {
    if n < 26 then 'A' + n as char else '2' + (n - 26) as char
  }

  predicate IsHexDigit(c: char) {
    '0' <= c <= '9' || 'a' <= c <= 'f' || 'A' <= c <= 'F'
  }

  predicate IsBase32Digit(c: char) {
    'A' <= c <= 'Z' || '2' <= c <= '7'
  }

  function Base32Value(c: char): (n: Quintet)
    requires IsBase32Digit(c)
    ensures Base32Digit(n) == c
  {
    if 'A' <= c <= 'Z' then (c - 'A') as int else (c - '2') as int + 26
  }

  predicate AllHex(s: string) {
    forall i :: 0 <= i < |s| ==> IsHexDigit(s[i])
  }

  predicate AllBase32(s: string) {
    forall i :: 0 <= i < |s| ==> IsBase32Digit(s[i])
  }

  /** encoding/hex: two digits a byte, high nibble first. */
  function HexEncode(bytes: seq<Byte>): (s: string)
    ensures |s| == 2 * |bytes|
  {
    if bytes == [] then ""
    else [HexDigit(bytes[0] / 16), HexDigit(bytes[0] % 16)] + HexEncode(bytes[1..])
  }

  /** Five bytes regrouped as eight quintets. */
  function EncodeGroup(b: seq<Byte>): seq<Quintet>
    requires |b| == 5
  {
    [b[0] / 8,
     (b[0] % 8) * 4 + b[1] / 64,
     (b[1] / 2) % 32,
     (b[1] % 2) * 16 + b[2] / 16,
     (b[2] % 16) * 2 + b[3] / 128,
     (b[3] / 4) % 32,
     (b[3] % 4) * 8 + b[4] / 32,
     b[4] % 32]
  }

  /** Eight quintets regrouped as five bytes, as the decoder shifts them together. */
  function DecodeGroup(v: seq<Quintet>): seq<Byte>
    requires |v| == 8
  {
    var w: seq<int> := v;
    var b0: Byte := w[0] * 8 + w[1] / 4;
    var b1: Byte := (w[1] % 4) * 64 + w[2] * 2 + w[3] / 16;
    var b2: Byte := (w[3] % 16) * 16 + w[4] / 2;
    var b3: Byte := (w[4] % 2) * 128 + w[5] * 4 + w[6] / 8;
    var b4: Byte := (w[6] % 8) * 32 + w[7];
    [b0, b1, b2, b3, b4]
  }

  function Regroup(v: seq<Quintet>): (b: seq<Byte>)
    requires |v| % 8 == 0
    ensures |b| == |v| / 8 * 5
  {
    if v == [] then [] else DecodeGroup(v[..8]) + Regroup(v[8..])
  }

  function Split(b: seq<Byte>): (v: seq<Quintet>)
    requires |b| % 5 == 0
    ensures |v| == |b| / 5 * 8
  {
    if b == [] then [] else EncodeGroup(b[..5]) + Split(b[5..])
  }

  function Base32Values(s: string): (v: seq<Quintet>)
    requires forall i :: 0 <= i < |s| ==> IsBase32Digit(s[i])
    ensures |v| == |s|
  {
    seq(|s|, i requires 0 <= i < |s| => Base32Value(s[i]))
  }

  function Base32Encode(b: seq<Byte>): (s: string)
    requires |b| % 5 == 0
    ensures |s| == |b| / 5 * 8
  {
    seq(|Split(b)|, i requires 0 <= i < |Split(b)| => Base32Digit(Split(b)[i]))
  }

  // ----- hex -----

  function HexValue(c: char): (n: Nibble)
    requires StoreModel.IsCanonicalChar(c)
    ensures HexDigit(n) == c
  {
    if c <= '9' then (c - '0') as int else (c - 'a') as int + 10
  }

  lemma HexDigitReads(n: Nibble)
    ensures StoreModel.IsCanonicalChar(HexDigit(n)) && HexValue(HexDigit(n)) == n
  {
  }

  /** The bytes a canonical string of even length spells. */
  function HexDecode(s: string): (b: seq<Byte>)
    requires |s| % 2 == 0
    requires forall i :: 0 <= i < |s| ==> StoreModel.IsCanonicalChar(s[i])
    ensures |b| == |s| / 2
  {
    if s == "" then [] else [HexValue(s[0]) * 16 + HexValue(s[1])] + HexDecode(s[2..])
  }

  lemma {:induction false} HexEncodeReads(b: seq<Byte>)
    ensures forall i :: 0 <= i < |HexEncode(b)| ==> StoreModel.IsCanonicalChar(HexEncode(b)[i])
    ensures HexDecode(HexEncode(b)) == b
  {
    if b != [] {
      HexEncodeReads(b[1..]);
      HexDigitReads(b[0] / 16);
      HexDigitReads(b[0] % 16);
      assert HexEncode(b)[2..] == HexEncode(b[1..]);
    }
  }

  lemma HexPairReads(hi: char, lo: char, rest: seq<Byte>)
    requires StoreModel.IsCanonicalChar(hi) && StoreModel.IsCanonicalChar(lo)
    ensures HexEncode([HexValue(hi) * 16 + HexValue(lo)] + rest) == [hi, lo] + HexEncode(rest)
  {
    var b: int := HexValue(hi) * 16 + HexValue(lo);
    assert b / 16 == HexValue(hi) && b % 16 == HexValue(lo);
    assert ([b] + rest)[1..] == rest;
  }

  lemma {:induction false} HexDecodeReads(s: string)
    requires |s| % 2 == 0
    requires forall i :: 0 <= i < |s| ==> StoreModel.IsCanonicalChar(s[i])
    ensures HexEncode(HexDecode(s)) == s
    decreases |s|
  {
    if s != "" {
      HexDecodeReads(s[2..]);
      HexPairReads(s[0], s[1], HexDecode(s[2..]));
      assert s == [s[0], s[1]] + s[2..];
    }
  }

  // ----- base 32 -----

  predicate IsShift(m: nat) {
    m == 2 || m == 4 || m == 8 || m == 16 || m == 32 || m == 64 || m == 128
  }

  /** A number split at a power of two is put together again from its halves. */
  lemma Halves(hi: int, lo: int, m: nat)
    requires 0 <= lo < m && IsShift(m)
    ensures (hi * m + lo) / m == hi && (hi * m + lo) % m == lo
  {
    if m == 2 {
    } else if m == 4 {
    } else if m == 8 {
    } else if m == 16 {
    } else if m == 32 {
    } else if m == 64 {
    } else {
    }
  }

  /** A byte spread over three quintets, one bit or two of it in the last. */
  lemma ThirdsOfTwo(hi: int, mid: int, lo: int)
    requires 0 <= hi && 0 <= mid < 32 && 0 <= lo < 2
    ensures var b := hi * 64 + mid * 2 + lo; b / 64 == hi && (b / 2) % 32 == mid && b % 2 == lo
  {
    assert hi * 64 + mid * 2 + lo == (hi * 32 + mid) * 2 + lo;
    Halves(hi * 32 + mid, lo, 2);
    Halves(hi, mid, 32);
    Halves(hi, mid * 2 + lo, 64);
  }

  lemma ThirdsOfFour(hi: int, mid: int, lo: int)
    requires 0 <= hi && 0 <= mid < 32 && 0 <= lo < 4
    ensures var b := hi * 128 + mid * 4 + lo; b / 128 == hi && (b / 4) % 32 == mid && b % 4 == lo
  {
    assert hi * 128 + mid * 4 + lo == (hi * 32 + mid) * 4 + lo;
    Halves(hi * 32 + mid, lo, 4);
    Halves(hi, mid, 32);
    Halves(hi, mid * 4 + lo, 128);
  }

  lemma ThirdsJoin(b: int, m: nat)
    requires 0 <= b < 256 && (m == 2 || m == 4)
    ensures (b / (32 * m)) * (32 * m) + ((b / m) % 32) * m + b % m == b
  {
    if m == 2 {
    } else {
    }
  }

  lemma SameBytes(a: seq<int>, b: seq<int>)
    requires |a| == |b| == 5
    requires a[0] == b[0] && a[1] == b[1] && a[2] == b[2] && a[3] == b[3] && a[4] == b[4]
    ensures a == b
  {
  }

  lemma SameQuintets(a: seq<int>, b: seq<int>)
    requires |a| == |b| == 8
    requires a[0] == b[0] && a[1] == b[1] && a[2] == b[2] && a[3] == b[3]
    requires a[4] == b[4] && a[5] == b[5] && a[6] == b[6] && a[7] == b[7]
    ensures a == b
  {
  }

  lemma GroupRoundTrip(b: seq<Byte>)
    requires |b| == 5
    ensures DecodeGroup(EncodeGroup(b)) == b
  {
    var v: seq<int> := EncodeGroup(b);
    var c: seq<int> := b;
    var d: seq<int> := DecodeGroup(EncodeGroup(b));
    assert d[0] == c[0] by { Halves(c[0] % 8, c[1] / 64, 4); }
    assert d[1] == c[1] by {
      Halves(c[0] % 8, c[1] / 64, 4);
      Halves(c[1] % 2, c[2] / 16, 16);
      assert v[1] % 4 == c[1] / 64 && v[3] / 16 == c[1] % 2;
      ThirdsJoin(c[1], 2);
    }
    assert d[2] == c[2] by {
      Halves(c[1] % 2, c[2] / 16, 16);
      Halves(c[2] % 16, c[3] / 128, 2);
    }
    assert d[3] == c[3] by {
      Halves(c[2] % 16, c[3] / 128, 2);
      Halves(c[3] % 4, c[4] / 32, 8);
      assert v[4] % 2 == c[3] / 128 && v[6] / 8 == c[3] % 4;
      ThirdsJoin(c[3], 4);
    }
    assert d[4] == c[4] by { Halves(c[3] % 4, c[4] / 32, 8); }
    SameBytes(d, c);
  }

  lemma QuintetRoundTrip(v: seq<Quintet>)
    requires |v| == 8
    ensures EncodeGroup(DecodeGroup(v)) == v
  {
    var w: seq<int> := v;
    var b: seq<int> := DecodeGroup(v);
    var x: seq<int> := EncodeGroup(DecodeGroup(v));
    assert x[0] == w[0] by { Halves(w[0], w[1] / 4, 8); }
    assert x[1] == w[1] by { Halves(w[0], w[1] / 4, 8); ThirdsOfTwo(w[1] % 4, w[2], w[3] / 16); }
    assert x[2] == w[2] by { ThirdsOfTwo(w[1] % 4, w[2], w[3] / 16); }
    assert x[3] == w[3] by { ThirdsOfTwo(w[1] % 4, w[2], w[3] / 16); Halves(w[3] % 16, w[4] / 2, 16); }
    assert x[4] == w[4] by { Halves(w[3] % 16, w[4] / 2, 16); ThirdsOfFour(w[4] % 2, w[5], w[6] / 8); }
    assert x[5] == w[5] by { ThirdsOfFour(w[4] % 2, w[5], w[6] / 8); }
    assert x[6] == w[6] by { ThirdsOfFour(w[4] % 2, w[5], w[6] / 8); Halves(w[6] % 8, w[7], 32); }
    assert x[7] == w[7] by { Halves(w[6] % 8, w[7], 32); }
    SameQuintets(x, w);
  }

  lemma {:induction false} RegroupSplit(b: seq<Byte>)
    requires |b| % 5 == 0
    ensures Regroup(Split(b)) == b
    decreases |b|
  {
    if b != [] {
      var v := Split(b);
      assert v[..8] == EncodeGroup(b[..5]) && v[8..] == Split(b[5..]);
      GroupRoundTrip(b[..5]);
      RegroupSplit(b[5..]);
    }
  }

  lemma {:induction false} SplitRegroup(v: seq<Quintet>)
    requires |v| % 8 == 0
    ensures Split(Regroup(v)) == v
    decreases |v|
  {
    if v != [] {
      var b := Regroup(v);
      assert b[..5] == DecodeGroup(v[..8]) && b[5..] == Regroup(v[8..]);
      QuintetRoundTrip(v[..8]);
      SplitRegroup(v[8..]);
    }
  }

  lemma Base32DigitReads(n: Quintet)
    ensures IsBase32Digit(Base32Digit(n)) && Base32Value(Base32Digit(n)) == n
  {
  }

  /** Base 32 text and digests determine each other. */
  lemma Base32RoundTrip(d: seq<Byte>)
    requires |d| % 5 == 0
    ensures AllBase32(Base32Encode(d))
    ensures Base32Values(Base32Encode(d)) == Split(d)
    ensures Regroup(Base32Values(Base32Encode(d))) == d
  {
    forall i | 0 <= i < |Split(d)|
      ensures IsBase32Digit(Base32Encode(d)[i]) && Base32Value(Base32Encode(d)[i]) == Split(d)[i]
    {
      Base32DigitReads(Split(d)[i]);
    }
    RegroupSplit(d);
  }

  lemma Base32TextRoundTrip(s: string)
    requires |s| % 8 == 0 && AllBase32(s)
    ensures Base32Encode(Regroup(Base32Values(s))) == s
  {
    var v := Base32Values(s);
    SplitRegroup(v);
    forall i | 0 <= i < |s| ensures Base32Encode(Regroup(v))[i] == s[i] {
      assert IsBase32Digit(s[i]) && v[i] == Base32Value(s[i]);
    }
  }

  // ----- numerals -----

  function Pow(base: nat, n: nat): nat {
    if n == 0 then 1 else Pow(base, n - 1) * base
  }

  /** The number that big-endian digits denote. */
  function Value(digits: seq<nat>, base: nat): nat {
    if digits == [] then 0 else digits[0] * Pow(base, |digits| - 1) + Value(digits[1..], base)
  }

  lemma ProductAssociates(p: nat, q: nat, base: nat)
    ensures p * (q * base) == (p * q) * base
  {
  }

  lemma {:induction false} PowAdds(base: nat, m: nat, n: nat)
    ensures Pow(base, m + n) == Pow(base, m) * Pow(base, n)
    decreases n
  {
    if n > 0 {
      PowAdds(base, m, n - 1);
      assert m + n - 1 == m + (n - 1);
      ProductAssociates(Pow(base, m), Pow(base, n - 1), base);
    }
  }

  lemma Distributes(x: nat, p: nat, q: nat, rest: nat)
    ensures x * (p * q) + rest * q == (x * p + rest) * q
  {
  }

  lemma {:induction false} ValueConcat(a: seq<nat>, b: seq<nat>, base: nat)
    ensures Value(a + b, base) == Value(a, base) * Pow(base, |b|) + Value(b, base)
    decreases |a|
  {
    if a == [] {
      assert a + b == b;
    } else {
      assert (a + b)[1..] == a[1..] + b;
      ValueConcat(a[1..], b, base);
      PowAdds(base, |a| - 1, |b|);
      Distributes(a[0], Pow(base, |a| - 1), Pow(base, |b|), Value(a[1..], base));
    }
  }

  lemma PowerOfGroups(k: nat)
    ensures Pow(32, 8 * k) == Pow(256, 5 * k)
  {
    if k > 0 {
      PowerOfGroups(k - 1);
      PowAdds(32, 8 * (k - 1), 8);
      PowAdds(256, 5 * (k - 1), 5);
      assert Pow(32, 8) == Pow(256, 5) by { SmallPowers(); }
    }
  }

  lemma SmallPowers()
    ensures Pow(32, 8) == Pow(256, 5) == 0x100_0000_0000
  {
    assert Pow(32, 2) == 1024;
    assert Pow(32, 4) == 1024 * 1024;
    assert Pow(32, 6) == 1024 * 1024 * 1024;
    assert Pow(256, 2) == 65536;
    assert Pow(256, 4) == 65536 * 65536;
  }

  /** Five base-256 digits and the eight base-32 digits they regroup to are one number. */
  lemma GroupKeepsValue(b: seq<Byte>)
    requires |b| == 5
    ensures Value(EncodeGroup(b), 32) == Value(b, 256)
  {
    var c: seq<nat> := b;
    var v: seq<nat> := EncodeGroup(b);
    FiveDigits(c, 256);
    EightDigits(v, 32);
    assert c[0] == v[0] * 8 + c[0] % 8;
    assert c[1] == (c[1] / 64) * 64 + v[2] * 2 + c[1] % 2 by { ThirdsJoin(c[1], 2); }
    assert c[2] == (c[2] / 16) * 16 + c[2] % 16;
    assert c[3] == (c[3] / 128) * 128 + v[5] * 4 + c[3] % 4 by { ThirdsJoin(c[3], 4); }
    assert c[4] == (c[4] / 32) * 32 + v[7];
    assert v[1] == (c[0] % 8) * 4 + c[1] / 64 && v[3] == (c[1] % 2) * 16 + c[2] / 16;
    assert v[4] == (c[2] % 16) * 2 + c[3] / 128 && v[6] == (c[3] % 4) * 8 + c[4] / 32;
  }

  /** Horner's form of a five-digit number. */
  lemma FiveDigits(d: seq<nat>, base: nat)
    requires |d| == 5 && base == 256
    ensures Value(d, base) == (((d[0] * base + d[1]) * base + d[2]) * base + d[3]) * base + d[4]
  {
    AppendDigit(d[..1], d[1], base);
    AppendDigit(d[..2], d[2], base);
    AppendDigit(d[..3], d[3], base);
    AppendDigit(d[..4], d[4], base);
    assert d[..2] == d[..1] + [d[1]] && d[..3] == d[..2] + [d[2]] && d[..4] == d[..3] + [d[3]] && d == d[..4] + [d[4]];
    assert Value(d[..1], base) == d[0] by { assert d[..1] == [] + [d[0]]; AppendDigit([], d[0], base); }
  }

  lemma FourDigits(d: seq<nat>, base: nat)
    requires |d| == 4
    ensures Value(d, base) == ((d[0] * base + d[1]) * base + d[2]) * base + d[3]
  {
    AppendDigit(d[..1], d[1], base);
    AppendDigit(d[..2], d[2], base);
    AppendDigit(d[..3], d[3], base);
    assert d[..2] == d[..1] + [d[1]] && d[..3] == d[..2] + [d[2]] && d == d[..3] + [d[3]];
    assert Value(d[..1], base) == d[0] by { assert d[..1] == [] + [d[0]]; AppendDigit([], d[0], base); }
  }

  lemma EightDigits(d: seq<nat>, base: nat)
    requires |d| == 8 && base == 32
    ensures Value(d, base) == (((d[0] * 32 + d[1]) * 32 + d[2]) * 32 + d[3]) * 0x10_0000
                            + ((d[4] * 32 + d[5]) * 32 + d[6]) * 32 + d[7]
  {
    FourDigits(d[..4], base);
    FourDigits(d[4..], base);
    ValueConcat(d[..4], d[4..], base);
    assert d == d[..4] + d[4..];
    assert Pow(32, 2) == 1024;
  }

  lemma AppendDigit(d: seq<nat>, x: nat, base: nat)
    ensures Value(d + [x], base) == Value(d, base) * base + x
  {
    ValueConcat(d, [x], base);
    assert Pow(base, 1) == Pow(base, 0) * base == base;
    assert Pow(base, 0) == 1;
    assert [x][1..] == [];
    assert Value([x], base) == x;
  }

  /** Regrouping bytes as quintets keeps the number they denote. */
  lemma {:induction false} SplitKeepsValue(b: seq<Byte>)
    requires |b| % 5 == 0
    ensures Value(Split(b), 32) == Value(b, 256)
    decreases |b|
  {
    if b != [] {
      GroupKeepsValue(b[..5]);
      SplitKeepsValue(b[5..]);
      ValueConcat(EncodeGroup(b[..5]), Split(b[5..]), 32);
      ValueConcat(b[..5], b[5..], 256);
      assert b[..5] + b[5..] == b;
      PowerOfGroups(|b[5..]| / 5);
      assert |Split(b[5..])| == 8 * (|b[5..]| / 5) && |b[5..]| == 5 * (|b[5..]| / 5);
    }
  }

  function HexValues(s: string): (v: seq<nat>)
    requires forall i :: 0 <= i < |s| ==> StoreModel.IsCanonicalChar(s[i])
    ensures |v| == |s|
  {
    seq(|s|, i requires 0 <= i < |s| => HexValue(s[i]))
  }

  /** Two hex digits a byte denote the number the bytes denote. */
  lemma {:induction false} HexKeepsValue(b: seq<Byte>)
    ensures forall i :: 0 <= i < |HexEncode(b)| ==> StoreModel.IsCanonicalChar(HexEncode(b)[i])
    ensures Value(HexValues(HexEncode(b)), 16) == Value(b, 256)
  {
    HexEncodeReads(b);
    if b != [] {
      HexEncodeReads(b[1..]);
      HexKeepsValue(b[1..]);
      var s, rest := HexEncode(b), HexValues(HexEncode(b[1..]));
      var hi, lo := b[0] / 16, b[0] % 16;
      assert HexValues(s) == [hi, lo] + rest by { HexDigitReads(hi); HexDigitReads(lo); }
      TwoDigits(hi, lo);
      ValueConcat([hi, lo], rest, 16);
      NibblePowers(|b[1..]|);
    }
  }

  lemma TwoDigits(hi: nat, lo: nat)
    ensures Value([hi, lo], 16) == hi * 16 + lo
  {
    assert [hi] == [] + [hi] && [hi, lo] == [hi] + [lo];
    AppendDigit([], hi, 16);
    AppendDigit([hi], lo, 16);
  }

  lemma NibblePowers(k: nat)
    ensures Pow(16, 2 * k) == Pow(256, k)
  {
    if k > 0 {
      NibblePowers(k - 1);
      assert Pow(16, 2 * k) == Pow(16, 2 * k - 1) * 16 == Pow(16, 2 * (k - 1)) * 16 * 16;
    }
  }

  /**
   * The two spellings of one byte string are the same number, most significant digit first: what
   * sections 6 and 8 of RFC 4648 mean by encoding a bit string.
   */
  lemma SpellingsDenoteOneNumber(d: seq<Byte>)
    requires |d| % 5 == 0
    ensures forall i :: 0 <= i < |HexEncode(d)| ==> StoreModel.IsCanonicalChar(HexEncode(d)[i])
    ensures AllBase32(Base32Encode(d))
    ensures Value(HexValues(HexEncode(d)), 16) == Value(d, 256) == Value(Base32Values(Base32Encode(d)), 32)
  {
    HexKeepsValue(d);
    Base32RoundTrip(d);
    SplitKeepsValue(d);
  }
}
