/** Byte strings, fixed-width big-endian integers and the lexicographic order of
    `std::string`: the vocabulary every codec and protocol of the mesh shares. */
module ByteStrings {

  type byte = x: int | 0 <= x < 256
  type Bytes = seq<byte>

  /** Machine identifiers are arbitrary byte strings. */
  type PeerId = Bytes

  datatype Option<+T> = None | Some(value: T)

  const U64: nat := 0x1_0000_0000_0000_0000
  const U64_MAX: nat := U64 - 1
  const U32: nat := 0x1_0000_0000

  /** `static_cast<uint32_t>`. */
  function Cast32(n: nat): nat { if n < U32 then n else n % U32 }

  function Min(a: nat, b: nat): nat { if a <= b then a else b }

  function Zeros(n: nat): (r: Bytes)
    ensures |r| == n
  {
    seq(n, _ => 0)
  }

  /** The bytes of a string literal. */
  function Ascii(s: string): (r: Bytes)
    requires forall i :: 0 <= i < |s| ==> s[i] < 128 as char
    ensures |r| == |s| && forall i :: 0 <= i < |s| ==> r[i] == s[i] as int
  {
    seq(|s|, i requires 0 <= i < |s| => s[i] as int)
  }

  // ---------------------------------------------------------------- big-endian integers

  function Pow256(n: nat): (p: nat)
    ensures p > 0
  {
    if n == 0 then 1 else 256 * Pow256(n - 1)
  }

  lemma WordSizes()
    ensures Pow256(1) == 256 && Pow256(2) == 65536 && Pow256(4) == U32 && Pow256(8) == U64
  {
    assert Pow256(3) == 256 * Pow256(2);
    assert Pow256(4) == 256 * Pow256(3);
    assert Pow256(5) == 256 * Pow256(4);
    assert Pow256(6) == 256 * Pow256(5);
    assert Pow256(7) == 256 * Pow256(6);
  }

  /** The low `n` bytes of `v`, most significant first. */
  function BigEndian(v: nat, n: nat): (r: Bytes)
    ensures |r| == n
  {
    if n == 0 then [] else BigEndian(v / 256, n - 1) + [v % 256]
  }

  /** The number a big-endian byte string denotes. */
  function Value(s: Bytes): nat {
    if s == [] then 0 else 256 * Value(s[..|s| - 1]) + s[|s| - 1]
  }

  lemma {:induction false} ValueBound(s: Bytes)
    ensures Value(s) < Pow256(|s|)
  {
    if s != [] { ValueBound(s[..|s| - 1]); }
  }

  /** Printing then reading loses exactly the bits that do not fit. */
  lemma {:induction false} ValueOfBigEndian(v: nat, n: nat)
    requires v < Pow256(n)
    ensures Value(BigEndian(v, n)) == v
  {
    if n != 0 {
      ValueOfBigEndian(v / 256, n - 1);
      assert BigEndian(v, n)[..n - 1] == BigEndian(v / 256, n - 1);
    }
  }

  /** Reading then printing restores the bytes. */
  lemma {:induction false} BigEndianOfValue(s: Bytes)
    ensures BigEndian(Value(s), |s|) == s
  {
    if s != [] {
      BigEndianOfValue(s[..|s| - 1]);
      assert s == s[..|s| - 1] + [s[|s| - 1]];
    }
  }

  /** `v >> 8i`. */
  function Shift(v: nat, i: nat): nat {
    if i == 0 then v else Shift(v, i - 1) / 256
  }

  lemma {:induction false} ShiftFront(v: nat, i: nat)
    ensures Shift(v / 256, i) == Shift(v, i + 1)
  {
    if i != 0 { ShiftFront(v, i - 1); }
  }

  /** One more byte of the same number goes on the most significant side. */
  lemma {:induction false} BigEndianFront(v: nat, i: nat)
    ensures BigEndian(v, i + 1) == [Shift(v, i) % 256] + BigEndian(v, i)
  {
    if i != 0 {
      BigEndianFront(v / 256, i - 1);
      ShiftFront(v, i - 1);
    }
  }

  /** The byte-pushing loops `for (i = n-1; i >= 0; --i) push((v >> 8i) & 0xff)`. */
  method PutBigEndian(v: nat, n: nat) returns (b: Bytes)
    ensures b == BigEndian(v, n)
  {
    b := [];
    var i := n;
    while i > 0
      invariant 0 <= i <= n
      invariant b == BigEndian(Shift(v, i), n - i)
    {
      i := i - 1;
      b := b + [Shift(v, i) % 256];
    }
  }

  /** The loops `v = (v << 8) | p[i]` in an unsigned word of `n` bytes. */
  method GetBigEndian(p: Bytes, n: nat) returns (v: nat)
    requires |p| >= n
    ensures v == Value(p[..n])
  {
    v := 0;
    for i := 0 to n
      invariant v == Value(p[..i])
    {
      ValueStep(p, i, n);
      v := Truncate(256 * v + p[i], n);
    }
  }

  /** Reduction to an unsigned word of `n` bytes. */
  function Truncate(v: nat, n: nat): nat {
    v % Pow256(n)
  }

  lemma ValueStep(p: Bytes, i: nat, n: nat)
    requires i < n <= |p|
    ensures Truncate(256 * Value(p[..i]) + p[i], n) == Value(p[..i + 1])
  {
    assert p[..i + 1][..i] == p[..i];
    ValueBound(p[..i + 1]);
    PowMonotone(i + 1, n);
    SmallMod(Value(p[..i + 1]), Pow256(n));
  }

  lemma SmallMod(x: nat, m: nat)
    requires x < m
    ensures x % m == x
  {
  }

  lemma {:induction false} PowMonotone(i: nat, n: nat)
    requires i <= n
    ensures Pow256(i) <= Pow256(n)
  {
    if i < n { PowMonotone(i, n - 1); }
  }

  // ---------------------------------------------------------------- exclusive or

  function Pow2(n: nat): (p: nat)
    ensures p > 0
  {
    if n == 0 then 1 else 2 * Pow2(n - 1)
  }

  /** Bit `i` of a number. */
  function Bit(v: nat, i: nat): nat { v / Pow2(i) % 2 }

  /** Bitwise exclusive or of two `n`-bit words. */
  function XorBits(a: nat, b: nat, n: nat): (r: nat)
    ensures r < Pow2(n)
  {
    if n == 0 then 0
    else 2 * XorBits(a / 2, b / 2, n - 1) + (if a % 2 == b % 2 then 0 else 1)
  }

  lemma {:induction false} XorBitsInvolution(a: nat, b: nat, n: nat)
    requires a < Pow2(n)
    ensures XorBits(XorBits(a, b, n), b, n) == a
  {
    if n != 0 {
      var r := XorBits(a, b, n);
      assert r / 2 == XorBits(a / 2, b / 2, n - 1);
      XorBitsInvolution(a / 2, b / 2, n - 1);
    }
  }

  lemma ProductGrows(a: nat, b: nat, d: nat)
    requires a < b
    ensures a * d + d <= b * d
  {
    assert b * d - a * d == (b - a) * d;
    assert (b - a) * d == d + (b - a - 1) * d;
  }

  lemma QuotientIs(v: nat, d: nat, q: nat)
    requires d > 0 && q * d <= v < q * d + d
    ensures v / d == q
  {
    var k := v / d;
    assert v == k * d + v % d;
    if k < q { ProductGrows(k, q, d); }
    if q < k { ProductGrows(q, k, d); }
  }

  lemma HalveThenDivide(v: nat, p: nat)
    requires p > 0
    ensures v / 2 / p == v / (2 * p)
  {
    var h := v / 2;
    var q := h / p;
    assert h == q * p + h % p;
    assert q * (2 * p) == 2 * (q * p);
    QuotientIs(v, 2 * p, q);
  }

  lemma BitOfHalf(v: nat, i: nat)
    requires i > 0
    ensures Bit(v, i) == Bit(v / 2, i - 1)
  {
    HalveThenDivide(v, Pow2(i - 1));
  }

  lemma {:induction false} XorBitsBit(a: nat, b: nat, n: nat, i: nat)
    requires i < n
    ensures Bit(XorBits(a, b, n), i) == if Bit(a, i) != Bit(b, i) then 1 else 0
  {
    var r := XorBits(a, b, n);
    assert r / 2 == XorBits(a / 2, b / 2, n - 1);
    if i == 0 {
      assert Pow2(0) == 1;
    } else {
      BitOfHalf(r, i);
      BitOfHalf(a, i);
      BitOfHalf(b, i);
      XorBitsBit(a / 2, b / 2, n - 1, i - 1);
    }
  }

  /** Exclusive or, bit by bit. */
  lemma XorIsExclusiveOr(a: byte, b: byte, i: nat)
    requires i < 8
    ensures Bit(Xor(a, b), i) == 1 <==> Bit(a, i) != Bit(b, i)
  {
    XorBitsBit(a, b, 8, i);
  }

  lemma {:induction false} XorBitsZero(a: nat, n: nat)
    requires a < Pow2(n)
    ensures XorBits(a, 0, n) == a
  {
    if n != 0 { XorBitsZero(a / 2, n - 1); }
  }

  /** The word whose low `n` bits are `low`. */
  function Pieces(high: nat, low: nat, n: nat): nat { high * Pow2(n) + low }

  lemma PiecesHalve(high: nat, low: nat, n: nat)
    requires n > 0 && low < Pow2(n)
    ensures low / 2 < Pow2(n - 1)
    ensures Pieces(high, low, n) / 2 == Pieces(high, low / 2, n - 1) && Pieces(high, low, n) % 2 == low % 2
  {
    var p := Pow2(n - 1);
    assert high * (2 * p) == 2 * (high * p);
  }

  /** Words may be combined piece by piece. */
  lemma {:induction false} XorInPieces(ah: nat, al: nat, bh: nat, bl: nat, n: nat, m: nat)
    requires al < Pow2(n) && bl < Pow2(n)
    ensures XorBits(Pieces(ah, al, n), Pieces(bh, bl, n), n + m) == Pieces(XorBits(ah, bh, m), XorBits(al, bl, n), n)
  {
    if n > 0 {
      PiecesHalve(ah, al, n);
      PiecesHalve(bh, bl, n);
      XorInPieces(ah, al / 2, bh, bl / 2, n - 1, m);
      PiecesHalve(XorBits(ah, bh, m), XorBits(al, bl, n), n);
    }
  }

  lemma Pow2Of8()
    ensures Pow2(8) == 256
  {
    assert Pow2(4) == 2 * (2 * (2 * (2 * Pow2(0))));
    assert Pow2(6) == 2 * Pow2(5) && Pow2(5) == 2 * Pow2(4);
    assert Pow2(8) == 2 * Pow2(7) && Pow2(7) == 2 * Pow2(6);
  }

  lemma {:induction false} Pow2Sum(m: nat, n: nat)
    ensures Pow2(m + n) == Pow2(m) * Pow2(n)
  {
    if m > 0 {
      Pow2Sum(m - 1, n);
      assert Pow2(m + n) == 2 * (Pow2(m - 1) * Pow2(n)) == 2 * Pow2(m - 1) * Pow2(n);
    }
  }

  lemma Pow2Of56()
    ensures Pow2(8) == 256 && Pow2(56) == 0x100_0000_0000_0000
  {
    Pow2Of8();
    Doubled(8, 256);
    Doubled(16, 0x1_0000);
    Pow2Sum(32, 16);
    Pow2Sum(48, 8);
  }

  lemma Doubled(n: nat, p: nat)
    requires Pow2(n) == p
    ensures Pow2(2 * n) == p * p
  {
    Pow2Sum(n, n);
  }

  function Xor(a: byte, b: byte): byte {
    Pow2Of8();
    XorBits(a, b, 8)
  }

  lemma XorInvolution(a: byte, b: byte)
    ensures Xor(Xor(a, b), b) == a
  {
    Pow2Of8();
    XorBitsInvolution(a, b, 8);
  }

  /** Combining a 64-bit word with a byte touches its low byte only. */
  lemma XorLowByte(h: nat, c: byte)
    requires h < U64
    ensures XorBits(h, c, 64) == h - h % 256 + Xor(h % 256, c)
  {
    Pow2Of56();
    XorInPieces(h / 256, h % 256, 0, c, 8, 56);
    XorBitsZero(h / 256, 56);
  }

  // ---------------------------------------------------------------- std::string order

  /** `a < b` on `std::string`: bytes compared as unsigned, a proper prefix is smaller. */
  predicate Less(a: Bytes, b: Bytes) {
    b != [] && (a == [] || a[0] < b[0] || (a[0] == b[0] && Less(a[1..], b[1..])))
  }

  /** The first difference decides, and a proper prefix is smaller. */
  lemma {:induction false} LessIsLexicographic(a: Bytes, b: Bytes)
    ensures Less(a, b) <==>
            exists k :: 0 <= k <= |a| && k < |b| && a[..k] == b[..k] && (k < |a| ==> a[k] < b[k])
  {
    if Less(a, b) {
      var k := FirstDifference(a, b);
    } else if k :| 0 <= k <= |a| && k < |b| && a[..k] == b[..k] && (k < |a| ==> a[k] < b[k]) {
      DecidesLess(a, b, k);
    }
  }

  lemma {:induction false} FirstDifference(a: Bytes, b: Bytes) returns (k: nat)
    requires Less(a, b)
    ensures k <= |a| && k < |b| && a[..k] == b[..k] && (k < |a| ==> a[k] < b[k])
  {
    if a != [] && a[0] == b[0] {
      var j := FirstDifference(a[1..], b[1..]);
      k := j + 1;
      assert a[..k] == [a[0]] + a[1..][..j] && b[..k] == [b[0]] + b[1..][..j];
    } else {
      k := 0;
    }
  }

  lemma {:induction false} DecidesLess(a: Bytes, b: Bytes, k: nat)
    requires k <= |a| && k < |b| && a[..k] == b[..k] && (k < |a| ==> a[k] < b[k])
    ensures Less(a, b)
  {
    if k > 0 {
      assert a[0] == a[..k][0] && b[0] == b[..k][0];
      assert a[1..][..k - 1] == a[..k][1..] && b[1..][..k - 1] == b[..k][1..];
      DecidesLess(a[1..], b[1..], k - 1);
    }
  }

  lemma {:induction false} LessIrreflexive(a: Bytes)
    ensures !Less(a, a)
  {
    if a != [] { LessIrreflexive(a[1..]); }
  }

  lemma {:induction false} LessTotal(a: Bytes, b: Bytes)
    ensures a == b || Less(a, b) || Less(b, a)
  {
    if a != [] && b != [] && a[0] == b[0] {
      LessTotal(a[1..], b[1..]);
      assert a == [a[0]] + a[1..] && b == [b[0]] + b[1..];
    }
  }

  lemma {:induction false} LessTransitive(a: Bytes, b: Bytes, c: Bytes)
    requires Less(a, b) && Less(b, c)
    ensures Less(a, c)
  {
    if a != [] && a[0] == b[0] && b[0] == c[0] { LessTransitive(a[1..], b[1..], c[1..]); }
  }

  lemma LessAsymmetric(a: Bytes, b: Bytes)
    requires Less(a, b)
    ensures !Less(b, a)
  {
    if Less(b, a) {
      LessTransitive(a, b, a);
      LessIrreflexive(a);
    }
  }
}
