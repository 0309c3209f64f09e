/** What the pairing derives from a shared secret (src/pairing/verification_code.cpp,
    src/pairing/ecdh_handshake.cpp), over uninterpreted primitives. */
module PairingCrypto {
  import opened ByteStrings
  import opened Hkdf

  const PUB_LEN: nat := 64
  const NONCE_LEN: nat := 32
  const SHARED_LEN: nat := 32

  /** The platform's primitives: any functions of these types. `shared(k, p)` is the ECDH of
      private key `k` with public point `p`, absent when the backend rejects the point. */
  datatype Crypto = Crypto(sha: Bytes -> Bytes, hmac: Hmac, pub: Bytes -> Bytes,
                           shared: (Bytes, Bytes) -> Option<Bytes>)

  /** Output lengths, and the one algebraic law used: ECDH commutes. */
  ghost predicate Lawful(c: Crypto) {
    && (forall b :: |c.sha(b)| == 32)
    && (forall k :: |c.pub(k)| == PUB_LEN)
    && (forall a, b :: c.shared(a, c.pub(b)) == c.shared(b, c.pub(a)))
    && (forall a, b :: c.shared(a, c.pub(b)).Some? && |c.shared(a, c.pub(b)).value| == SHARED_LEN)
  }

  // ---------------------------------------------------------------- the six-digit code

  function Decimal(v: nat, n: nat): (r: Bytes)
    ensures |r| == n
  {
    if n == 0 then [] else Decimal(v / 10, n - 1) + [48 + v % 10]
  }

  /** First four bytes, high bit cleared, modulo a million, zero-padded to six digits. */
  function Truncate6(mac: Bytes): (code: Bytes)
    requires |mac| >= 4
    ensures |code| == 6
  {
    var v := Value(mac[..4]);
    Decimal((if v >= 0x8000_0000 then v - 0x8000_0000 else v) % 1_000_000, 6)
  }

  // What a decimal display means.

  ghost predicate AreDigits(s: Bytes) { forall i :: 0 <= i < |s| ==> 48 <= s[i] <= 57 }

  /** The number a string of decimal digits denotes. */
  function DecimalValue(s: Bytes): int {
    if s == [] then 0 else 10 * DecimalValue(s[..|s| - 1]) + (s[|s| - 1] as int - 48)
  }

  function Pow10(n: nat): nat { if n == 0 then 1 else 10 * Pow10(n - 1) }

  lemma {:induction false} DecimalReadsBack(v: nat, n: nat)
    requires v < Pow10(n)
    ensures AreDigits(Decimal(v, n)) && DecimalValue(Decimal(v, n)) == v
  {
    if n > 0 {
      DecimalReadsBack(v / 10, n - 1);
      assert Decimal(v, n)[..n - 1] == Decimal(v / 10, n - 1);
    }
  }

  /** `code` shows the number the first four bytes of `mac` denote, without their top bit, in
      its last six decimal digits. */
  ghost predicate Shows(code: Bytes, mac: Bytes)
    requires |mac| >= 4
  {
    |code| == 6 && AreDigits(code) && DecimalValue(code) == Value(mac[..4]) % 0x8000_0000 % 1_000_000
  }

  lemma TruncationShows(mac: Bytes)
    requires |mac| >= 4
    ensures Shows(Truncate6(mac), mac)
  {
    ValueBound(mac[..4]);
    WordSizes();
    WithoutTopBit(Value(mac[..4]));
    Million();
    DecimalReadsBack(Value(mac[..4]) % 0x8000_0000 % 1_000_000, 6);
  }

  lemma WithoutTopBit(v: nat)
    requires v < U32
    ensures (if v >= 0x8000_0000 then v - 0x8000_0000 else v) == v % 0x8000_0000
  {
  }

  lemma Million()
    ensures Pow10(6) == 1_000_000
  {
    assert Pow10(3) == 10 * (10 * (10 * Pow10(0)));
    assert Pow10(6) == 10 * (10 * (10 * Pow10(3)));
  }

  /** C `memcmp` on `m` bytes. */
  function MemCmp(a: Bytes, b: Bytes, m: nat): int
    requires m <= |a| && m <= |b|
  {
    if m == 0 then 0 else if a[0] != b[0] then a[0] - b[0] else MemCmp(a[1..], b[1..], m - 1)
  }

  /** The comparison as written decides the lexicographic order. */
  lemma {:induction false} MemCmpIsOrder(a: Bytes, b: Bytes)
    ensures var m := if |a| < |b| then |a| else |b|;
            var c := if m > 0 then MemCmp(a, b, m) else 0;
            c > 0 || (c == 0 && |a| > |b|) <==> Less(b, a)
  {
    if a != [] && b != [] && a[0] == b[0] { MemCmpIsOrder(a[1..], b[1..]); }
  }

  const PAIRING: Bytes := [112, 97, 105, 114, 105, 110, 103]

  function Code(c: Crypto, shared: Bytes, nonceA: Bytes, nonceB: Bytes): Bytes {
    var (lo, hi) := if Less(nonceB, nonceA) then (nonceB, nonceA) else (nonceA, nonceB);
    Truncate6(c.hmac(shared, PAIRING + lo + hi))
  }

  /** What the code of two nonces is: six digits of the MAC, under the shared secret, of
      "pairing" and the two nonces, the smaller one first. */
  ghost predicate IsCode(c: Crypto, shared: Bytes, a: Bytes, b: Bytes, code: Bytes) {
    forall lo, hi :: (lo == a && hi == b) || (lo == b && hi == a) ==>
      !Less(hi, lo) ==> Shows(code, c.hmac(shared, Ascii("pairing") + lo + hi))
  }

  lemma CodeIsCode(c: Crypto, shared: Bytes, a: Bytes, b: Bytes)
    ensures IsCode(c, shared, a, b, Code(c, shared, a, b))
  {
    LessTotal(a, b);
    if Less(a, b) { LessAsymmetric(a, b); }
    assert PAIRING == Ascii("pairing");
    TruncationShows(c.hmac(shared, PAIRING + a + b));
    TruncationShows(c.hmac(shared, PAIRING + b + a));
  }

  /** Both ends show the same digits, whoever names its nonce first. */
  lemma CodeSymmetric(c: Crypto, shared: Bytes, a: Bytes, b: Bytes)
    ensures Code(c, shared, a, b) == Code(c, shared, b, a)
  {
    LessTotal(a, b);
    if Less(a, b) { LessAsymmetric(a, b); }
    if Less(b, a) { LessAsymmetric(b, a); }
  }

  method VerificationCode(c: Crypto, shared: Bytes, nonceA: Bytes, nonceB: Bytes) returns (code: Bytes)
    ensures code == Code(c, shared, nonceA, nonceB) && IsCode(c, shared, nonceA, nonceB, code)
  {
    CodeIsCode(c, shared, nonceA, nonceB);
    var lo, hi := nonceA, nonceB;
    var m := if |nonceA| < |nonceB| then |nonceA| else |nonceB|;
    var cmp := if m > 0 then MemCmp(nonceA, nonceB, m) else 0;
    if cmp > 0 || (cmp == 0 && |nonceA| > |nonceB|) { lo, hi := nonceB, nonceA; }
    MemCmpIsOrder(nonceA, nonceB);
    code := Truncate6(c.hmac(shared, PAIRING + lo + hi));
  }

  // ---------------------------------------------------------------- the long-term key

  const PSK_INFO: Bytes := [115, 107, 105, 116, 116, 101, 114, 109, 111, 117, 115, 101, 45, 112, 115, 107, 45, 118, 49]

  function Salt(idA: PeerId, idB: PeerId): Bytes {
    if Less(idA, idB) then idA + [124] + idB else idB + [124] + idA
  }

  function Psk(c: Crypto, shared: Bytes, idA: PeerId, idB: PeerId): (psk: Bytes)
    ensures |psk| == 32
  {
    Expand(c.hmac, Extract(c.hmac, Salt(idA, idB), shared), PSK_INFO, 32)
  }

  lemma PskSymmetric(c: Crypto, shared: Bytes, a: PeerId, b: PeerId)
    ensures Psk(c, shared, a, b) == Psk(c, shared, b, a)
  {
    LessTotal(a, b);
    if Less(a, b) { LessAsymmetric(a, b); }
    if Less(b, a) { LessAsymmetric(b, a); }
  }

  /** What the key is, written out from sections 2.2 and 2.3 of RFC 5869 for one block. */
  ghost predicate IsPsk(c: Crypto, shared: Bytes, idA: PeerId, idB: PeerId, psk: Bytes) {
    forall lo, hi :: (lo == idA && hi == idB) || (lo == idB && hi == idA) ==>
      !Less(hi, lo) ==>
        psk == c.hmac(c.hmac(lo + Ascii("|") + hi, shared), Ascii("skittermouse-psk-v1") + [1])
  }

  lemma PskIsPsk(c: Crypto, shared: Bytes, a: PeerId, b: PeerId)
    ensures IsPsk(c, shared, a, b, Psk(c, shared, a, b))
  {
    LessTotal(a, b);
    if Less(a, b) { LessAsymmetric(a, b); }
    if Less(b, a) { LessAsymmetric(b, a); }
    assert PSK_INFO == Ascii("skittermouse-psk-v1") && Ascii("|") == [124];
    OneBlock(c.hmac, Extract(c.hmac, Salt(a, b), shared), PSK_INFO);
  }

  lemma OneBlock(hmac: Hmac, prk: Bytes, info: Bytes)
    ensures Expand(hmac, prk, info, 32) == hmac(prk, info + [1])
  {
    assert [] + info + [1] == info + [1];
    assert T(hmac, prk, info, 1) == hmac(prk, T(hmac, prk, info, 0) + info + [1]);
    assert Blocks(hmac, prk, info, 1) == Blocks(hmac, prk, info, 0) + T(hmac, prk, info, 1);
  }

  method DerivePsk(c: Crypto, shared: Bytes, idA: PeerId, idB: PeerId) returns (psk: Option<Bytes>)
    ensures psk == if |shared| == SHARED_LEN then Some(Psk(c, shared, idA, idB)) else None
    ensures psk.Some? ==> IsPsk(c, shared, idA, idB, psk.value)
  {
    if |shared| != SHARED_LEN { return None; }
    PskIsPsk(c, shared, idA, idB);
    var lo := if Less(idA, idB) then idA else idB;
    var hi := if Less(idA, idB) then idB else idA;
    var okm := HkdfSha256(c.hmac, shared, lo + [124] + hi, PSK_INFO, 32);
    if |okm| != 32 { return None; }
    psk := Some(okm);
  }
}
