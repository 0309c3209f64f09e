/** HKDF-SHA256 (src/crypto/hkdf.cpp) over an arbitrary 32-byte HMAC, against the
    definition in section 2 of RFC 5869. */
module Hkdf {
  import opened ByteStrings

  const HASH_LEN: nat := 32
  const MAX_OKM: nat := 255 * HASH_LEN

  /** hmac(key, data): any function with 32-byte output. */
  type Hmac = f: (Bytes, Bytes) -> Bytes | (forall k, d :: |f(k, d)| == HASH_LEN)
    witness (k: Bytes, d: Bytes) => Zeros(HASH_LEN)

  /** Section 2.2: an absent salt is HashLen zeros. */
  function Extract(hmac: Hmac, salt: Bytes, ikm: Bytes): (prk: Bytes)
    ensures |prk| == HASH_LEN
  {
    hmac(if salt == [] then Zeros(HASH_LEN) else salt, ikm)
  }

  /** Section 2.3: T(0) is empty, T(i) = HMAC(PRK, T(i-1) | info | i). */
  function T(hmac: Hmac, prk: Bytes, info: Bytes, i: nat): (t: Bytes)
    requires i <= 255
    ensures i > 0 ==> |t| == HASH_LEN
  {
    if i == 0 then [] else hmac(prk, T(hmac, prk, info, i - 1) + info + [i])
  }

  /** T(1) | T(2) | ... | T(n). */
  function Blocks(hmac: Hmac, prk: Bytes, info: Bytes, n: nat): (b: Bytes)
    requires n <= 255
    ensures |b| == n * HASH_LEN
  {
    if n == 0 then [] else Blocks(hmac, prk, info, n - 1) + T(hmac, prk, info, n)
  }

  /** Section 2.3: N = ceil(L / HashLen), the first L octets of T(1) | ... | T(N). */
  function Expand(hmac: Hmac, prk: Bytes, info: Bytes, len: nat): (okm: Bytes)
    requires len <= MAX_OKM
    ensures |okm| == len
  {
    Blocks(hmac, prk, info, (len + HASH_LEN - 1) / HASH_LEN)[..len]
  }

  lemma {:induction false} BlocksArePrefixes(hmac: Hmac, prk: Bytes, info: Bytes, m: nat, n: nat)
    requires m <= n <= 255
    ensures Blocks(hmac, prk, info, m) <= Blocks(hmac, prk, info, n)
  {
    if m < n { BlocksArePrefixes(hmac, prk, info, m, n - 1); }
  }

  /** Asking for less output gives a prefix of asking for more. */
  lemma ShorterIsPrefix(hmac: Hmac, prk: Bytes, info: Bytes, short: nat, long: nat)
    requires short <= long <= MAX_OKM
    ensures Expand(hmac, prk, info, short) <= Expand(hmac, prk, info, long)
  {
    var m, n := (short + HASH_LEN - 1) / HASH_LEN, (long + HASH_LEN - 1) / HASH_LEN;
    BlocksArePrefixes(hmac, prk, info, m, n);
  }

  lemma ExpandIsPrefixOfBlocks(hmac: Hmac, prk: Bytes, info: Bytes, n: nat, len: nat)
    requires n <= 255 && len <= n * HASH_LEN
    ensures Expand(hmac, prk, info, len) == Blocks(hmac, prk, info, n)[..len]
  {
    BlocksArePrefixes(hmac, prk, info, (len + HASH_LEN - 1) / HASH_LEN, n);
  }

  /** Section 2.3 read off the output alone: every 32 octets, or the rest at the end, are the
      HMAC of the 32 before them, the info and the block number. */
  ghost predicate Chained(hmac: Hmac, prk: Bytes, info: Bytes, okm: Bytes) {
    forall i :: 1 <= i <= 255 && 32 * (i - 1) <= |okm| ==> ChainedAt(hmac, prk, info, okm, i)
  }

  ghost predicate ChainedAt(hmac: Hmac, prk: Bytes, info: Bytes, okm: Bytes, i: nat)
    requires 1 <= i <= 255 && 32 * (i - 1) <= |okm|
  {
    var to := Min(32 * i, |okm|);
    var before := if i == 1 then [] else okm[32 * (i - 2)..32 * (i - 1)];
    okm[32 * (i - 1)..to] == hmac(prk, before + info + [i])[..to - 32 * (i - 1)]
  }

  lemma BlockAt(hmac: Hmac, prk: Bytes, info: Bytes, n: nat, i: nat)
    requires 1 <= i <= n <= 255
    ensures Blocks(hmac, prk, info, n)[32 * (i - 1)..32 * i] == T(hmac, prk, info, i)
  {
    BlocksArePrefixes(hmac, prk, info, i, n);
    assert Blocks(hmac, prk, info, n)[32 * (i - 1)..32 * i] == Blocks(hmac, prk, info, i)[32 * (i - 1)..32 * i];
  }

  lemma ExpandIsChained(hmac: Hmac, prk: Bytes, info: Bytes, len: nat)
    requires len <= MAX_OKM
    ensures Chained(hmac, prk, info, Expand(hmac, prk, info, len))
  {
    var okm, all := Expand(hmac, prk, info, len), Blocks(hmac, prk, info, 255);
    ExpandIsPrefixOfBlocks(hmac, prk, info, 255, len);
    forall i | 1 <= i <= 255 && 32 * (i - 1) <= len
      ensures ChainedAt(hmac, prk, info, okm, i)
    {
      var to := Min(32 * i, len);
      BlockAt(hmac, prk, info, 255, i);
      assert okm[32 * (i - 1)..to] == all[32 * (i - 1)..32 * i][..to - 32 * (i - 1)];
      if i > 1 {
        BlockAt(hmac, prk, info, 255, i - 1);
        assert okm[32 * (i - 2)..32 * (i - 1)] == all[32 * (i - 2)..32 * (i - 1)];
      }
    }
  }

  lemma AppendTake(a: Bytes, b: Bytes, k: nat)
    requires k <= |b|
    ensures a[..|a|] == a && (a + b)[..|a| + k] == a + b[..k]
  {
  }

  /** The loop as written: the 8-bit counter wraps to 0 after 255 blocks and ends it. */
  method HkdfSha256(hmac: Hmac, ikm: Bytes, salt: Bytes, info: Bytes, okmLen: nat) returns (okm: Bytes)
    ensures okm == Expand(hmac, Extract(hmac, salt, ikm), info, if okmLen <= MAX_OKM then okmLen else MAX_OKM)
    ensures |okm| == Min(okmLen, 8160)
    ensures Chained(hmac, hmac(if salt == [] then Zeros(32) else salt, ikm), info, okm)
  {
    var prk := hmac(if |salt| > 0 then salt else Zeros(32), ikm);
    okm := [];
    var t: Bytes := [];
    var counter: byte := 1;
    ghost var n := 0;
    while |okm| < okmLen && counter != 0
      invariant n <= 255 && counter == (n + 1) % 256
      invariant t == T(hmac, prk, info, n)
      invariant |okm| == if n * HASH_LEN <= okmLen then n * HASH_LEN else okmLen
      invariant okm == Blocks(hmac, prk, info, n)[..|okm|]
      decreases 255 - n
    {
      var input := t + info + [counter];
      t := hmac(prk, input);
      var take := if |okm| + |t| <= okmLen then |t| else okmLen - |okm|;
      AppendTake(Blocks(hmac, prk, info, n), t, take);
      okm := okm + t[..take];
      counter := (counter + 1) % 256;
      n := n + 1;
    }
    ExpandIsPrefixOfBlocks(hmac, prk, info, n, |okm|);
    ExpandIsChained(hmac, prk, info, |okm|);
  }
}
