/** The DER builder behind the self-signed certificate (src/crypto/x509_selfsigned.cpp),
    read back by an independent reader that follows ITU-T X.690 sections 8.1.3, 8.3, 10.1. */
module Der {
  import opened ByteStrings

  // ---------------------------------------------------------------- lengths

  /** How many base-256 digits `n` has. */
  function ByteCount(n: nat): nat { if n == 0 then 0 else 1 + ByteCount(n / 256) }

  lemma {:induction false} ByteCountExact(n: nat)
    ensures n < Pow256(ByteCount(n))
    ensures n > 0 ==> BigEndian(n, ByteCount(n))[0] != 0
  {
    if n > 0 { ByteCountExact(n / 256); }
  }

  lemma {:induction false} ByteCountBound(n: nat, k: nat)
    requires n < Pow256(k)
    ensures ByteCount(n) <= k
  {
    if n > 0 { ByteCountBound(n / 256, k - 1); }
  }

  /** A digit string without leading zero is as long as its value needs. */
  lemma {:induction false} ByteCountOfValue(s: Bytes)
    requires s == [] || s[0] != 0
    ensures ByteCount(Value(s)) == |s|
  {
    if s != [] {
      ByteCountOfValue(s[..|s| - 1]);
      if |s| > 1 { PositiveValue(s[..|s| - 1]); }
    }
  }

  lemma {:induction false} PositiveValue(s: Bytes)
    requires s != [] && s[0] != 0
    ensures Value(s) > 0
  {
    if |s| > 1 { PositiveValue(s[..|s| - 1]); }
  }

  function LenBytes(n: nat): Bytes
    requires n < U64
  {
    if n < 128 then [n]
    else
      WordSizes(); ByteCountBound(n, 8);
      [128 + ByteCount(n)] + BigEndian(n, ByteCount(n))
  }

  /** The loop as written: digits into a scratch array, least significant first, then out
      in reverse. */
  method PutLen(n: nat) returns (b: Bytes)
    requires n < U64
    ensures b == LenBytes(n)
  {
    if n < 128 { return [n]; }
    var tmp, i := Digits(n);
    b := [128 + i];
    var j := i;
    while j > 0
      invariant 0 <= j <= i
      invariant forall k :: 0 <= k < i ==> tmp[k] == Shift(n, k) % 256
      invariant b + BigEndian(n, j) == [128 + i] + BigEndian(n, i)
    {
      j := j - 1;
      BigEndianFront(n, j);
      assert BigEndian(n, j + 1) == [tmp[j]] + BigEndian(n, j);
      assert b + ([tmp[j]] + BigEndian(n, j)) == (b + [tmp[j]]) + BigEndian(n, j);
      b := b + [tmp[j]];
    }
    assert b + BigEndian(n, 0) == b;
    WordSizes();
    ByteCountBound(n, 8);
  }

  method Digits(n: nat) returns (tmp: array<byte>, i: nat)
    requires n < U64
    ensures i == ByteCount(n) <= 8 == tmp.Length
    ensures forall j :: 0 <= j < i ==> tmp[j] == Shift(n, j) % 256
  {
    WordSizes();
    ByteCountBound(n, 8);
    tmp := new byte[8](_ => 0);
    i := 0;
    var m := n;
    while m > 0
      invariant i + ByteCount(m) == ByteCount(n) && m == Shift(n, i)
      invariant forall j :: 0 <= j < i ==> tmp[j] == Shift(n, j) % 256
    {
      tmp[i] := m % 256;
      i := i + 1;
      m := m / 256;
    }
  }

  // ---------------------------------------------------------------- TLV and its reader

  datatype Tlv = Tlv(tag: byte, content: Bytes)

  function Write(t: Tlv): Bytes
    requires |t.content| < U64
  {
    [t.tag] + LenBytes(|t.content|) + t.content
  }

  method WriteTlv(tag: byte, content: Bytes) returns (b: Bytes)
    requires |content| < U64
    ensures b == Write(Tlv(tag, content))
  {
    b := [tag];
    var l := PutLen(|content|);
    b := b + l;
    b := b + content;
  }

  /** The length octets of section 8.1.3 in the definite, shortest form section 10.1 asks
      for: (length, number of octets). */
  function ReadLen(b: Bytes): Option<(nat, nat)> {
    if b == [] then None
    else if b[0] < 128 then Some((b[0], 1))
    else
      var k := b[0] - 128;
      if k == 0 || k > 8 || |b| < 1 + k || b[1] == 0 || Value(b[1..1 + k]) < 128 then None
      else Some((Value(b[1..1 + k]), 1 + k))
  }

  /** Reads one element: its tag and content, and what follows it. */
  function Read(b: Bytes): Option<(Tlv, Bytes)> {
    if b == [] then None
    else match ReadLen(b[1..])
         case None => None
         case Some((n, k)) =>
           if |b| < 1 + k + n then None else Some((Tlv(b[0], b[1 + k..1 + k + n]), b[1 + k + n..]))
  }

  lemma ReadLenOfWritten(n: nat, rest: Bytes)
    requires n < U64
    ensures ReadLen(LenBytes(n) + rest) == Some((n, |LenBytes(n)|))
  {
    if n >= 128 {
      WordSizes();
      ByteCountBound(n, 8);
      ByteCountExact(n);
      var k := ByteCount(n);
      ValueOfBigEndian(n, k);
      var b := LenBytes(n) + rest;
      assert b[1..1 + k] == BigEndian(n, k);
      assert b[1] == BigEndian(n, k)[0];
    }
  }

  /** Self-delimiting: the reader recovers tag, content and remainder for every length. */
  lemma ReadOfWrite(t: Tlv, rest: Bytes)
    requires |t.content| < U64
    ensures Read(Write(t) + rest) == Some((t, rest))
  {
    var l := LenBytes(|t.content|);
    var b := Write(t) + rest;
    assert b[1..] == l + (t.content + rest);
    ReadLenOfWritten(|t.content|, t.content + rest);
    var k := |l|;
    assert b[1 + k..1 + k + |t.content|] == t.content;
    assert b[1 + k + |t.content|..] == rest;
  }

  lemma WrittenOfReadLen(b: Bytes)
    requires ReadLen(b).Some?
    ensures var (n, k) := ReadLen(b).value; n < U64 && k <= |b| && LenBytes(n) == b[..k]
  {
    if b[0] >= 128 {
      var k := b[0] - 128;
      var digits := b[1..1 + k];
      WordSizes();
      ValueBound(digits);
      PowMonotone(k, 8);
      ByteCountOfValue(digits);
      BigEndianOfValue(digits);
      assert b[..1 + k] == [b[0]] + digits;
    }
  }

  /** Minimal and unique: whatever the reader accepts is what the writer would have written. */
  lemma WriteOfRead(b: Bytes)
    requires Read(b).Some?
    ensures var (t, rest) := Read(b).value; |t.content| < U64 && b == Write(t) + rest
  {
    WrittenOfReadLen(b[1..]);
    var (n, k) := ReadLen(b[1..]).value;
    assert b == [b[0]] + b[1..][..k] + b[1 + k..1 + k + n] + b[1 + k + n..];
  }

  // ---------------------------------------------------------------- INTEGER

  /** Position of the first byte kept by the zero-stripping loop. */
  function LeadingZeros(be: Bytes): (i: nat)
    ensures i <= |be|
  {
    if |be| > 1 && be[0] == 0 then 1 + LeadingZeros(be[1..]) else 0
  }

  function IntegerContent(be: Bytes): (c: Bytes)
    ensures |c| >= 1
  {
    var v := be[LeadingZeros(be)..];
    var w := if v == [] then [0] else v;
    if w[0] >= 128 then [0] + w else w
  }

  /** Two's complement reading of section 8.3.3. */
  function Signed(c: Bytes): int
    requires c != []
  {
    if c[0] >= 128 then Value(c) - Pow256(|c|) else Value(c)
  }

  lemma {:induction false} ValueOfLeadingZero(s: Bytes)
    ensures Value([0] + s) == Value(s)
  {
    if s != [] {
      ValueOfLeadingZero(s[..|s| - 1]);
      assert ([0] + s)[..|s|] == [0] + s[..|s| - 1];
    }
  }

  lemma {:induction false} StrippingKeepsValue(be: Bytes)
    ensures var v := be[LeadingZeros(be)..]; Value(v) == Value(be) && (|v| > 1 ==> v[0] != 0)
  {
    if |be| > 1 && be[0] == 0 {
      StrippingKeepsValue(be[1..]);
      ValueOfLeadingZero(be[1..]);
      assert be == [0] + be[1..];
      assert be[LeadingZeros(be)..] == be[1..][LeadingZeros(be[1..])..];
    }
  }

  /** An INTEGER keeps the unsigned value, stays non-negative, and has no redundant first
      octet (section 8.3.2). */
  lemma IntegerIsMinimalAndExact(be: Bytes)
    ensures var c := IntegerContent(be);
            && Signed(c) == Value(be)
            && (|c| > 1 ==> !(c[0] == 0 && c[1] < 128) && !(c[0] == 255 && c[1] >= 128))
  {
    StrippingKeepsValue(be);
    var v := be[LeadingZeros(be)..];
    if v != [] && v[0] >= 128 { ValueOfLeadingZero(v); }
    if v == [] { assert Value([0]) == 256 * Value([]) + 0; }
  }

  method IntegerFromBE(be: Bytes) returns (b: Bytes)
    requires |be| + 1 < U64
    ensures b == Write(Tlv(0x02, IntegerContent(be)))
  {
    var i := 0;
    while i + 1 < |be| && be[i] == 0
      invariant i <= |be|
      invariant LeadingZeros(be) == i + LeadingZeros(be[i..])
    {
      i := i + 1;
    }
    var v := be[i..];
    if |v| == 0 { v := v + [0]; }
    if v[0] >= 128 { v := [0] + v; }
    b := WriteTlv(0x02, v);
  }

  // ---------------------------------------------------------------- sequences of elements

  ghost predicate Fits(items: seq<Tlv>) {
    forall i :: 0 <= i < |items| ==> |items[i].content| < U64
  }

  function WriteAll(items: seq<Tlv>): Bytes
    requires Fits(items)
  {
    if items == [] then [] else Write(items[0]) + WriteAll(items[1..])
  }

  function ReadAll(b: Bytes): Option<seq<Tlv>>
    decreases |b|
  {
    if b == [] then Some([])
    else match Read(b)
         case None => None
         case Some((t, rest)) =>
           if |rest| >= |b| then None
           else match ReadAll(rest)
                case None => None
                case Some(ts) => Some([t] + ts)
  }

  lemma {:induction false} ReadAllOfWriteAll(items: seq<Tlv>)
    requires Fits(items)
    ensures ReadAll(WriteAll(items)) == Some(items)
  {
    if items != [] {
      ReadOfWrite(items[0], WriteAll(items[1..]));
      ReadAllOfWriteAll(items[1..]);
      assert items == [items[0]] + items[1..];
    }
  }

  // ---------------------------------------------------------------- the certificate

  function Oid(bytes: Bytes): Tlv { Tlv(0x06, bytes) }

  const COMMON_NAME: Bytes := [83, 107, 105, 116, 116, 101, 114, 109, 111, 117, 115, 101]

  /** AlgorithmIdentifier ecdsa-with-SHA256, 1.2.840.10045.4.3.2. */
  function EcdsaSha256(): Tlv {
    Tlv(0x30, Write(Oid([0x2A, 0x86, 0x48, 0xCE, 0x3D, 0x04, 0x03, 0x02])))
  }

  lemma WriteSize(t: Tlv)
    requires |t.content| < U64
    ensures |Write(t)| <= |t.content| + 10
  {
    WordSizes();
    ByteCountBound(|t.content|, 8);
  }

  function NameOf(id: Bytes, text: Bytes): Tlv
    requires |id| <= 20 && |text| <= 20
  {
    WriteSize(Oid(id));
    WriteSize(Tlv(0x0C, text));
    var rdn := Tlv(0x30, Write(Oid(id)) + Write(Tlv(0x0C, text)));
    WriteSize(rdn);
    Tlv(0x30, Write(Tlv(0x31, Write(rdn))))
  }

  function Name(): Tlv { NameOf([0x55, 0x04, 0x03], COMMON_NAME) }

  function PublicKeyInfo(point: Bytes): Tlv
    requires |point| == 65
  {
    var ecAlg := Tlv(0x30, Write(Oid([0x2A, 0x86, 0x48, 0xCE, 0x3D, 0x02, 0x01]))
                         + Write(Oid([0x2A, 0x86, 0x48, 0xCE, 0x3D, 0x03, 0x01, 0x07])));
    Tlv(0x30, Write(ecAlg) + Write(Tlv(0x03, [0] + point)))
  }

  function Validity(notBefore: Bytes, notAfter: Bytes): Tlv
    requires |notBefore| < 16 && |notAfter| < 16
  {
    Tlv(0x30, Write(Tlv(0x17, notBefore)) + Write(Tlv(0x17, notAfter)))
  }

  /** The seven fields of the TBSCertificate (section 4.1 of RFC 5280), in order. */
  function TbsFields(point: Bytes, notBefore: Bytes, notAfter: Bytes): seq<Tlv>
    requires |point| == 65 && |notBefore| < 16 && |notAfter| < 16
  {
    [Tlv(0xA0, Write(Tlv(0x02, [2]))), Tlv(0x02, IntegerContent([1])), EcdsaSha256(), Name(),
     Validity(notBefore, notAfter), Name(), PublicKeyInfo(point)]
  }

  lemma {:induction false} WriteAllSize(items: seq<Tlv>)
    requires Fits(items) && forall i :: 0 <= i < |items| ==> |items[i].content| <= 200
    ensures |WriteAll(items)| <= |items| * 210
  {
    if items != [] {
      WriteSize(items[0]);
      WriteAllSize(items[1..]);
    }
  }

  lemma SmallFields(point: Bytes, notBefore: Bytes, notAfter: Bytes)
    requires |point| == 65 && |notBefore| < 16 && |notAfter| < 16
    ensures var fs := TbsFields(point, notBefore, notAfter);
            Fits(fs) && |fs| == 7 && |WriteAll(fs)| <= 1470
  {
    var fs := TbsFields(point, notBefore, notAfter);
    forall t: Tlv | |t.content| < 200
      ensures |Write(t)| <= |t.content| + 10
    {
      WriteSize(t);
    }
    assert |Name().content| <= 200 && |PublicKeyInfo(point).content| <= 200 && |EcdsaSha256().content| <= 200;
    assert forall i :: 0 <= i < 7 ==> |fs[i].content| <= 200;
    WriteAllSize(fs);
  }

  /** The certificate's three parts, and the TBS bytes handed to the signer. */
  function Tbs(point: Bytes, notBefore: Bytes, notAfter: Bytes): Tlv
    requires |point| == 65 && |notBefore| < 16 && |notAfter| < 16
  {
    SmallFields(point, notBefore, notAfter);
    Tlv(0x30, WriteAll(TbsFields(point, notBefore, notAfter)))
  }

  /** Signatures as large as memory allows, less the few bytes around them. */
  const MAX_SIG: nat := U64 - 4096

  function Parts(tbs: Tlv, sig: Bytes): (ps: seq<Tlv>)
    requires |tbs.content| <= 1470 && |sig| <= MAX_SIG
    ensures Fits(ps)
  {
    [tbs, EcdsaSha256(), Tlv(0x03, [0] + sig)]
  }

  lemma PartsSize(tbs: Tlv, sig: Bytes)
    requires |tbs.content| <= 1470 && |sig| <= MAX_SIG
    ensures |WriteAll(Parts(tbs, sig))| < U64
  {
    var ps := Parts(tbs, sig);
    WriteSize(ps[0]);
    WriteSize(Oid([0x2A, 0x86, 0x48, 0xCE, 0x3D, 0x04, 0x03, 0x02]));
    WriteSize(ps[1]);
    WriteSize(ps[2]);
    assert ps[1..][1..] == [ps[2]] && [ps[2]][1..] == [];
    assert WriteAll([ps[2]]) == Write(ps[2]) + WriteAll([]);
    assert WriteAll(ps[1..]) == Write(ps[1]) + WriteAll([ps[2]]);
  }

  function Certificate(tbs: Tlv, sig: Bytes): Bytes
    requires |tbs.content| <= 1470 && |sig| <= MAX_SIG
  {
    PartsSize(tbs, sig);
    Write(Tlv(0x30, WriteAll(Parts(tbs, sig))))
  }

  /** A DER reader sees exactly what was built: the TBS bytes that were signed, the
      algorithm, the signature, and inside the TBS its seven fields. */
  lemma CertificateReadsBack(point: Bytes, notBefore: Bytes, notAfter: Bytes, sig: Bytes)
    requires |point| == 65 && |notBefore| < 16 && |notAfter| < 16 && |sig| <= MAX_SIG
    ensures |Tbs(point, notBefore, notAfter).content| <= 1470
    ensures var tbs := Tbs(point, notBefore, notAfter);
            var cert := Read(Certificate(tbs, sig));
            && cert.Some? && cert.value.1 == [] && cert.value.0.tag == 0x30
            && ReadAll(cert.value.0.content) == Some([tbs, EcdsaSha256(), Tlv(0x03, [0] + sig)])
            && ReadAll(tbs.content) == Some(TbsFields(point, notBefore, notAfter))
  {
    SmallFields(point, notBefore, notAfter);
    var tbs := Tbs(point, notBefore, notAfter);
    var ps := Parts(tbs, sig);
    PartsSize(tbs, sig);
    ReadOfWrite(Tlv(0x30, WriteAll(ps)), []);
    assert Write(Tlv(0x30, WriteAll(ps))) + [] == Certificate(tbs, sig);
    ReadAllOfWriteAll(ps);
    ReadAllOfWriteAll(TbsFields(point, notBefore, notAfter));
  }

  // ---------------------------------------------------------------- what the fields say

  /** Subidentifiers of an OBJECT IDENTIFIER (section 8.19) from position `i` on, with the value
      read so far of the current one: seven bits an octet, the last octet below 128. */
  function SubIds(b: Bytes, i: nat, v: nat): seq<nat>
    decreases |b| - i
  {
    if i >= |b| then []
    else if b[i] >= 128 then SubIds(b, i + 1, v * 128 + (b[i] - 128))
    else [v * 128 + b[i]] + SubIds(b, i + 1, 0)
  }

  /** The arcs: the first subidentifier packs two. */
  function Arcs(b: Bytes): seq<nat> {
    var ids := SubIds(b, 0, 0);
    if ids == [] then []
    else (if ids[0] < 40 then [0, ids[0]] else if ids[0] < 80 then [1, ids[0] - 40] else [2, ids[0] - 80]) + ids[1..]
  }

  lemma SubIdLong(b: Bytes, i: nat, v: nat)
    requires i < |b| && b[i] >= 128
    ensures SubIds(b, i, v) == SubIds(b, i + 1, v * 128 + (b[i] - 128))
  {
  }

  lemma SubIdShort(b: Bytes, i: nat, v: nat)
    requires i < |b| && b[i] < 128
    ensures SubIds(b, i, v) == [v * 128 + b[i]] + SubIds(b, i + 1, 0)
  {
  }

  lemma CommonNameArcs()
    ensures Arcs([0x55, 0x04, 0x03]) == [2, 5, 4, 3]
  {
    var cn: Bytes := [0x55, 0x04, 0x03];
    assert SubIds(cn, 3, 0) == [] && SubIds(cn, 2, 0) == [3] && SubIds(cn, 1, 0) == [4, 3];
  }

  lemma SignatureArcs()
    ensures Arcs([0x2A, 0x86, 0x48, 0xCE, 0x3D, 0x04, 0x03, 0x02]) == [1, 2, 840, 10045, 4, 3, 2]
  {
    AnsiArcs([0x2A, 0x86, 0x48, 0xCE, 0x3D, 0x04, 0x03, 0x02], [4, 3, 2]);
  }

  lemma KeyArcs()
    ensures Arcs([0x2A, 0x86, 0x48, 0xCE, 0x3D, 0x02, 0x01]) == [1, 2, 840, 10045, 2, 1]
  {
    AnsiArcs([0x2A, 0x86, 0x48, 0xCE, 0x3D, 0x02, 0x01], [2, 1]);
  }

  lemma CurveArcs()
    ensures Arcs([0x2A, 0x86, 0x48, 0xCE, 0x3D, 0x03, 0x01, 0x07]) == [1, 2, 840, 10045, 3, 1, 7]
  {
    AnsiArcs([0x2A, 0x86, 0x48, 0xCE, 0x3D, 0x03, 0x01, 0x07], [3, 1, 7]);
  }

  lemma AnsiArcs(b: Bytes, tail: seq<nat>)
    requires |b| == 5 + |tail| && b[0] == 0x2A && b[1] == 0x86 && b[2] == 0x48 && b[3] == 0xCE && b[4] == 0x3D
    requires forall i :: 0 <= i < |tail| ==> b[5 + i] == tail[i] < 128
    ensures Arcs(b) == [1, 2, 840, 10045] + tail
  {
    ShortTail(b, 5, tail);
    SubIdShort(b, 0, 0);
    SubIdLong(b, 1, 0);
    SubIdShort(b, 2, 6);
    SubIdLong(b, 3, 0);
    SubIdShort(b, 4, 78);
    assert SubIds(b, 0, 0) == [42] + ([840] + ([10045] + tail));
  }

  lemma {:induction false} ShortTail(b: Bytes, i: nat, tail: seq<nat>)
    requires i + |tail| == |b| && forall k :: 0 <= k < |tail| ==> b[i + k] == tail[k] < 128
    ensures SubIds(b, i, 0) == tail
    decreases tail
  {
    if tail != [] {
      ShortTail(b, i + 1, tail[1..]);
      assert tail == [tail[0]] + tail[1..];
    }
  }

  lemma ReadOne(a: Tlv)
    requires |a.content| < U64
    ensures ReadAll(Write(a)) == Some([a])
  {
    assert [a][1..] == [];
    assert WriteAll([a]) == Write(a) + WriteAll([]) == Write(a);
    ReadAllOfWriteAll([a]);
  }

  lemma ReadTwo(a: Tlv, b: Tlv)
    requires |a.content| < U64 && |b.content| < U64
    ensures ReadAll(Write(a) + Write(b)) == Some([a, b])
  {
    assert [a, b][1..] == [b] && [b][1..] == [];
    assert WriteAll([b]) == Write(b) + WriteAll([]) == Write(b);
    assert WriteAll([a, b]) == Write(a) + WriteAll([b]);
    ReadAllOfWriteAll([a, b]);
  }

  /** A name with one attribute: its type by arcs, and its text. */
  ghost predicate IsName(name: Tlv, arcs: seq<nat>, text: Bytes) {
    exists rdns: Tlv, rdn: Tlv, oid: Tlv ::
      && name.tag == 0x30 && ReadAll(name.content) == Some([rdns])
      && rdns.tag == 0x31 && ReadAll(rdns.content) == Some([rdn])
      && rdn.tag == 0x30 && ReadAll(rdn.content) == Some([oid, Tlv(0x0C, text)])
      && oid.tag == 0x06 && Arcs(oid.content) == arcs
  }

  lemma NameOfSays(id: Bytes, text: Bytes)
    requires |id| <= 20 && |text| <= 20
    ensures IsName(NameOf(id, text), Arcs(id), text)
  {
    var oid := Oid(id);
    var rdn := Tlv(0x30, Write(oid) + Write(Tlv(0x0C, text)));
    WriteSize(oid);
    WriteSize(Tlv(0x0C, text));
    WriteSize(rdn);
    ReadTwo(oid, Tlv(0x0C, text));
    ReadOne(rdn);
    ReadOne(Tlv(0x31, Write(rdn)));
  }

  /** The name in the certificate is that of a common name "Skittermouse". */
  lemma NameIs() returns (id: Bytes)
    ensures |id| <= 20 && Arcs(id) == [2, 5, 4, 3] && Name() == NameOf(id, COMMON_NAME)
  {
    id := [0x55, 0x04, 0x03];
    CommonNameArcs();
  }

  lemma CommonNameIs()
    ensures COMMON_NAME == Ascii("Skittermouse")
  {
  }

  /** An algorithm identifier by its arcs. */
  ghost predicate IsAlgorithm(t: Tlv, arcs: seq<seq<nat>>) {
    && t.tag == 0x30 && ReadAll(t.content).Some? && |ReadAll(t.content).value| == |arcs|
    && forall i :: 0 <= i < |arcs| ==>
         ReadAll(t.content).value[i].tag == 0x06 && Arcs(ReadAll(t.content).value[i].content) == arcs[i]
  }

  lemma SignatureAlgorithm()
    ensures IsAlgorithm(EcdsaSha256(), [[1, 2, 840, 10045, 4, 3, 2]])
  {
    SignatureArcs();
    ReadOne(Oid([0x2A, 0x86, 0x48, 0xCE, 0x3D, 0x04, 0x03, 0x02]));
  }

  /** A public key: id-ecPublicKey on prime256v1, and the point in a BIT STRING without unused
      bits. */
  ghost predicate IsPublicKey(content: Bytes, point: Bytes) {
    var parts := ReadAll(content);
    && parts.Some? && |parts.value| == 2
    && IsAlgorithm(parts.value[0], [[1, 2, 840, 10045, 2, 1], [1, 2, 840, 10045, 3, 1, 7]])
    && parts.value[1] == Tlv(0x03, [0] + point)
  }

  lemma PublicKeySays(point: Bytes)
    requires |point| == 65
    ensures IsPublicKey(PublicKeyInfo(point).content, point)
  {
    KeyArcs();
    CurveArcs();
    var a, b := Oid([0x2A, 0x86, 0x48, 0xCE, 0x3D, 0x02, 0x01]),
                Oid([0x2A, 0x86, 0x48, 0xCE, 0x3D, 0x03, 0x01, 0x07]);
    WriteSize(a);
    WriteSize(b);
    ReadTwo(a, b);
    ReadTwo(Tlv(0x30, Write(a) + Write(b)), Tlv(0x03, [0] + point));
  }

  lemma SerialIsOne()
    ensures Signed(IntegerContent([1])) == 1
  {
    IntegerIsMinimalAndExact([1]);
    assert Value([1]) == 256 * Value([]) + 1;
  }

  lemma ValiditySays(notBefore: Bytes, notAfter: Bytes)
    requires |notBefore| < 16 && |notAfter| < 16
    ensures IsValidity(Validity(notBefore, notAfter), notBefore, notAfter)
  {
    ReadTwo(Tlv(0x17, notBefore), Tlv(0x17, notAfter));
  }

  // The fields of section 4.1 of RFC 5280, each by what a reader makes of it.

  ghost predicate IsVersion(t: Tlv, v: byte) { t.tag == 0xA0 && ReadAll(t.content) == Some([Tlv(0x02, [v])]) }

  ghost predicate IsSerial(t: Tlv, n: nat) { t.tag == 0x02 && t.content != [] && Signed(t.content) == n }

  ghost predicate IsEcdsaSha256(t: Tlv) { IsAlgorithm(t, [[1, 2, 840, 10045, 4, 3, 2]]) }

  ghost predicate IsCommonName(t: Tlv, text: Bytes) {
    exists arcs: seq<nat> :: arcs == [2, 5, 4, 3] && IsName(t, arcs, text)
  }

  ghost predicate IsValidity(t: Tlv, notBefore: Bytes, notAfter: Bytes) {
    t.tag == 0x30 && ReadAll(t.content) == Some([Tlv(0x17, notBefore), Tlv(0x17, notAfter)])
  }

  // In order: version 3, serial number 1, ecdsa-with-SHA256, the issuer, the validity, the
  // issuer again as subject, the public key.

  lemma VersionField(point: Bytes, notBefore: Bytes, notAfter: Bytes)
    requires |point| == 65 && |notBefore| < 16 && |notAfter| < 16
    ensures var fields := TbsFields(point, notBefore, notAfter);
            |fields| == 7 && IsVersion(fields[0], 2)
  {
    VersionIs(2);
  }

  lemma SerialField(point: Bytes, notBefore: Bytes, notAfter: Bytes)
    requires |point| == 65 && |notBefore| < 16 && |notAfter| < 16
    ensures var fields := TbsFields(point, notBefore, notAfter);
            IsSerial(fields[1], 1)
  {
    SerialIsOne();
  }

  lemma AlgorithmField(point: Bytes, notBefore: Bytes, notAfter: Bytes)
    requires |point| == 65 && |notBefore| < 16 && |notAfter| < 16
    ensures var fields := TbsFields(point, notBefore, notAfter);
            IsEcdsaSha256(fields[2])
  {
    SignatureAlgorithm();
  }

  lemma NameFields(point: Bytes, notBefore: Bytes, notAfter: Bytes)
    requires |point| == 65 && |notBefore| < 16 && |notAfter| < 16
    ensures var fields := TbsFields(point, notBefore, notAfter);
            fields[3] == Name() == fields[5]
  {
  }

  /** Issuer and subject are the common name "Skittermouse" (`CommonNameIs`). */
  lemma NameSays()
    ensures IsCommonName(Name(), COMMON_NAME)
  {
    var id := NameIs();
    CommonNameSays(Name(), id, COMMON_NAME);
  }

  lemma ValidityField(point: Bytes, notBefore: Bytes, notAfter: Bytes)
    requires |point| == 65 && |notBefore| < 16 && |notAfter| < 16
    ensures var fields := TbsFields(point, notBefore, notAfter);
            IsValidity(fields[4], notBefore, notAfter)
  {
    ValiditySays(notBefore, notAfter);
  }

  lemma KeyField(point: Bytes, notBefore: Bytes, notAfter: Bytes)
    requires |point| == 65 && |notBefore| < 16 && |notAfter| < 16
    ensures var fields := TbsFields(point, notBefore, notAfter);
            fields[6].tag == 0x30 && IsPublicKey(fields[6].content, point)
  {
    PublicKeySays(point);
  }

  lemma VersionIs(v: byte)
    ensures IsVersion(Tlv(0xA0, Write(Tlv(0x02, [v]))), v)
  {
    ReadOne(Tlv(0x02, [v]));
  }

  lemma CommonNameSays(name: Tlv, id: Bytes, text: Bytes)
    requires |id| <= 20 && |text| <= 20 && Arcs(id) == [2, 5, 4, 3] && name == NameOf(id, text)
    ensures IsCommonName(name, text)
  {
    NameOfSays(id, text);
  }

  // ---------------------------------------------------------------- the builder as written

  function Flatten(parts: seq<Bytes>): Bytes {
    if parts == [] then [] else parts[0] + Flatten(parts[1..])
  }

  lemma {:induction false} FlattenOfWrites(parts: seq<Bytes>, items: seq<Tlv>)
    requires Fits(items) && |parts| == |items|
    requires forall i :: 0 <= i < |items| ==> parts[i] == Write(items[i])
    ensures Flatten(parts) == WriteAll(items)
  {
    if items != [] { FlattenOfWrites(parts[1..], items[1..]); }
  }

  method Concat(parts: seq<Bytes>) returns (b: Bytes)
    ensures b == Flatten(parts)
  {
    b := [];
    for i := 0 to |parts|
      invariant b + Flatten(parts[i..]) == Flatten(parts)
    {
      assert b + (parts[i] + Flatten(parts[i..][1..])) == (b + parts[i]) + Flatten(parts[i..][1..]);
      assert parts[i..][1..] == parts[i + 1..];
      b := b + parts[i];
    }
  }

  method PublicKeyInfoBytes(point: Bytes) returns (b: Bytes)
    requires |point| == 65
    ensures b == Write(PublicKeyInfo(point))
  {
    var o1 := WriteTlv(0x06, [0x2A, 0x86, 0x48, 0xCE, 0x3D, 0x02, 0x01]);
    var o2 := WriteTlv(0x06, [0x2A, 0x86, 0x48, 0xCE, 0x3D, 0x03, 0x01, 0x07]);
    var alg := Concat([o1, o2]);
    TwoParts(o1, o2);
    var ecAlg := WriteTlv(0x30, alg);
    var pkBits := WriteTlv(0x03, [0] + point);
    var body := Concat([ecAlg, pkBits]);
    TwoParts(ecAlg, pkBits);
    b := WriteTlv(0x30, body);
  }

  lemma TwoParts(a: Bytes, b: Bytes)
    ensures Flatten([a, b]) == a + b
  {
    assert [a, b][1..] == [b] && [b][1..] == [];
    assert Flatten([b]) == b + Flatten([]);
  }

  method NameBytes() returns (b: Bytes)
    ensures b == Write(Name())
  {
    var o := WriteTlv(0x06, [0x55, 0x04, 0x03]);
    var cn := WriteTlv(0x0C, COMMON_NAME);
    var both := Concat([o, cn]);
    TwoParts(o, cn);
    var rdn := WriteTlv(0x30, both);
    var rdns := WriteTlv(0x31, rdn);
    b := WriteTlv(0x30, rdns);
  }

  /** `notBefore`/`notAfter` are the formatted UTCTime texts; `sign` is absent when the
      caller passes an empty function. */
  method BuildSelfSignedP256Cert(point: Bytes, sign: Option<Bytes -> Bytes>, notBefore: Bytes, notAfter: Bytes)
    returns (cert: Bytes)
    requires |notBefore| < 16 && |notAfter| < 16
    requires sign.Some? ==> forall tbs :: |sign.value(tbs)| <= MAX_SIG
    ensures |point| != 65 || point[0] != 0x04 || sign.None? ==> cert == []
    ensures |point| == 65 && point[0] == 0x04 && sign.Some? ==>
              var tbs := Tbs(point, notBefore, notAfter);
              && |tbs.content| <= 1470
              && var sig := sign.value(Write(tbs));
                 cert == if sig == [] then [] else Certificate(tbs, sig)
  {
    if |point| != 65 || point[0] != 0x04 || sign.None? { return []; }
    SmallFields(point, notBefore, notAfter);
    var algOid := WriteTlv(0x06, [0x2A, 0x86, 0x48, 0xCE, 0x3D, 0x04, 0x03, 0x02]);
    var ecdsaSha256 := WriteTlv(0x30, algOid);
    var two := WriteTlv(0x02, [0x02]);
    var version := WriteTlv(0xA0, two);
    var serial := IntegerFromBE([0x01]);
    var name := NameBytes();
    var nb := WriteTlv(0x17, notBefore);
    var na := WriteTlv(0x17, notAfter);
    var times := Concat([nb, na]);
    TwoParts(nb, na);
    var validity := WriteTlv(0x30, times);
    var spki := PublicKeyInfoBytes(point);
    var fields := [version, serial, ecdsaSha256, name, validity, name, spki];
    var body := Concat(fields);
    FlattenOfWrites(fields, TbsFields(point, notBefore, notAfter));
    var tbs := WriteTlv(0x30, body);
    var sig := sign.value(tbs);
    if |sig| == 0 { return []; }
    var sigBits := WriteTlv(0x03, [0] + sig);
    var parts := [tbs, ecdsaSha256, sigBits];
    var whole := Concat(parts);
    ghost var t := Tbs(point, notBefore, notAfter);
    FlattenOfWrites(parts, Parts(t, sig));
    PartsSize(t, sig);
    cert := WriteTlv(0x30, whole);
  }
}
