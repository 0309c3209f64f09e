/** Input ownership (src/core/ownership_state.cpp): a Lamport-ordered last-writer-wins
    register, and its wire form (src/net/ownership_codec.cpp). */
module Ownership {
  import opened ByteStrings

  datatype Claim = Claim(target: PeerId, origin: PeerId, sequence: nat)

  predicate Supersedes(candidate: Claim, current: Claim) {
    if candidate.sequence != current.sequence then candidate.sequence > current.sequence
    else Less(current.origin, candidate.origin)
  }

  /** Claims are totally ordered up to their (sequence, origin) stamp. */
  lemma SupersedesTotal(c: Claim, d: Claim)
    ensures Supersedes(c, d) || Supersedes(d, c) <==> (c.sequence, c.origin) != (d.sequence, d.origin)
    ensures !(Supersedes(c, d) && Supersedes(d, c))
  {
    LessTotal(c.origin, d.origin);
    if c.origin == d.origin { LessIrreflexive(c.origin); }
    if Less(c.origin, d.origin) { LessAsymmetric(c.origin, d.origin); }
  }

  /** If `d` does not beat `c` and `c` loses to `e`, then `d` does not beat `e`. */
  lemma SupersedesMonotone(d: Claim, c: Claim, e: Claim)
    requires !Supersedes(d, c) && Supersedes(e, c)
    ensures !Supersedes(d, e)
  {
    if Less(c.origin, e.origin) && Less(e.origin, d.origin) { LessTransitive(c.origin, e.origin, d.origin); }
  }

  datatype State = State(self: PeerId, current: Claim, clock: nat)

  function New(self: PeerId): State { State(self, Claim(self, self, 0), 0) }

  /** `clock_ + 1` on an unsigned 64-bit clock. */
  function Tick(clock: nat): nat { if clock >= U64_MAX then 0 else clock + 1 }

  /** The claim a local switch issues. */
  function NextClaim(s: State, target: PeerId): Claim {
    Claim(target, s.self, Tick(s.clock))
  }

  function Apply(s: State, c: Claim): State {
    State(s.self, if Supersedes(c, s.current) then c else s.current,
          if c.sequence > s.clock then c.sequence else s.clock)
  }

  /** A local switch wins locally exactly until the clock is exhausted. */
  lemma SwitchWinsLocally(s: State, target: PeerId)
    requires s.clock == s.current.sequence < U64
    ensures Apply(s, NextClaim(s, target)).current == NextClaim(s, target) <==>
            s.clock != U64_MAX || NextClaim(s, target) == s.current
    ensures s.clock != U64_MAX ==> Apply(s, NextClaim(s, target)).clock == s.clock + 1
    ensures s.clock == U64_MAX ==> Apply(s, NextClaim(s, target)) == s
  {
  }

  /** Re-delivery is a no-op. */
  lemma ApplyIdempotent(s: State, c: Claim)
    ensures Apply(Apply(s, c), c) == Apply(s, c)
  {
    LessIrreflexive(c.origin);
  }

  /** Application order is irrelevant for claims with different stamps. */
  lemma ApplyCommutes(s: State, c: Claim, d: Claim)
    requires (c.sequence, c.origin) != (d.sequence, d.origin)
    ensures Apply(Apply(s, c), d) == Apply(Apply(s, d), c)
  {
    SupersedesTotal(c, d);
    SupersedesTotal(c, s.current);
    SupersedesTotal(d, s.current);
    if Supersedes(c, s.current) && !Supersedes(d, s.current) { SupersedesMonotone(d, s.current, c); }
    if Supersedes(d, s.current) && !Supersedes(c, s.current) { SupersedesMonotone(c, s.current, d); }
  }

  class OwnershipState {
    const self: PeerId
    var current: Claim
    var clock: nat

    function View(): State
      reads this
    {
      State(self, current, clock)
    }

    constructor (self: PeerId)
      ensures View() == New(self)
    {
      this.self, current, clock := self, Claim(self, self, 0), 0;
    }

    method RequestSwitchTo(target: PeerId) returns (claim: Claim)
      modifies this`current, this`clock
      ensures claim == NextClaim(old(View()), target)
      ensures View() == Apply(old(View()), claim)
    {
      claim := Claim(target, self, Tick(clock));
      var _ := ApplyClaim(claim);
    }

    method ApplyClaim(claim: Claim) returns (adopted: bool)
      modifies this`current, this`clock
      ensures View() == Apply(old(View()), claim)
      ensures adopted <==> Supersedes(claim, old(current))
      ensures !adopted ==> current == old(current)
    {
      if claim.sequence > clock { clock := claim.sequence; }
      adopted := Supersedes(claim, current);
      if adopted { current := claim; }
    }
  }

  // ---------------------------------------------------------------- wire form

  function Clip(s: Bytes): Bytes { if |s| > 255 then s[..255] else s }

  function PutId(s: Bytes): Bytes { [|Clip(s)|] + Clip(s) }

  function EncodeClaim(c: Claim): Bytes {
    PutId(c.target) + PutId(c.origin) + BigEndian(c.sequence, 8)
  }

  /** One length-prefixed id at `pos`, with the position after it. */
  function GetId(data: Bytes, pos: nat): (r: Option<(Bytes, nat)>)
    ensures r.Some? ==> pos < r.value.1 <= |data|
  {
    if pos + 1 > |data| || pos + 1 + data[pos] > |data| then None
    else Some((data[pos + 1..pos + 1 + data[pos]], pos + 1 + data[pos]))
  }

  function DecodeClaim(data: Bytes): Option<Claim> {
    match GetId(data, 0)
    case None => None
    case Some((target, p)) =>
      match GetId(data, p)
      case None => None
      case Some((origin, q)) =>
        if q + 8 > |data| then None else Some(Claim(target, origin, Value(data[q..q + 8])))
  }

  lemma GetIdOfPut(a: Bytes, s: Bytes, rest: Bytes)
    ensures GetId(a + PutId(s) + rest, |a|) == Some((Clip(s), |a| + |PutId(s)|))
  {
    var data := a + PutId(s) + rest;
    assert data[|a|] == |Clip(s)|;
    assert data[|a| + 1..|a| + 1 + |Clip(s)|] == Clip(s);
  }

  /** Decoding an encoded claim, with anything after it, clips its ids to 255 bytes. */
  lemma DecodeOfEncode(c: Claim, rest: Bytes)
    requires c.sequence < U64
    ensures DecodeClaim(EncodeClaim(c) + rest) == Some(Claim(Clip(c.target), Clip(c.origin), c.sequence))
  {
    var t, o, n := PutId(c.target), PutId(c.origin), BigEndian(c.sequence, 8);
    var data := EncodeClaim(c) + rest;
    GetIdOfPut([], c.target, o + n + rest);
    assert data == [] + t + (o + n + rest);
    GetIdOfPut(t, c.origin, n + rest);
    assert data == t + o + (n + rest);
    var q := |t| + |o|;
    assert data[q..q + 8] == n;
    WordSizes();
    ValueOfBigEndian(c.sequence, 8);
  }

  /** The wire carries a claim unchanged exactly when both ids fit the length byte. */
  lemma WireRoundTrip(c: Claim)
    requires c.sequence < U64
    ensures DecodeClaim(EncodeClaim(c)) == Some(c) <==> |c.target| <= 255 && |c.origin| <= 255
  {
    DecodeOfEncode(c, []);
    assert EncodeClaim(c) + [] == EncodeClaim(c);
  }

  /** Where a claim's parts are on the wire: a length octet and the bytes of each id, cut to 255,
      the target first, then eight octets of sequence, most significant first. */
  lemma ClaimLayout(c: Claim)
    requires c.sequence < U64
    ensures var e, t, o := EncodeClaim(c), Min(|c.target|, 255), Min(|c.origin|, 255);
            && |e| == t + o + 10
            && e[0] == t && e[1..1 + t] == c.target[..t]
            && e[1 + t] == o && e[2 + t..2 + t + o] == c.origin[..o]
            && Value(e[2 + t + o..]) == c.sequence
  {
    var e, t, o := EncodeClaim(c), Min(|c.target|, 255), Min(|c.origin|, 255);
    WordSizes();
    ValueOfBigEndian(c.sequence, 8);
    assert e == [t] + c.target[..t] + ([o] + c.origin[..o]) + BigEndian(c.sequence, 8);
    assert e[2 + t + o..] == BigEndian(c.sequence, 8);
  }

  /** What is accepted as a claim begins with the wire form of that claim and of no other. */
  lemma AcceptsOnlyEncodings(data: Bytes, c: Claim)
    ensures DecodeClaim(data) == Some(c) <==>
            |c.target| <= 255 && |c.origin| <= 255 && c.sequence < U64 && EncodeClaim(c) <= data
  {
    if DecodeClaim(data) == Some(c) {
      AcceptedBeginsWith(data, c);
    } else if c.sequence < U64 && EncodeClaim(c) <= data {
      DecodeOfEncode(c, data[|EncodeClaim(c)|..]);
      assert EncodeClaim(c) + data[|EncodeClaim(c)|..] == data;
    }
  }

  lemma AcceptedBeginsWith(data: Bytes, c: Claim)
    requires DecodeClaim(data) == Some(c)
    ensures |c.target| <= 255 && |c.origin| <= 255 && c.sequence < U64 && EncodeClaim(c) <= data
  {
    var p := GetId(data, 0).value.1;
    var q := GetId(data, p).value.1;
    WordSizes();
    ValueBound(data[q..q + 8]);
    BigEndianOfValue(data[q..q + 8]);
    PutOfGetId(data, 0);
    PutOfGetId(data, p);
    ThreePieces(data, p, q, q + 8);
  }

  lemma PutOfGetId(data: Bytes, pos: nat)
    requires GetId(data, pos).Some?
    ensures var (s, q) := GetId(data, pos).value; |s| <= 255 && data[pos..q] == PutId(s)
  {
  }

  lemma ThreePieces(b: Bytes, i: nat, j: nat, k: nat)
    requires i <= j <= k <= |b|
    ensures b[0..i] + b[i..j] + b[j..k] <= b
  {
    assert b[0..i] + b[i..j] + b[j..k] == b[..k];
  }

  method EncodeOwnershipClaim(c: Claim) returns (b: Bytes)
    ensures b == EncodeClaim(c)
  {
    b := [];
    b := b + [if |c.target| > 255 then 255 else |c.target|];
    b := b + c.target[..if |c.target| > 255 then 255 else |c.target|];
    b := b + [if |c.origin| > 255 then 255 else |c.origin|];
    b := b + c.origin[..if |c.origin| > 255 then 255 else |c.origin|];
    assert b == PutId(c.target) + PutId(c.origin);
    var n := PutBigEndian(c.sequence, 8);
    b := b + n;
  }

  method DecodeOwnershipClaim(data: Bytes) returns (r: Option<Claim>)
    ensures r == DecodeClaim(data)
  {
    var pos := 0;
    if pos + 1 > |data| || pos + 1 + data[pos] > |data| { return None; }
    var target := data[pos + 1..pos + 1 + data[pos]];
    pos := pos + 1 + data[pos];
    if pos + 1 > |data| || pos + 1 + data[pos] > |data| { return None; }
    var origin := data[pos + 1..pos + 1 + data[pos]];
    pos := pos + 1 + data[pos];
    if pos + 8 > |data| { return None; }
    var sequence := GetBigEndian(data[pos..], 8);
    assert data[pos..][..8] == data[pos..pos + 8];
    r := Some(Claim(target, origin, sequence));
  }
}
