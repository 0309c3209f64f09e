/** The AES-GCM message decorator (src/net/encrypted_transport.h): role-and-counter
    nonces, fail-closed counter, strictly increasing receive window; and the link of two
    such ends over a network that may drop, repeat, reorder, reflect or alter frames. */
module SealedLink {
  import opened ByteStrings

  const NONCE_LEN: nat := 12
  const TAG_LEN: nat := 16
  const OVERHEAD: nat := 28

  datatype Role = Initiator | Responder

  function RoleByte(r: Role): byte { if r == Initiator then 0 else 1 }

  function Opposite(r: Role): Role { if r == Initiator then Responder else Initiator }

  function LinkRole(self: PeerId, peer: PeerId): Role {
    if Less(self, peer) then Initiator else Responder
  }

  /** The two ends agree on opposite roles exactly when their ids differ. */
  lemma LinkRolesOpposite(a: PeerId, b: PeerId)
    ensures LinkRole(b, a) == Opposite(LinkRole(a, b)) <==> a != b
  {
    LessTotal(a, b);
    if a == b { LessIrreflexive(a); }
    if Less(a, b) { LessAsymmetric(a, b); }
  }

  // ---------------------------------------------------------------- nonces

  function Nonce(role: byte, ctr: nat): (n: Bytes)
    ensures |n| == NONCE_LEN && n[0] == role
  {
    [role, 0, 0, 0] + BigEndian(ctr, 8)
  }

  function CounterOf(nonce: Bytes): nat
    requires |nonce| >= NONCE_LEN
  {
    Value(nonce[4..12])
  }

  lemma CounterRoundTrip(role: byte, ctr: nat)
    requires ctr < U64
    ensures CounterOf(Nonce(role, ctr)) == ctr
  {
    WordSizes();
    ValueOfBigEndian(ctr, 8);
    assert Nonce(role, ctr)[4..12] == BigEndian(ctr, 8);
  }

  /** A nonce determines the direction and the position within it. */
  lemma NonceInjective(r1: byte, c1: nat, r2: byte, c2: nat)
    requires c1 < U64 && c2 < U64
    ensures Nonce(r1, c1) == Nonce(r2, c2) <==> r1 == r2 && c1 == c2
  {
    CounterRoundTrip(r1, c1);
    CounterRoundTrip(r2, c2);
  }

  method MakeNonce(nonce: array<byte>, role: byte, ctr: nat)
    requires nonce.Length == NONCE_LEN
    modifies nonce
    ensures nonce[..] == Nonce(role, ctr)
  {
    for i := 0 to NONCE_LEN
      invariant forall j :: 0 <= j < i ==> nonce[j] == 0
    {
      nonce[i] := 0;
    }
    nonce[0] := role;
    for i := 0 to 8
      invariant nonce[..4] == [role, 0, 0, 0]
      invariant nonce[12 - i..] == BigEndian(ctr, i)
    {
      BigEndianFront(ctr, i);
      nonce[NONCE_LEN - 1 - i] := Shift(ctr, i) % 256;
    }
    assert nonce[..] == nonce[..4] + nonce[4..];
  }

  // ---------------------------------------------------------------- one end

  datatype Sealed = Sealed(tag: Bytes, ct: Bytes)

  /** What a working AES-GCM call may output for a plaintext. */
  predicate WellFormedSeal(s: Sealed, pt: Bytes) {
    |s.tag| == TAG_LEN && |s.ct| == |pt|
  }

  function Frame(nonce: Bytes, s: Sealed): Bytes { nonce + s.tag + s.ct }

  datatype End = End(sendRole: byte, recvRole: byte, sendCtr: nat, haveRecv: bool, lastRecv: nat)

  datatype RecvResult = Nothing | Error | Message(pt: Bytes)

  function NewEnd(role: Role): End {
    End(RoleByte(role), RoleByte(Opposite(role)), 0, false, 0)
  }

  /** The frame handed to the inner transport by `send`, if one is. */
  function SendFrame(e: End, pt: Bytes, encrypted: Option<Sealed>): Option<Bytes> {
    if pt == [] || encrypted.None? || e.sendCtr == U64_MAX then None
    else Some(Frame(Nonce(e.sendRole, e.sendCtr), encrypted.value))
  }

  function AfterSend(e: End, pt: Bytes, encrypted: Option<Sealed>): End {
    if SendFrame(e, pt, encrypted).Some? then e.(sendCtr := e.sendCtr + 1) else e
  }

  /** Everything `recv` checks before it asks the cipher. */
  predicate Admissible(e: End, raw: Bytes, cap: nat) {
    && OVERHEAD <= |raw| <= OVERHEAD + cap
    && raw[0] == e.recvRole
    && (e.haveRecv ==> CounterOf(raw) > e.lastRecv)
  }

  function AfterRecv(e: End, raw: Bytes): End
    requires |raw| >= OVERHEAD
  {
    e.(haveRecv := true, lastRecv := CounterOf(raw))
  }

  class EncryptedTransport {
    const sendRole: byte
    const recvRole: byte
    var sendCtr: nat
    var lastRecvCtr: nat
    var haveRecv: bool

    function View(): End
      reads this
    {
      End(sendRole, recvRole, sendCtr, haveRecv, lastRecvCtr)
    }

    constructor (role: Role)
      ensures View() == NewEnd(role)
    {
      sendRole := RoleByte(role);
      recvRole := RoleByte(Opposite(role));
      sendCtr, lastRecvCtr, haveRecv := 0, 0, false;
    }

    /** `encrypt` is the platform cipher under this link's key; the result is the frame
        handed to the inner transport, whose own success is the caller's return value. */
    method Send(pt: Bytes, encrypt: (Bytes, Bytes) -> Option<Sealed>) returns (handed: Option<Bytes>)
      requires sendCtr <= U64_MAX
      modifies this`sendCtr
      ensures sendCtr <= U64_MAX
      ensures handed == SendFrame(old(View()), pt, encrypt(Nonce(sendRole, old(sendCtr)), pt))
      ensures View() == AfterSend(old(View()), pt, encrypt(Nonce(sendRole, old(sendCtr)), pt))
    {
      if |pt| == 0 { return None; }
      var nonce := new byte[NONCE_LEN];
      MakeNonce(nonce, sendRole, sendCtr);
      var sealed := encrypt(nonce[..], pt);
      if sealed.None? { return None; }
      if sendCtr == U64_MAX { return None; }
      sendCtr := sendCtr + 1;
      handed := Some(nonce[..] + sealed.value.tag + sealed.value.ct);
    }

    /** `inner` is the inner transport's message (`Nothing`/`Error` for n = 0 and n < 0). */
    method Recv(inner: RecvResult, cap: nat, decrypt: (Bytes, Bytes, Bytes) -> Option<Bytes>)
      returns (r: RecvResult)
      modifies this`lastRecvCtr, this`haveRecv
      ensures !inner.Message? ==> r == inner && View() == old(View())
      ensures inner.Message? && !Admissible(old(View()), inner.pt, cap) ==> r == Error && View() == old(View())
      ensures inner.Message? && Admissible(old(View()), inner.pt, cap) ==>
                match decrypt(inner.pt[..12], inner.pt[12..28], inner.pt[28..])
                case None => r == Error && View() == old(View())
                case Some(pt) => r == Message(pt) && View() == AfterRecv(old(View()), inner.pt)
    {
      if !inner.Message? { return inner; }
      var raw := inner.pt;
      if |raw| < OVERHEAD { return Error; }
      var nonce := raw[..12];
      if nonce[0] != recvRole { return Error; }
      var ctr := GetBigEndian(nonce[4..], 8);
      assert nonce[4..][..8] == raw[4..12];
      if haveRecv && ctr <= lastRecvCtr { return Error; }
      var ptLen := |raw| - OVERHEAD;
      if ptLen > cap { return Error; }
      var plain := decrypt(nonce, raw[12..28], raw[28..]);
      if plain.None? { return Error; }
      haveRecv, lastRecvCtr := true, ctr;
      r := Message(plain.value);
    }
  }

  // ---------------------------------------------------------------- two ends, any network

  /** One call of encrypt under the link key: the ideal cipher's memory. */
  datatype Record = Record(nonce: Bytes, sealed: Sealed, pt: Bytes)

  datatype Side = A | B

  /** One machine's end of the link with its history: the encrypt calls it made, the frames
      it handed to the transport, the plaintexts `recv` returned, and for each of those the
      position of the encrypt call it came from in (peer's calls + own calls). */
  datatype Station = Station(end: End, calls: seq<Record>, handed: seq<Bytes>,
                             got: seq<Bytes>, picks: seq<nat>)

  datatype Link = Link(a: Station, b: Station) {
    function At(s: Side): Station { if s == A then a else b }
    function Put(s: Side, x: Station): Link { if s == A then this.(a := x) else this.(b := x) }
  }

  function Other(s: Side): Side { if s == A then B else A }

  /** `Recv` delivers arbitrary bytes: the network owns what arrives. */
  datatype Event = Send(side: Side, pt: Bytes, encrypted: Option<Sealed>)
                 | Recv(side: Side, raw: Bytes, cap: nat)

  function NewStation(role: Role): Station { Station(NewEnd(role), [], [], [], []) }

  function NewLink(role: Role): Link {
    Link(NewStation(role), NewStation(Opposite(role)))
  }

  /** Ideal AEAD: decrypt succeeds exactly on the (nonce, tag, ciphertext) triples some
      encrypt call under the key produced; this is the first such call. */
  function Opens(calls: seq<Record>, nonce: Bytes, sealed: Sealed): (r: Option<nat>)
    ensures r.Some? ==> r.value < |calls| && calls[r.value].nonce == nonce && calls[r.value].sealed == sealed
    ensures r.None? ==> forall k :: 0 <= k < |calls| ==> calls[k].nonce != nonce || calls[k].sealed != sealed
  {
    if calls == [] then None
    else if calls[0].nonce == nonce && calls[0].sealed == sealed then Some(0)
    else match Opens(calls[1..], nonce, sealed)
         case None => None
         case Some(k) => Some(k + 1)
  }

  function SendAt(x: Station, pt: Bytes, encrypted: Option<Sealed>): Station {
    if pt == [] || encrypted.None? || !WellFormedSeal(encrypted.value, pt) then x
    else
      var frame := SendFrame(x.end, pt, encrypted);
      x.(end := AfterSend(x.end, pt, encrypted),
         calls := x.calls + [Record(Nonce(x.end.sendRole, x.end.sendCtr), encrypted.value, pt)],
         handed := if frame.Some? then x.handed + [frame.value] else x.handed)
  }

  function RecvAt(x: Station, peerCalls: seq<Record>, raw: Bytes, cap: nat): Station {
    if !Admissible(x.end, raw, cap) then x
    else match Opens(peerCalls + x.calls, raw[..12], Sealed(raw[12..28], raw[28..]))
         case None => x
         case Some(k) =>
           x.(end := AfterRecv(x.end, raw), got := x.got + [(peerCalls + x.calls)[k].pt],
              picks := x.picks + [k])
  }

  function Step(l: Link, e: Event): Link {
    match e
    case Send(side, pt, encrypted) => l.Put(side, SendAt(l.At(side), pt, encrypted))
    case Recv(side, raw, cap) => l.Put(side, RecvAt(l.At(side), l.At(Other(side)).calls, raw, cap))
  }

  function Run(l: Link, events: seq<Event>): Link {
    if events == [] then l else Step(Run(l, events[..|events| - 1]), events[|events| - 1])
  }

  function Plaintexts(calls: seq<Record>): (r: seq<Bytes>)
    ensures |r| == |calls| && forall i :: 0 <= i < |r| ==> r[i] == calls[i].pt
  {
    seq(|calls|, i requires 0 <= i < |calls| => calls[i].pt)
  }

  /** What reached the wire: at counter exhaustion encrypt still runs, but nothing is sent. */
  function Sent(x: Station): seq<Bytes> {
    Plaintexts(x.calls)[..Min(|x.calls|, U64_MAX)]
  }

  /** The `k`-th encrypt call of an end used counter min(k, 2^64-1). */
  ghost predicate SenderOk(x: Station) {
    && x.end.sendCtr == |x.handed| == Min(|x.calls|, U64_MAX)
    && (forall k {:trigger x.calls[k]} :: 0 <= k < |x.calls| ==>
          && x.calls[k].nonce == Nonce(x.end.sendRole, Min(k, U64_MAX))
          && WellFormedSeal(x.calls[k].sealed, x.calls[k].pt))
    && (forall k :: 0 <= k < |x.handed| ==> x.handed[k] == Frame(x.calls[k].nonce, x.calls[k].sealed))
  }

  ghost predicate Increasing(ks: seq<nat>) {
    forall i, j :: 0 <= i < j < |ks| ==> ks[i] < ks[j]
  }

  /** `xs` is `ys` with some elements left out: `ks` says which were kept. */
  ghost predicate Selects(xs: seq<Bytes>, ys: seq<Bytes>, ks: seq<nat>) {
    && |ks| == |xs| && Increasing(ks)
    && forall i :: 0 <= i < |ks| ==> ks[i] < |ys| && xs[i] == ys[ks[i]]
  }

  ghost predicate ReceiverOk(x: Station, peer: Station) {
    && Selects(x.got, Plaintexts(peer.calls), x.picks)
    && (x.end.haveRecv <==> x.picks != [])
    && (x.picks != [] ==> x.end.lastRecv == Min(x.picks[|x.picks| - 1], U64_MAX))
  }

  /** One end as the sender of its own direction and the receiver of the other. */
  ghost predicate HalfOk(x: Station, peer: Station) {
    && x.end.recvRole == peer.end.sendRole != x.end.sendRole
    && SenderOk(x) && ReceiverOk(x, peer)
  }

  ghost predicate Inv(l: Link) {
    HalfOk(l.a, l.b) && HalfOk(l.b, l.a)
  }

  lemma SendKeepsSender(x: Station, pt: Bytes, encrypted: Option<Sealed>)
    requires SenderOk(x)
    ensures SenderOk(SendAt(x, pt, encrypted))
  {
    var y := SendAt(x, pt, encrypted);
    if y != x {
      var n := |x.calls|;
      assert y.calls[n] == Record(Nonce(x.end.sendRole, Min(n, U64_MAX)), encrypted.value, pt);
      forall k | 0 <= k < |y.calls|
        ensures y.calls[k].nonce == Nonce(y.end.sendRole, Min(k, U64_MAX))
        ensures WellFormedSeal(y.calls[k].sealed, y.calls[k].pt)
      {
        if k < n { assert y.calls[k] == x.calls[k]; }
      }
      forall k | 0 <= k < |y.handed|
        ensures y.handed[k] == Frame(y.calls[k].nonce, y.calls[k].sealed)
      {
        if k < |x.handed| { assert y.handed[k] == x.handed[k] && y.calls[k] == x.calls[k]; }
      }
    }
  }

  /** More calls of the peer do not disturb what was selected from the earlier ones. */
  lemma SendKeepsReceiver(x: Station, peer: Station, pt: Bytes, encrypted: Option<Sealed>)
    requires ReceiverOk(x, peer)
    ensures ReceiverOk(x, SendAt(peer, pt, encrypted))
    ensures ReceiverOk(SendAt(x, pt, encrypted), peer)
  {
    var p := Plaintexts(peer.calls);
    var q := Plaintexts(SendAt(peer, pt, encrypted).calls);
    assert forall i :: 0 <= i < |p| ==> q[i] == p[i];
  }

  lemma FromEither<T>(a: seq<T>, b: seq<T>, k: nat)
    requires k < |a + b|
    ensures (a + b)[k] == if k < |a| then a[k] else b[k - |a|]
  {
  }

  /** A nonce of the peer's direction can only come from a call of the peer. */
  lemma PeerDirection(x: Station, peer: Station, k: nat)
    requires SenderOk(x) && x.end.sendRole != peer.end.sendRole
    requires k < |peer.calls + x.calls|
    requires |(peer.calls + x.calls)[k].nonce| > 0 && (peer.calls + x.calls)[k].nonce[0] == peer.end.sendRole
    ensures k < |peer.calls| && (peer.calls + x.calls)[k] == peer.calls[k]
  {
    FromEither(peer.calls, x.calls, k);
  }

  lemma RecvPicksPeer(x: Station, peer: Station, raw: Bytes, cap: nat)
    requires HalfOk(x, peer) && SenderOk(peer)
    ensures ReceiverOk(RecvAt(x, peer.calls, raw, cap), peer)
  {
    if Admissible(x.end, raw, cap) {
      match Opens(peer.calls + x.calls, raw[..12], Sealed(raw[12..28], raw[28..]))
      case None =>
      case Some(k) =>
        OpenedCounter(x, peer, raw, k);
        assert Plaintexts(peer.calls)[k] == peer.calls[k].pt;
    }
  }

  /** What a frame opens as is a call of the peer, and its counter is that of the call. */
  lemma OpenedCounter(x: Station, peer: Station, raw: Bytes, k: nat)
    requires SenderOk(x) && SenderOk(peer) && x.end.recvRole == peer.end.sendRole != x.end.sendRole
    requires OVERHEAD <= |raw| && raw[0] == x.end.recvRole
    requires k < |peer.calls + x.calls| && (peer.calls + x.calls)[k].nonce == raw[..12]
    ensures k < |peer.calls| && (peer.calls + x.calls)[k] == peer.calls[k]
    ensures CounterOf(raw) == Min(k, U64_MAX)
  {
    assert (peer.calls + x.calls)[k].nonce[0] == raw[0];
    PeerDirection(x, peer, k);
    CounterRoundTrip(peer.end.sendRole, Min(k, U64_MAX));
    assert raw[..12][4..12] == raw[4..12];
  }

  lemma SendKeepsHalves(x: Station, peer: Station, pt: Bytes, encrypted: Option<Sealed>)
    requires HalfOk(x, peer) && HalfOk(peer, x)
    ensures HalfOk(SendAt(x, pt, encrypted), peer) && HalfOk(peer, SendAt(x, pt, encrypted))
  {
    SendKeepsSender(x, pt, encrypted);
    SendKeepsReceiver(peer, x, pt, encrypted);
    SendKeepsReceiver(x, peer, pt, encrypted);
  }

  lemma RecvKeepsHalves(x: Station, peer: Station, raw: Bytes, cap: nat)
    requires HalfOk(x, peer) && HalfOk(peer, x)
    ensures var y := RecvAt(x, peer.calls, raw, cap); HalfOk(y, peer) && HalfOk(peer, y)
  {
    var y := RecvAt(x, peer.calls, raw, cap);
    assert y.calls == x.calls && y.handed == x.handed;
    RecvPicksPeer(x, peer, raw, cap);
  }

  lemma StepKeepsInv(l: Link, e: Event)
    requires Inv(l)
    ensures Inv(Step(l, e))
  {
    match e
    case Send(side, pt, encrypted) => SendKeepsHalves(l.At(side), l.At(Other(side)), pt, encrypted);
    case Recv(side, raw, cap) => RecvKeepsHalves(l.At(side), l.At(Other(side)), raw, cap);
  }

  lemma {:induction false} RunKeepsInv(role: Role, events: seq<Event>)
    ensures Inv(Run(NewLink(role), events))
  {
    if events != [] {
      RunKeepsInv(role, events[..|events| - 1]);
      StepKeepsInv(Run(NewLink(role), events[..|events| - 1]), events[|events| - 1]);
    }
  }

  /** The two ends that machines with distinct ids build for themselves form such a link. */
  lemma EndsFormALink(a: PeerId, b: PeerId)
    requires a != b
    ensures Link(NewStation(LinkRole(a, b)), NewStation(LinkRole(b, a))) == NewLink(LinkRole(a, b))
  {
    LinkRolesOpposite(a, b);
  }

  /** On the wire: twelve octets of nonce whose first is 0 from the end with the smaller id and
      1 from the other and whose last eight are the counter, sixteen of tag, the ciphertext. */
  lemma FrameLayout(self: PeerId, peer: PeerId, ctr: nat, s: Sealed, pt: Bytes)
    requires ctr < U64_MAX && pt != [] && WellFormedSeal(s, pt)
    ensures var f := SendFrame(NewEnd(LinkRole(self, peer)).(sendCtr := ctr), pt, Some(s));
            && f.Some? && |f.value| == 28 + |pt|
            && f.value[0] == (if Less(self, peer) then 0 else 1) && f.value[1..4] == [0, 0, 0]
            && Value(f.value[4..12]) == ctr
            && f.value[12..28] == s.tag && f.value[28..] == s.ct
  {
    var role := RoleByte(LinkRole(self, peer));
    CounterRoundTrip(role, ctr);
    FrameParts(Nonce(role, ctr), s);
    assert Frame(Nonce(role, ctr), s)[1..4] == [0, 0, 0];
  }

  /** Nothing longer than the receiver's buffer is ever returned. */
  lemma ReceivedFits(x: Station, peer: Station, raw: Bytes, cap: nat)
    requires HalfOk(x, peer) && HalfOk(peer, x)
    ensures var y := RecvAt(x, peer.calls, raw, cap);
            y == x || (|y.got| == |x.got| + 1 && |y.got[|x.got|]| <= cap)
  {
    if Admissible(x.end, raw, cap) {
      match Opens(peer.calls + x.calls, raw[..12], Sealed(raw[12..28], raw[28..]))
      case None =>
      case Some(k) =>
        assert (peer.calls + x.calls)[k].nonce[0] == raw[0];
        PeerDirection(x, peer, k);
    }
  }

  /** Channel refinement. Whatever the network does, in every run what one end receives is
      an in-order, duplicate-free selection of what the other end encrypted. It is one of
      what the other end sent exactly unless the exhausted counter, which never reaches the
      wire, was accepted; so always when the sender's counter is not exhausted. */
  lemma ReceivedIsSelectionOfSent(role: Role, events: seq<Event>, side: Side)
    ensures var l := Run(NewLink(role), events);
            var x, peer := l.At(side), l.At(Other(side));
            && Selects(x.got, Plaintexts(peer.calls), x.picks)
            && (Selects(x.got, Sent(peer), x.picks) <==> !(x.end.haveRecv && x.end.lastRecv == U64_MAX))
            && (peer.end.sendCtr < U64_MAX ==> Selects(x.got, Sent(peer), x.picks))
  {
    RunKeepsInv(role, events);
    var l := Run(NewLink(role), events);
    SelectionOfSent(l.At(side), l.At(Other(side)));
  }

  lemma SelectionOfSent(x: Station, peer: Station)
    requires SenderOk(peer) && ReceiverOk(x, peer)
    ensures Selects(x.got, Sent(peer), x.picks) <==> !(x.end.haveRecv && x.end.lastRecv == U64_MAX)
    ensures peer.end.sendCtr < U64_MAX ==> Selects(x.got, Sent(peer), x.picks)
  {
    if x.picks != [] {
      var last := |x.picks| - 1;
      assert x.picks[last] < |Plaintexts(peer.calls)|;
      assert Selects(x.got, Sent(peer), x.picks) ==> x.picks[last] < |Sent(peer)|;
    }
  }

  function Times(n: nat, e: Event): (r: seq<Event>)
    ensures |r| == n
  {
    if n == 0 then [] else Times(n - 1, e) + [e]
  }

  lemma {:induction false} AfterSends(role: Role, n: nat, pt: Bytes, s: Sealed)
    requires pt != [] && WellFormedSeal(s, pt)
    ensures var l := Run(NewLink(role), Times(n, Send(A, pt, Some(s))));
            && l.b == NewStation(Opposite(role)) && l.a.end.sendRole == RoleByte(role)
            && |l.a.calls| == n
            && forall k :: 0 <= k < n ==> l.a.calls[k].sealed == s && l.a.calls[k].pt == pt
  {
    if n > 0 {
      var e := Send(A, pt, Some(s));
      AfterSends(role, n - 1, pt, s);
      assert Times(n, e)[..n - 1] == Times(n - 1, e);
    }
  }

  /** Runs in which it is accepted: the initiator encrypts 2^64 times or more, and a frame
      that it refused to send is presented all the same. */
  lemma UnsentFrameCanBeAccepted(n: nat, pt: Bytes, s: Sealed)
    requires n >= U64 && pt != [] && WellFormedSeal(s, pt)
    ensures var raw := Frame(Nonce(0, U64_MAX), s);
            var l := Run(NewLink(Initiator), Times(n, Send(A, pt, Some(s))) + [Recv(B, raw, |pt|)]);
            l.b.got == [pt] && !Selects(l.b.got, Sent(l.a), l.b.picks)
  {
    var sends, raw := Times(n, Send(A, pt, Some(s))), Frame(Nonce(0, U64_MAX), s);
    AfterSends(Initiator, n, pt, s);
    RunKeepsInv(Initiator, sends);
    var m := Run(NewLink(Initiator), sends);
    FrameParts(Nonce(0, U64_MAX), s);
    CounterRoundTrip(0, U64_MAX);
    assert m.a.calls[U64_MAX].nonce == Nonce(0, U64_MAX);
    AcceptsCall(m.b, m.a.calls, raw, |pt|, U64_MAX);
    var events := sends + [Recv(B, raw, |pt|)];
    assert events[..|events| - 1] == sends;
    ReceivedIsSelectionOfSent(Initiator, events, B);
  }

  lemma AcceptsCall(x: Station, calls: seq<Record>, raw: Bytes, cap: nat, k: nat)
    requires k < |calls| && |raw| >= OVERHEAD && Admissible(x.end, raw, cap) && x.got == [] && x.calls == []
    requires calls[k].nonce == raw[..12] && calls[k].sealed == Sealed(raw[12..28], raw[28..])
    requires forall j :: 0 <= j < |calls| ==> calls[j].pt == calls[k].pt
    ensures var y := RecvAt(x, calls, raw, cap);
            y.got == [calls[k].pt] && y.end.haveRecv && y.end.lastRecv == CounterOf(raw)
  {
    assert calls + [] == calls;
    assert (calls + x.calls)[k] == calls[k];
  }

  /** What a network can present: not the frame of an encryption that was never handed to it. */
  ghost predicate Presentable(l: Link, e: Event) {
    e.Recv? ==>
      var peer := l.At(Other(e.side));
      forall k :: |peer.handed| <= k < |peer.calls| ==> e.raw != Frame(peer.calls[k].nonce, peer.calls[k].sealed)
  }

  ghost predicate PresentableRun(l: Link, events: seq<Event>) {
    events == [] ||
    (PresentableRun(l, events[..|events| - 1])
     && Presentable(Run(l, events[..|events| - 1]), events[|events| - 1]))
  }

  /** Everything an end has accepted was on the wire. */
  ghost predicate PicksSent(x: Station) {
    forall i :: 0 <= i < |x.picks| ==> x.picks[i] < U64_MAX
  }

  lemma FrameFromParts(raw: Bytes, rec: Record)
    requires |raw| >= OVERHEAD && raw[..12] == rec.nonce
    requires Sealed(raw[12..28], raw[28..]) == rec.sealed
    ensures raw == Frame(rec.nonce, rec.sealed)
  {
    assert raw == raw[..12] + raw[12..28] + raw[28..];
  }

  lemma RecvPicksSent(x: Station, peer: Station, raw: Bytes, cap: nat)
    requires HalfOk(x, peer) && SenderOk(peer) && PicksSent(x)
    requires forall k :: |peer.handed| <= k < |peer.calls| ==>
               raw != Frame(peer.calls[k].nonce, peer.calls[k].sealed)
    ensures PicksSent(RecvAt(x, peer.calls, raw, cap))
  {
    if Admissible(x.end, raw, cap) {
      match Opens(peer.calls + x.calls, raw[..12], Sealed(raw[12..28], raw[28..]))
      case None =>
      case Some(k) =>
        var rec := (peer.calls + x.calls)[k];
        assert rec.nonce[0] == raw[0];
        PeerDirection(x, peer, k);
        FrameFromParts(raw, rec);
    }
  }

  lemma StepPicksSent(l: Link, e: Event)
    requires Inv(l) && PicksSent(l.a) && PicksSent(l.b) && Presentable(l, e)
    ensures PicksSent(Step(l, e).a) && PicksSent(Step(l, e).b)
  {
    match e
    case Send(_, _, _) =>
    case Recv(side, raw, cap) => RecvPicksSent(l.At(side), l.At(Other(side)), raw, cap);
  }

  lemma {:induction false} RunPicksSent(role: Role, events: seq<Event>)
    requires PresentableRun(NewLink(role), events)
    ensures var l := Run(NewLink(role), events); PicksSent(l.a) && PicksSent(l.b)
  {
    if events != [] {
      RunPicksSent(role, events[..|events| - 1]);
      RunKeepsInv(role, events[..|events| - 1]);
      StepPicksSent(Run(NewLink(role), events[..|events| - 1]), events[|events| - 1]);
    }
  }

  /** Without exception, counter exhaustion included: over a network that presents only what
      it was given or bytes no encryption produced, what one end receives is an in-order,
      duplicate-free selection of what the other end handed to its transport. */
  lemma ReceivedWasSent(role: Role, events: seq<Event>, side: Side)
    requires PresentableRun(NewLink(role), events)
    ensures var l := Run(NewLink(role), events);
            Selects(l.At(side).got, Sent(l.At(Other(side))), l.At(side).picks)
  {
    RunKeepsInv(role, events);
    RunPicksSent(role, events);
    var l := Run(NewLink(role), events);
    var x := l.At(side);
    assert x.picks != [] ==> x.picks[|x.picks| - 1] < U64_MAX;
    SelectionOfSent(x, l.At(Other(side)));
  }

  /** No two frames that either end ever hands to the transport share a nonce. */
  lemma NoNonceReuse(role: Role, events: seq<Event>, s1: Side, i: nat, s2: Side, j: nat)
    requires var l := Run(NewLink(role), events);
             i < |l.At(s1).handed| && j < |l.At(s2).handed| && (s1 != s2 || i != j)
    ensures var l := Run(NewLink(role), events);
            var f, g := l.At(s1).handed[i], l.At(s2).handed[j];
            |f| >= OVERHEAD && |g| >= OVERHEAD && f[..12] != g[..12]
  {
    RunKeepsInv(role, events);
    var l := Run(NewLink(role), events);
    var x, y := l.At(s1), l.At(s2);
    assert x.handed[i] == Frame(x.calls[i].nonce, x.calls[i].sealed);
    assert y.handed[j] == Frame(y.calls[j].nonce, y.calls[j].sealed);
    assert x.handed[i][..12] == Nonce(x.end.sendRole, i);
    assert y.handed[j][..12] == Nonce(y.end.sendRole, j);
    NonceInjective(x.end.sendRole, i, y.end.sendRole, j);
  }

  // ---------------------------------------------------------------- faithful FIFO network

  /** A link whose network delivers what it is given, in order. */
  datatype Fifo = Fifo(link: Link, toA: seq<Bytes>, toB: seq<Bytes>) {
    function Queue(s: Side): seq<Bytes> { if s == A then toA else toB }
    function With(s: Side, q: seq<Bytes>, l: Link): Fifo {
      if s == A then Fifo(l, q, toB) else Fifo(l, toA, q)
    }
  }

  datatype FifoEvent = Push(side: Side, pt: Bytes, encrypted: Option<Sealed>) | Pull(side: Side, cap: nat)

  function FifoStep(f: Fifo, e: FifoEvent): Fifo {
    match e
    case Push(side, pt, encrypted) =>
      var l := Step(f.link, Send(side, pt, encrypted));
      var added := l.At(side).handed[Min(|f.link.At(side).handed|, |l.At(side).handed|)..];
      f.With(Other(side), f.Queue(Other(side)) + added, l)
    case Pull(side, cap) =>
      if f.Queue(side) == [] then f
      else f.With(side, f.Queue(side)[1..], Step(f.link, Recv(side, f.Queue(side)[0], cap)))
  }

  function FifoRun(role: Role, events: seq<FifoEvent>): Fifo {
    if events == [] then Fifo(NewLink(role), [], [])
    else FifoStep(FifoRun(role, events[..|events| - 1]), events[|events| - 1])
  }

  /** Messages have at most `m` bytes and every receive buffer has room for `m`. */
  ghost predicate BigBuffers(events: seq<FifoEvent>, m: nat) {
    forall i :: 0 <= i < |events| ==>
      if events[i].Push? then |events[i].pt| <= m else m <= events[i].cap
  }

  ghost predicate CallsFit(calls: seq<Record>, m: nat) {
    forall k :: 0 <= k < |calls| ==> |calls[k].pt| <= m
  }

  ghost predicate FifoSide(x: Station, peer: Station, queue: seq<Bytes>) {
    && |x.got| <= |peer.handed|
    && queue == peer.handed[|x.got|..]
    && forall i :: 0 <= i < |x.picks| ==> x.picks[i] == i
  }

  ghost predicate FifoHalf(x: Station, peer: Station, queue: seq<Bytes>, m: nat) {
    HalfOk(x, peer) && CallsFit(x.calls, m) && FifoSide(x, peer, queue)
  }

  ghost predicate FifoInv(f: Fifo, m: nat) {
    FifoHalf(f.link.a, f.link.b, f.toA, m) && FifoHalf(f.link.b, f.link.a, f.toB, m)
  }

  lemma FrameParts(nonce: Bytes, s: Sealed)
    requires |nonce| == NONCE_LEN && |s.tag| == TAG_LEN
    ensures var raw := Frame(nonce, s);
            && raw[..12] == nonce && raw[4..12] == nonce[4..12]
            && raw[12..28] == s.tag && raw[28..] == s.ct
  {
  }

  /** Opening the frame of the peer's `n`-th call finds that call, before the counter runs out. */
  lemma OpensItsCall(x: Station, peer: Station, n: nat)
    requires SenderOk(x) && SenderOk(peer) && x.end.sendRole != peer.end.sendRole
    requires n < |peer.calls| && n < U64_MAX
    ensures Opens(peer.calls + x.calls, peer.calls[n].nonce, peer.calls[n].sealed) == Some(n)
  {
    var all, rec := peer.calls + x.calls, peer.calls[n];
    assert all[n] == rec;
    var k := Opens(all, rec.nonce, rec.sealed).value;
    PeerDirection(x, peer, k);
    NonceInjective(peer.end.sendRole, Min(k, U64_MAX), peer.end.sendRole, n);
  }

  lemma PullDelivers(x: Station, peer: Station, queue: seq<Bytes>, cap: nat)
    requires HalfOk(x, peer) && SenderOk(peer) && FifoSide(x, peer, queue)
    requires queue != [] && CallsFit(peer.calls, cap)
    ensures FifoSide(RecvAt(x, peer.calls, queue[0], cap), peer, queue[1..])
  {
    var n := |x.got|;
    var raw := queue[0];
    assert n < U64_MAX;
    var rec := peer.calls[n];
    assert raw == Frame(rec.nonce, rec.sealed);
    FrameParts(rec.nonce, rec.sealed);
    CounterRoundTrip(peer.end.sendRole, n);
    assert Admissible(x.end, raw, cap);
    assert Sealed(raw[12..28], raw[28..]) == rec.sealed;
    OpensItsCall(x, peer, n);
  }

  lemma PushKeepsFifo(x: Station, peer: Station, q: seq<Bytes>, qPeer: seq<Bytes>, m: nat,
                      pt: Bytes, encrypted: Option<Sealed>)
    requires FifoHalf(x, peer, q, m) && FifoHalf(peer, x, qPeer, m) && |pt| <= m
    ensures var y := SendAt(x, pt, encrypted);
            && |x.handed| <= |y.handed|
            && FifoHalf(y, peer, q, m) && FifoHalf(peer, y, qPeer + y.handed[|x.handed|..], m)
  {
    SendKeepsHalves(x, peer, pt, encrypted);
    var y := SendAt(x, pt, encrypted);
    assert y.handed == x.handed + y.handed[|x.handed|..];
  }

  lemma PullKeepsFifo(x: Station, peer: Station, q: seq<Bytes>, qPeer: seq<Bytes>, m: nat, cap: nat)
    requires FifoHalf(x, peer, q, m) && FifoHalf(peer, x, qPeer, m) && m <= cap && q != []
    ensures var y := RecvAt(x, peer.calls, q[0], cap);
            FifoHalf(y, peer, q[1..], m) && FifoHalf(peer, y, qPeer, m)
  {
    RecvKeepsHalves(x, peer, q[0], cap);
    PullDelivers(x, peer, q, cap);
    var y := RecvAt(x, peer.calls, q[0], cap);
    assert y.calls == x.calls && y.handed == x.handed;
  }

  lemma {:induction false} FifoRunKeepsInv(role: Role, events: seq<FifoEvent>, m: nat)
    requires BigBuffers(events, m)
    ensures FifoInv(FifoRun(role, events), m)
  {
    if events != [] {
      var last := |events| - 1;
      FifoRunKeepsInv(role, events[..last], m);
      FifoStepKeepsInv(FifoRun(role, events[..last]), events[last], m);
    }
  }

  lemma FifoStepKeepsInv(f: Fifo, e: FifoEvent, m: nat)
    requires FifoInv(f, m) && if e.Push? then |e.pt| <= m else m <= e.cap
    ensures FifoInv(FifoStep(f, e), m)
  {
    var x, peer := f.link.At(e.side), f.link.At(Other(e.side));
    var q, qPeer := f.Queue(e.side), f.Queue(Other(e.side));
    match e
    case Push(_, pt, encrypted) => FifoPush(f, e, m);
    case Pull(_, cap) => if q != [] { PullKeepsFifo(x, peer, q, qPeer, m, cap); }
  }

  lemma FifoPush(f: Fifo, e: FifoEvent, m: nat)
    requires FifoInv(f, m) && e.Push? && |e.pt| <= m
    ensures FifoInv(FifoStep(f, e), m)
  {
    PushKeepsFifo(f.link.At(e.side), f.link.At(Other(e.side)), f.Queue(e.side), f.Queue(Other(e.side)), m,
                  e.pt, e.encrypted);
  }

  /** Over a faithful network with large enough buffers nothing is lost: what has been
      received is exactly a prefix of what was sent, and the rest is still in the queue. */
  lemma FifoDeliversPrefix(role: Role, events: seq<FifoEvent>, m: nat, side: Side)
    requires BigBuffers(events, m)
    ensures var f := FifoRun(role, events);
            var x, peer := f.link.At(side), f.link.At(Other(side));
            && |x.got| + |f.Queue(side)| == |Sent(peer)|
            && x.got == Sent(peer)[..|x.got|]
  {
    FifoRunKeepsInv(role, events, m);
    var f := FifoRun(role, events);
    GotIsPrefix(f.link.At(side), f.link.At(Other(side)), f.Queue(side));
  }

  lemma GotIsPrefix(x: Station, peer: Station, q: seq<Bytes>)
    requires HalfOk(x, peer) && SenderOk(peer) && FifoSide(x, peer, q)
    ensures |x.got| + |q| == |Sent(peer)| && x.got == Sent(peer)[..|x.got|]
  {
    assert forall i :: 0 <= i < |x.got| ==> x.got[i] == Plaintexts(peer.calls)[x.picks[i]];
  }
}
