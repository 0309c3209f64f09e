/** The two-round pairing exchange (src/pairing/pairing_exchange.cpp): commit, reveal,
    verify, derive. */
module Pairing {
  import opened ByteStrings
  import opened PairingCrypto

  const COMMIT_LEN: nat := 32
  const BUFFER: nat := 512

  datatype Status = NeedMore | Ok | Error

  datatype Phase = AwaitCommit | AwaitReveal

  datatype Exchange = Exchange(self: PeerId, priv: Bytes, nonce: Bytes, status: Status, phase: Phase,
                               peerCommit: Bytes, peerId: PeerId, code: Bytes, psk: Bytes)

  /** What one `recv` yields: nothing yet, an error, or a non-empty message. */
  datatype Input = Nothing | Broken | Data(bytes: Bytes)

  function Started(self: PeerId, priv: Bytes, nonce: Bytes): Exchange {
    Exchange(self, priv, nonce, NeedMore, AwaitCommit, Zeros(32), [], [], Zeros(32))
  }

  function Commitment(c: Crypto, pub: Bytes, nonce: Bytes, id: PeerId): Bytes { c.sha(pub + nonce + id) }

  function OwnCommit(c: Crypto, x: Exchange): Bytes { Commitment(c, c.pub(x.priv), x.nonce, x.self) }

  /** Ids are 1 to 255 bytes, so the length octet is exact. */
  function OwnReveal(c: Crypto, x: Exchange): Bytes
    requires |x.self| <= 255
  {
    [|x.self|] + x.self + c.pub(x.priv) + x.nonce
  }

  datatype Reveal = Reveal(id: PeerId, pub: Bytes, nonce: Bytes)

  /** [id_len][id][public point][nonce], exactly. */
  function ParseReveal(buf: Bytes): (r: Option<Reveal>)
    ensures r.Some? ==> r.value.id != [] && |r.value.pub| == PUB_LEN && |r.value.nonce| == NONCE_LEN
  {
    if buf == [] then None
    else
      var n := buf[0];
      if |buf| != 1 + n + PUB_LEN + NONCE_LEN || n == 0 then None
      else Some(Reveal(buf[1..1 + n], buf[1 + n..1 + n + PUB_LEN], buf[1 + n + PUB_LEN..]))
  }

  /** Everything `poll` demands of the reveal before it reports success. */
  predicate Accepts(c: Crypto, x: Exchange, r: Reveal) {
    && r.id != x.self
    && Commitment(c, r.pub, r.nonce, r.id) == x.peerCommit
    && (var s := c.shared(x.priv, r.pub); s.Some? && |s.value| == SHARED_LEN)
  }

  function Finish(c: Crypto, x: Exchange, r: Reveal): Exchange
    requires Accepts(c, x, r)
  {
    var s := c.shared(x.priv, r.pub).value;
    x.(status := Ok, peerId := r.id, code := Code(c, s, x.nonce, r.nonce), psk := Psk(c, s, x.self, r.id))
  }

  /** One `poll`: the next state and the message it sends. A reveal that parses names the
      peer even when it is then refused. */
  function Poll(c: Crypto, x: Exchange, input: Input, sendOk: bool): (r: (Exchange, Option<Bytes>))
    requires |x.self| <= 255
    ensures r.0.self == x.self && r.0.priv == x.priv && r.0.nonce == x.nonce
  {
    if x.status != NeedMore then (x, None)
    else match input
         case Nothing => (x, None)
         case Broken => (x.(status := Error), None)
         case Data(bytes) =>
           var buf := if |bytes| <= BUFFER then bytes else bytes[..BUFFER];
           if x.phase == AwaitCommit then
             if |buf| != COMMIT_LEN then (x.(status := Error), None)
             else if !sendOk then (x.(peerCommit := buf, status := Error), None)
             else (x.(peerCommit := buf, phase := AwaitReveal), Some(OwnReveal(c, x)))
           else
             var r := ParseReveal(buf);
             if r.None? then (x.(status := Error), None)
             else if Accepts(c, x, r.value) then (Finish(c, x, r.value), None)
             else (x.(status := Error, peerId := r.value.id), None)
  }

  // ---------------------------------------------------------------- an arbitrary peer

  /** A run against anyone: the state and the messages actually consumed. */
  datatype Session = Session(x: Exchange, heard: seq<Bytes>)

  datatype Turn = Turn(input: Input, sendOk: bool)

  function Cut(b: Bytes): Bytes { if |b| <= BUFFER then b else b[..BUFFER] }

  function Take(c: Crypto, s: Session, t: Turn): Session
    requires |s.x.self| <= 255
  {
    Session(Poll(c, s.x, t.input, t.sendOk).0,
            if s.x.status == NeedMore && t.input.Data? then s.heard + [Cut(t.input.bytes)] else s.heard)
  }

  function Talk(c: Crypto, x: Exchange, turns: seq<Turn>): (s: Session)
    requires |x.self| <= 255
    ensures s.x.self == x.self && s.x.priv == x.priv && s.x.nonce == x.nonce
  {
    if turns == [] then Session(x, []) else Take(c, Talk(c, x, turns[..|turns| - 1]), turns[|turns| - 1])
  }

  /** What success proves about the two messages consumed: the second reveals an id, point
      and nonce that hash to the first, and the results are derived from them. */
  ghost predicate Vouched(c: Crypto, x: Exchange, commit: Bytes, opening: Bytes) {
    && |commit| == COMMIT_LEN
    && ParseReveal(opening).Some?
    && DerivedFrom(c, x, commit, ParseReveal(opening).value)
  }

  ghost predicate DerivedFrom(c: Crypto, x: Exchange, commit: Bytes, r: Reveal) {
    && r.id != x.self && r.id != []
    && Commitment(c, r.pub, r.nonce, r.id) == commit
    && c.shared(x.priv, r.pub).Some?
    && x.peerId == r.id
    && x.code == Code(c, c.shared(x.priv, r.pub).value, x.nonce, r.nonce)
    && x.psk == Psk(c, c.shared(x.priv, r.pub).value, x.self, r.id)
  }

  /** With any peer and any transport, success comes only after a reveal that hashes to the
      commitment received before it. */
  lemma {:induction false} OkOnlyAfterMatchingReveal(c: Crypto, self: PeerId, priv: Bytes, nonce: Bytes,
                                                     turns: seq<Turn>)
    requires |self| <= 255
    ensures var s := Talk(c, Started(self, priv, nonce), turns);
            && (s.x.status == Ok ==> |s.heard| == 2 && Vouched(c, s.x, s.heard[0], s.heard[1]))
            && (s.x.status == NeedMore && s.x.phase == AwaitCommit ==> s.heard == [])
            && (s.x.status == NeedMore && s.x.phase == AwaitReveal ==>
                  s.heard == [s.x.peerCommit] && |s.x.peerCommit| == COMMIT_LEN)
  {
    if turns != [] { OkOnlyAfterMatchingReveal(c, self, priv, nonce, turns[..|turns| - 1]); }
  }

  /** A reveal is exactly its four parts: no other message parses. */
  lemma RevealIsItsParts(buf: Bytes)
    ensures ParseReveal(buf).Some? ==>
              var r := ParseReveal(buf).value;
              && 1 <= |r.id| <= 255 && |r.pub| == 64 && |r.nonce| == 32
              && buf == [|r.id|] + r.id + r.pub + r.nonce
  {
    if ParseReveal(buf).Some? {
      var n := buf[0];
      assert buf == [buf[0]] + buf[1..1 + n] + buf[1 + n..1 + n + PUB_LEN] + buf[1 + n + PUB_LEN..];
    }
  }

  lemma PartsAreAReveal(r: Reveal)
    requires 1 <= |r.id| <= 255 && |r.pub| == 64 && |r.nonce| == 32
    ensures ParseReveal([|r.id|] + r.id + r.pub + r.nonce) == Some(r)
  {
    var buf, n := [|r.id|] + r.id + r.pub + r.nonce, |r.id|;
    assert buf[1..1 + n] == r.id;
    assert buf[1 + n..1 + n + PUB_LEN] == r.pub;
    assert buf[1 + n + PUB_LEN..] == r.nonce;
  }

  /** `commit` and `opening` are the two messages of a peer that names itself `r.id`, and `x`
      holds what they make of its own key and nonce. */
  ghost predicate Earned(c: Crypto, x: Exchange, commit: Bytes, opening: Bytes, r: Reveal) {
    && 1 <= |r.id| <= 255 && |r.pub| == 64 && |r.nonce| == 32
    && opening == [|r.id|] + r.id + r.pub + r.nonce
    && |commit| == 32 && commit == c.sha(r.pub + r.nonce + r.id)
    && r.id != x.self && x.peerId == r.id
    && (var s := c.shared(x.priv, r.pub);
        && s.Some?
        && IsCode(c, s.value, x.nonce, r.nonce, x.code)
        && IsPsk(c, s.value, x.self, r.id, x.psk))
  }

  /** Success is earned by exactly two messages: with any peer and any transport, the second
      opens the first, and code, key and peer id are what the two sides' secrets, nonces and
      ids make them. */
  lemma SuccessIsEarned(c: Crypto, self: PeerId, priv: Bytes, nonce: Bytes, turns: seq<Turn>)
    returns (r: Reveal)
    requires |self| <= 255 && Talk(c, Started(self, priv, nonce), turns).x.status == Ok
    ensures var s := Talk(c, Started(self, priv, nonce), turns);
            |s.heard| == 2 && Earned(c, s.x, s.heard[0], s.heard[1], r)
  {
    OkOnlyAfterMatchingReveal(c, self, priv, nonce, turns);
    var s := Talk(c, Started(self, priv, nonce), turns);
    r := ParseReveal(s.heard[1]).value;
    RevealIsItsParts(s.heard[1]);
    var secret := c.shared(s.x.priv, r.pub).value;
    CodeIsCode(c, secret, s.x.nonce, r.nonce);
    PskIsPsk(c, secret, s.x.self, r.id);
  }

  /** The first message decides the first round: 32 bytes and a reveal that could be sent lead
      to the second, anything else to an error. */
  lemma FirstRoundDecides(c: Crypto, x: Exchange, message: Bytes, sendOk: bool)
    requires 1 <= |x.self| <= 255 && x.status == NeedMore && x.phase == AwaitCommit
    ensures var (y, out) := Poll(c, x, Data(message), sendOk);
            if |message| == 32 && sendOk then
              && y == x.(peerCommit := message, phase := AwaitReveal)
              && out == Some([|x.self|] + x.self + c.pub(x.priv) + x.nonce)
            else y.status == Error && out == None
  {
  }

  /** The second message decides the exchange: it succeeds exactly when it opens the
      commitment, is not from ourselves and its point is accepted; otherwise it is an error. */
  lemma SecondRoundDecides(c: Crypto, x: Exchange, message: Bytes, sendOk: bool)
    requires |x.self| <= 255 && x.status == NeedMore && x.phase == AwaitReveal && |message| <= 512
    ensures var y := Poll(c, x, Data(message), sendOk).0;
            && (y.status == Ok <==>
                  exists r: Reveal ::
                    && 1 <= |r.id| <= 255 && |r.pub| == 64 && |r.nonce| == 32
                    && message == [|r.id|] + r.id + r.pub + r.nonce
                    && r.id != x.self && c.sha(r.pub + r.nonce + r.id) == x.peerCommit
                    && c.shared(x.priv, r.pub).Some? && |c.shared(x.priv, r.pub).value| == 32)
            && (y.status != Ok ==> y.status == Error)
  {
    RevealIsItsParts(message);
    forall r: Reveal | 1 <= |r.id| <= 255 && |r.pub| == 64 && |r.nonce| == 32
                       && message == [|r.id|] + r.id + r.pub + r.nonce
      ensures ParseReveal(message) == Some(r)
    {
      PartsAreAReveal(r);
    }
  }

  /** Once the exchange has succeeded or failed, nothing changes it. */
  lemma {:induction false} TerminalIsFinal(c: Crypto, x: Exchange, turns: seq<Turn>, k: nat)
    requires |x.self| <= 255 && k <= |turns| && Talk(c, x, turns[..k]).x.status != NeedMore
    ensures Talk(c, x, turns) == Talk(c, x, turns[..k])
  {
    if k < |turns| {
      assert turns[..|turns| - 1][..k] == turns[..k];
      TerminalIsFinal(c, x, turns[..|turns| - 1], k);
    } else {
      assert turns[..k] == turns;
    }
  }

  // ---------------------------------------------------------------- two honest peers

  /** Two exchanges over first-in-first-out channels. */
  datatype Pair = Pair(a: Exchange, b: Exchange, toA: seq<Bytes>, toB: seq<Bytes>)

  datatype Side = A | B

  function Begin(c: Crypto, a: Exchange, b: Exchange): Pair {
    Pair(a, b, [OwnCommit(c, b)], [OwnCommit(c, a)])
  }

  function Front(q: seq<Bytes>): Input { if q == [] then Nothing else Data(q[0]) }

  function Behind(q: seq<Bytes>): seq<Bytes> { if q == [] then q else q[1..] }

  function Push(q: seq<Bytes>, m: Option<Bytes>): seq<Bytes> { if m.None? then q else q + [m.value] }

  /** A finished exchange no longer reads its channel. */
  function Step(c: Crypto, p: Pair, s: Side): (q: Pair)
    requires |p.a.self| <= 255 && |p.b.self| <= 255
    ensures q.a.self == p.a.self && q.b.self == p.b.self
  {
    match s
    case A =>
      if p.a.status != NeedMore then p
      else
        var (x, out) := Poll(c, p.a, Front(p.toA), true);
        Pair(x, p.b, Behind(p.toA), Push(p.toB, out))
    case B =>
      if p.b.status != NeedMore then p
      else
        var (x, out) := Poll(c, p.b, Front(p.toB), true);
        Pair(p.a, x, Push(p.toA, out), Behind(p.toB))
  }

  function Run(c: Crypto, p: Pair, schedule: seq<Side>): (q: Pair)
    requires |p.a.self| <= 255 && |p.b.self| <= 255
    ensures q.a.self == p.a.self && q.b.self == p.b.self
  {
    if schedule == [] then p
    else Step(c, Run(c, p, schedule[..|schedule| - 1]), schedule[|schedule| - 1])
  }

  ghost predicate Honest(c: Crypto, x: Exchange) {
    1 <= |x.self| <= 255 && |x.nonce| == NONCE_LEN && |c.pub(x.priv)| == PUB_LEN
  }

  /** How far an exchange has come: 0 waiting for the commit, 1 for the reveal, 2 done. */
  function Progress(x: Exchange): nat {
    if x.status == Ok then 2 else if x.phase == AwaitReveal then 1 else 0
  }

  /** `x` at its progress in a conversation with the honest `y`. */
  ghost predicate OnTrack(c: Crypto, x: Exchange, y: Exchange) {
    && Honest(c, x) && x.status != Error
    && (Progress(x) >= 1 ==> x.peerCommit == OwnCommit(c, y) && x.phase == AwaitReveal)
    && (Progress(x) == 2 ==>
          && x.peerId == y.self
          && c.shared(x.priv, c.pub(y.priv)).Some?
          && (var s := c.shared(x.priv, c.pub(y.priv)).value;
              x.code == Code(c, s, x.nonce, y.nonce) && x.psk == Psk(c, s, x.self, y.self)))
  }

  /** The channel to `x`: what the honest `y` has sent and `x` has not taken. */
  ghost predicate Channel(c: Crypto, x: Exchange, y: Exchange, q: seq<Bytes>)
    requires |y.self| <= 255
  {
    var sent := if Progress(y) >= 1 then [OwnCommit(c, y), OwnReveal(c, y)] else [OwnCommit(c, y)];
    Progress(x) <= |sent| && q == sent[Progress(x)..]
  }

  /** The lengths and the one law this conversation needs of the primitives. */
  ghost predicate Linked(c: Crypto, x: Exchange, y: Exchange) {
    && |OwnCommit(c, x)| == COMMIT_LEN && |OwnCommit(c, y)| == COMMIT_LEN
    && c.shared(x.priv, c.pub(y.priv)) == c.shared(y.priv, c.pub(x.priv))
    && c.shared(x.priv, c.pub(y.priv)).Some? && |c.shared(x.priv, c.pub(y.priv)).value| == SHARED_LEN
  }

  lemma LawfulLinks(c: Crypto, x: Exchange, y: Exchange)
    requires Lawful(c)
    ensures Linked(c, x, y)
  {
    assert |c.sha(c.pub(x.priv) + x.nonce + x.self)| == 32;
    assert |c.sha(c.pub(y.priv) + y.nonce + y.self)| == 32;
  }

  ghost predicate Inv(c: Crypto, p: Pair) {
    && Linked(c, p.a, p.b)
    && OnTrack(c, p.a, p.b) && OnTrack(c, p.b, p.a)
    && p.a.self != p.b.self
    && Channel(c, p.a, p.b, p.toA) && Channel(c, p.b, p.a, p.toB)
  }

  lemma RevealParses(c: Crypto, y: Exchange)
    requires Honest(c, y)
    ensures |OwnReveal(c, y)| <= BUFFER
    ensures ParseReveal(OwnReveal(c, y)) == Some(Reveal(y.self, c.pub(y.priv), y.nonce))
  {
    var buf, n := OwnReveal(c, y), |y.self|;
    assert buf[1..1 + n] == y.self;
    assert buf[1 + n..1 + n + PUB_LEN] == c.pub(y.priv);
    assert buf[1 + n + PUB_LEN..] == y.nonce;
  }

  /** A poll with a message waiting makes exactly one step of progress. */
  lemma PollAdvances(c: Crypto, x: Exchange, y: Exchange, q: seq<Bytes>)
    requires Linked(c, x, y) && OnTrack(c, x, y) && Honest(c, y) && x.self != y.self
    requires Channel(c, x, y, q) && x.status == NeedMore && q != []
    ensures var (x', out) := Poll(c, x, Front(q), true);
            && OnTrack(c, x', y) && Progress(x') == Progress(x) + 1
            && x'.self == x.self && x'.priv == x.priv && x'.nonce == x.nonce
            && Channel(c, x', y, q[1..])
            && (Progress(x) == 0 ==> out == Some(OwnReveal(c, x)))
            && (Progress(x) == 1 ==> out == None)
  {
    if Progress(x) == 0 {
      assert q[0] == OwnCommit(c, y);
    } else {
      assert q[0] == OwnReveal(c, y);
      RevealParses(c, y);
    }
  }

  /** The other end sees only that its peer has revealed. */
  lemma PeerAdvances(c: Crypto, y: Exchange, x: Exchange, x': Exchange, q: seq<Bytes>, out: Option<Bytes>)
    requires OnTrack(c, y, x) && Honest(c, x) && Honest(c, x') && Channel(c, y, x, q)
    requires x'.self == x.self && x'.priv == x.priv && x'.nonce == x.nonce && Progress(x') == Progress(x) + 1
    requires out == if Progress(x) == 0 then Some(OwnReveal(c, x)) else None
    ensures OnTrack(c, y, x') && Channel(c, y, x', Push(q, out))
  {
  }

  lemma StepKeepsInv(c: Crypto, p: Pair, s: Side)
    requires Inv(c, p)
    ensures Inv(c, Step(c, p, s))
    ensures Progress(Step(c, p, s).a) >= Progress(p.a) && Progress(Step(c, p, s).b) >= Progress(p.b)
    ensures s == A && Progress(p.a) < 2 && p.toA != [] ==> Progress(Step(c, p, s).a) == Progress(p.a) + 1
    ensures s == B && Progress(p.b) < 2 && p.toB != [] ==> Progress(Step(c, p, s).b) == Progress(p.b) + 1
  {
    if s == A && p.a.status == NeedMore && p.toA != [] {
      PollAdvances(c, p.a, p.b, p.toA);
      var (x, out) := Poll(c, p.a, Front(p.toA), true);
      PeerAdvances(c, p.b, p.a, x, p.toB, out);
    } else if s == B && p.b.status == NeedMore && p.toB != [] {
      PollAdvances(c, p.b, p.a, p.toB);
      var (x, out) := Poll(c, p.b, Front(p.toB), true);
      PeerAdvances(c, p.a, p.b, x, p.toA, out);
    }
  }

  /** Both ends have reached step `n`, and those that were polled since have left it. */
  ghost predicate Reached(c: Crypto, p: Pair, n: nat, polledA: bool, polledB: bool) {
    && Inv(c, p)
    && Progress(p.a) >= (if polledA then n + 1 else n)
    && Progress(p.b) >= (if polledB then n + 1 else n)
  }

  lemma StepReaches(c: Crypto, p: Pair, s: Side, n: nat, polledA: bool, polledB: bool)
    requires n <= 1 && Reached(c, p, n, polledA, polledB)
    ensures Reached(c, Step(c, p, s), n, polledA || s == A, polledB || s == B)
  {
    StepKeepsInv(c, p, s);
  }

  /** Both ends reach step `n+1` once each has been polled after both had reached step `n`. */
  lemma {:induction false} RoundAdvances(c: Crypto, p: Pair, schedule: seq<Side>, n: nat)
    requires n <= 1 && Reached(c, p, n, false, false)
    ensures Reached(c, Run(c, p, schedule), n, A in schedule, B in schedule)
  {
    if schedule != [] {
      var prefix, s := schedule[..|schedule| - 1], schedule[|schedule| - 1];
      RoundAdvances(c, p, prefix, n);
      StepReaches(c, Run(c, p, prefix), s, n, A in prefix, B in prefix);
      LastOrBefore(schedule);
    }
  }

  lemma LastOrBefore(schedule: seq<Side>)
    requires schedule != []
    ensures var prefix, s := schedule[..|schedule| - 1], schedule[|schedule| - 1];
            && (A in schedule <==> A in prefix || s == A) && (B in schedule <==> B in prefix || s == B)
  {
    assert schedule == schedule[..|schedule| - 1] + [schedule[|schedule| - 1]];
  }

  lemma {:induction false} RunConcat(c: Crypto, p: Pair, s: seq<Side>, t: seq<Side>)
    requires |p.a.self| <= 255 && |p.b.self| <= 255
    ensures Run(c, p, s + t) == Run(c, Run(c, p, s), t)
  {
    if t == [] {
      assert s + t == s;
    } else {
      assert (s + t)[..|s + t| - 1] == s + t[..|t| - 1];
      RunConcat(c, p, s, t[..|t| - 1]);
    }
  }

  /** What agreement means. */
  ghost predicate Agreed(c: Crypto, p: Pair) {
    && p.a.status == Ok && p.b.status == Ok
    && p.a.code == p.b.code && p.a.psk == p.b.psk
    && p.a.peerId == p.b.self && p.b.peerId == p.a.self
    && (var s := c.shared(p.a.priv, c.pub(p.b.priv));
        && s.Some?
        && IsCode(c, s.value, p.a.nonce, p.b.nonce, p.a.code)
        && IsPsk(c, s.value, p.a.self, p.b.self, p.a.psk))
  }

  /** Two exchanges that have just started with each other. */
  ghost predicate BothStarted(c: Crypto, a: Exchange, b: Exchange) {
    && a == Started(a.self, a.priv, a.nonce) && b == Started(b.self, b.priv, b.nonce)
    && Honest(c, a) && Honest(c, b) && a.self != b.self
  }

  lemma BeginsOnTrack(c: Crypto, a: Exchange, b: Exchange)
    requires BothStarted(c, a, b) && Linked(c, a, b)
    ensures Reached(c, Begin(c, a, b), 0, false, false)
  {
  }

  /** Two honest peers that have both started never see an error, whatever the interleaving. */
  lemma HonestPeersNeverErr(c: Crypto, a: Exchange, b: Exchange, schedule: seq<Side>)
    requires Lawful(c) && BothStarted(c, a, b)
    ensures var p := Run(c, Begin(c, a, b), schedule); p.a.status != Error && p.b.status != Error
  {
    LawfulLinks(c, a, b);
    BeginsOnTrack(c, a, b);
    RoundAdvances(c, Begin(c, a, b), schedule, 0);
  }

  /** Pairing agreement: two honest peers with distinct ids that have both started reach
      agreement under every interleaving of polls, as soon as each has been polled in two
      successive stretches of the schedule. */
  lemma HonestPeersAgree(c: Crypto, a: Exchange, b: Exchange, first: seq<Side>, second: seq<Side>)
    requires Lawful(c) && BothStarted(c, a, b)
    requires A in first && B in first && A in second && B in second
    ensures Agreed(c, Run(c, Begin(c, a, b), first + second))
  {
    LawfulLinks(c, a, b);
    BeginsOnTrack(c, a, b);
    TwoRounds(c, Begin(c, a, b), first, second);
  }

  lemma TwoRounds(c: Crypto, p: Pair, first: seq<Side>, second: seq<Side>)
    requires Reached(c, p, 0, false, false)
    requires A in first && B in first && A in second && B in second
    ensures Agreed(c, Run(c, p, first + second))
  {
    RoundAdvances(c, p, first, 0);
    var q := Run(c, p, first);
    RoundAdvances(c, q, second, 1);
    RunConcat(c, p, first, second);
    DoneIsAgreed(c, Run(c, q, second));
  }

  lemma DoneIsAgreed(c: Crypto, p: Pair)
    requires Inv(c, p) && Progress(p.a) == 2 && Progress(p.b) == 2
    ensures Agreed(c, p)
  {
    var s := c.shared(p.a.priv, c.pub(p.b.priv)).value;
    CodeSymmetric(c, s, p.a.nonce, p.b.nonce);
    PskSymmetric(c, s, p.a.self, p.b.self);
    CodeIsCode(c, s, p.a.nonce, p.b.nonce);
    PskIsPsk(c, s, p.a.self, p.b.self);
  }

  // ---------------------------------------------------------------- the object as written

  class PairingExchange {
    const self: PeerId
    var started: bool
    var priv: Bytes
    var nonce: Bytes
    var status: Status
    var phase: Phase
    var peerCommit: Bytes
    var peerId: PeerId
    var code: Bytes
    var psk: Bytes

    function View(): Exchange
      reads this
    {
      Exchange(self, priv, nonce, status, phase, peerCommit, peerId, code, psk)
    }

    constructor (self: PeerId)
      ensures !started && this.self == self && View() == Started(self, [], [])
    {
      this.self, started, priv, nonce := self, false, [], [];
      status, phase, peerCommit, peerId, code, psk := NeedMore, AwaitCommit, Zeros(32), [], [], Zeros(32);
    }

    /** `key` is the generated private key if generation succeeds, `random` the generator's
        output, `sendOk` the transport's answer to the commitment `sent`. */
    method Start(c: Crypto, key: Option<Bytes>, random: Bytes, sendOk: bool) returns (ok: bool, sent: Option<Bytes>)
      modifies this`started, this`priv, this`nonce
      ensures old(started) ==> ok && sent == None && started && View() == old(View())
      ensures !old(started) ==>
                (sent.Some? <==> key.Some? && |c.pub(key.value)| == PUB_LEN && 1 <= |self| <= 255
                                 && |random| == NONCE_LEN)
      ensures !old(started) ==> (ok <==> started) && (ok <==> sent.Some? && sendOk)
      ensures sent.Some? ==>
                && View() == old(View()).(priv := key.value, nonce := random)
                && Honest(c, View())
                && sent.value == c.sha(c.pub(key.value) + random + self) == OwnCommit(c, View())
    {
      if started { return true, None; }
      if key.None? { return false, None; }
      priv := key.value;
      var pub := c.pub(priv);
      if |pub| != PUB_LEN || |self| == 0 || |self| > 255 { return false, None; }
      nonce := random;
      if |nonce| != NONCE_LEN { return false, None; }
      var commit := c.sha(pub + nonce + self);
      started := sendOk;
      return started, Some(commit);
    }

    method PollOnce(c: Crypto, input: Input, sendOk: bool) returns (r: Status, sent: Option<Bytes>)
      requires |self| <= 255
      modifies this
      ensures (View(), sent) == Poll(c, old(View()), input, sendOk) && r == status
    {
      sent := None;
      if status != NeedMore || input.Nothing? { return status, None; }
      if input.Broken? {
        status := Error;
        return status, None;
      }
      var buf := if |input.bytes| <= BUFFER then input.bytes else input.bytes[..BUFFER];
      if phase == AwaitCommit {
        if |buf| != COMMIT_LEN {
          status := Error;
          return status, None;
        }
        peerCommit := buf;
        var msg := [|self|] + self + c.pub(priv) + nonce;
        if !sendOk {
          status := Error;
          return status, None;
        }
        phase := AwaitReveal;
        return status, Some(msg);
      }
      CheckReveal(c, buf);
      r := status;
    }

    /** The second round: parse, refuse ourselves, check the commitment, derive. */
    method CheckReveal(c: Crypto, buf: Bytes)
      requires |self| <= 255 && status == NeedMore && phase == AwaitReveal && |buf| <= BUFFER
      modifies this`status, this`peerId, this`code, this`psk
      ensures View() == Poll(c, old(View()), Data(buf), true).0
    {
      var parsed := ParseReveal(buf);
      if parsed.None? {
        status := Error;
        return;
      }
      var r := parsed.value;
      peerId := r.id;
      if peerId == self {
        status := Error;
        return;
      }
      if c.sha(r.pub + r.nonce + peerId) != peerCommit {
        status := Error;
        return;
      }
      var s := c.shared(priv, r.pub);
      if s.None? || |s.value| != SHARED_LEN {
        status := Error;
        return;
      }
      code := VerificationCode(c, s.value, nonce, r.nonce);
      var key := DerivePsk(c, s.value, self, peerId);
      psk := key.value;
      status := Ok;
    }
  }
}
