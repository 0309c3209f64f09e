/** How one machine's protocol drives its ownership register (src/app/mesh_node.cpp): what a
    poll adopts, what a switch does, and what is ever broadcast. */
module MeshRegister {
  import opened ByteStrings
  import opened Ownership
  import opened MeshModel
  import C = Clipboard
  import M = MessageCodec

  // ---------------------------------------------------------------- what a poll adopts

  /** The claim a message carries, if it is a well-formed switch. */
  function ClaimIn(msg: Bytes): seq<Claim> {
    match M.Decode(msg)
    case Var(kind, payload, _) =>
      if kind == M.SWITCH_OWNER && DecodeClaim(payload).Some? then [DecodeClaim(payload).value] else []
    case _ => []
  }

  function ClaimsIn(msgs: seq<Bytes>): seq<Claim>
    decreases msgs
  {
    if msgs == [] then [] else ClaimIn(msgs[0]) + ClaimsIn(msgs[1..])
  }

  /** The claims a poll hears, in the order it reads its peers. */
  function ClaimsHeard(peers: map<PeerId, bool>, order: seq<PeerId>, inbox: PeerId -> seq<Bytes>): seq<Claim>
    decreases order
  {
    if order == [] then []
    else (if order[0] in peers && peers[order[0]] then ClaimsIn(inbox(order[0])) else [])
         + ClaimsHeard(peers, order[1..], inbox)
  }

  function ApplyAll(s: State, cs: seq<Claim>): State
    decreases cs
  {
    if cs == [] then s else ApplyAll(Apply(s, cs[0]), cs[1..])
  }

  lemma {:induction false} ApplyAllConcat(s: State, a: seq<Claim>, b: seq<Claim>)
    ensures ApplyAll(s, a + b) == ApplyAll(ApplyAll(s, a), b)
    decreases a
  {
    if a == [] {
      assert a + b == b;
    } else {
      assert (a + b)[1..] == a[1..] + b;
      ApplyAllConcat(Apply(s, a[0]), a[1..], b);
    }
  }

  lemma HandleRegister(n: Node, from: PeerId, data: Bytes, now: nat)
    ensures var m := Handle(n, from, data, now);
            m.own == ApplyAll(n.own, ClaimIn(data)) && m.peers == n.peers
  {
    var cs := ClaimIn(data);
    if cs != [] { assert cs[1..] == []; }
  }

  lemma {:induction false} HandleAllRegister(n: Node, from: PeerId, msgs: seq<Bytes>, now: nat)
    ensures var m := HandleAll(n, from, msgs, now);
            m.own == ApplyAll(n.own, ClaimsIn(msgs)) && m.peers == n.peers
    decreases msgs
  {
    if msgs != [] {
      HandleRegister(n, from, msgs[0], now);
      HandleAllRegister(Handle(n, from, msgs[0], now), from, msgs[1..], now);
      ApplyAllConcat(n.own, ClaimIn(msgs[0]), ClaimsIn(msgs[1..]));
    }
  }

  lemma {:induction false} ReceiveRegister(n: Node, order: seq<PeerId>, inbox: PeerId -> seq<Bytes>, now: nat)
    ensures Receive(n, order, inbox, now).own == ApplyAll(n.own, ClaimsHeard(n.peers, order, inbox))
    decreases order
  {
    if order != [] {
      var id := order[0];
      if id in n.peers && n.peers[id] {
        HandleAllRegister(n, id, inbox(id), now);
        ReceiveRegister(HandleAll(n, id, inbox(id), now), order[1..], inbox, now);
        ApplyAllConcat(n.own, ClaimsIn(inbox(id)), ClaimsHeard(n.peers, order[1..], inbox));
      } else {
        ReceiveRegister(n, order[1..], inbox, now);
        assert [] + ClaimsHeard(n.peers, order[1..], inbox) == ClaimsHeard(n.peers, order[1..], inbox);
      }
    }
  }

  /** `c` is the newest of what was held and what was heard. */
  ghost predicate Newest(c: Claim, held: Claim, heard: seq<Claim>) {
    && (c == held || c in heard)
    && !Supersedes(held, c)
    && forall k :: 0 <= k < |heard| ==> !Supersedes(heard[k], c)
  }

  lemma {:induction false} ApplyAllIsNewest(s: State, cs: seq<Claim>)
    ensures Newest(ApplyAll(s, cs).current, s.current, cs) && ApplyAll(s, cs).self == s.self
    decreases cs
  {
    LessIrreflexive(s.current.origin);
    if cs != [] {
      var c, t := cs[0], Apply(s, cs[0]);
      LessIrreflexive(c.origin);
      ApplyAllIsNewest(t, cs[1..]);
      var top := ApplyAll(t, cs[1..]).current;
      assert cs == [c] + cs[1..];
      assert !Supersedes(c, t.current) && !Supersedes(s.current, t.current) by { SupersedesTotal(c, s.current); }
      StaysBehind(c, t.current, top);
      StaysBehind(s.current, t.current, top);
    }
  }

  lemma StaysBehind(d: Claim, c: Claim, e: Claim)
    requires !Supersedes(d, c) && !Supersedes(c, e)
    ensures !Supersedes(d, e)
  {
    LessTotal(c.origin, e.origin);
    if Supersedes(e, c) { SupersedesMonotone(d, c, e); }
  }

  /** What a refresh does to the register. */
  lemma RefreshRegister(n: Node, order: seq<PeerId>, now: nat)
    requires forall i, j :: 0 <= i < j < |order| ==> order[i] != order[j]
    ensures Refresh(n, order, now).own ==
            if IsLocalOwner(n) || Alive(n, n.own.current.target, now) then n.own
            else Apply(n.own, NextClaim(n.own, n.self))
  {
    RefreshPeersFacts(n.(elect := [n.self]), order, now);
  }

  /** A poll leaves the register with the newest of what it held and heard, in whatever
      order the peers are read; and only when that names a silent machine does it then take
      control itself, with the next claim of its own. */
  lemma PollRegister(n: Node, order: seq<PeerId>, inbox: PeerId -> seq<Bytes>, now: nat)
    requires Enumerates(order, n.peers.Keys)
    ensures var heard := ClaimsHeard(n.peers, order, inbox);
            var s := ApplyAll(n.own, heard);
            var m := Receive(n.(now := now), order, inbox, now);
            && Newest(s.current, n.own.current, heard)
            && Poll(n, order, inbox, now).own ==
                 if s.current.target == n.self || Alive(m, s.current.target, now) then s
                 else Apply(s, NextClaim(s, n.self))
  {
    var q := n.(now := now);
    ReceiveRegister(q, order, inbox, now);
    ApplyAllIsNewest(n.own, ClaimsHeard(n.peers, order, inbox));
    ReceiveKeepsSelf(q, order, inbox, now);
    RefreshRegister(Receive(q, order, inbox, now), order, now);
  }

  lemma {:induction false} HandleAllKeepsSelf(n: Node, from: PeerId, msgs: seq<Bytes>, now: nat)
    ensures HandleAll(n, from, msgs, now).self == n.self
    decreases msgs
  {
    if msgs != [] { HandleAllKeepsSelf(Handle(n, from, msgs[0], now), from, msgs[1..], now); }
  }

  lemma {:induction false} ReceiveKeepsSelf(n: Node, order: seq<PeerId>, inbox: PeerId -> seq<Bytes>, now: nat)
    ensures Receive(n, order, inbox, now).self == n.self
    decreases order
  {
    if order != [] {
      var id := order[0];
      HandleAllKeepsSelf(n, id, inbox(id), now);
      ReceiveKeepsSelf(if id in n.peers && n.peers[id] then HandleAll(n, id, inbox(id), now) else n,
                       order[1..], inbox, now);
    }
  }

  // ---------------------------------------------------------------- the last clock value

  /** The claims a step hears. */
  function StepHears(n: Node, e: Event): seq<Claim> {
    if e.PollAt? then ClaimsHeard(n.peers, e.order, e.inbox) else []
  }

  /** No claim is stamped above `bound`. */
  ghost predicate UpTo(cs: seq<Claim>, bound: nat) {
    forall c :: c in cs ==> c.sequence <= bound
  }

  ghost predicate NoneSupersedes(cs: seq<Claim>, held: Claim) {
    forall c :: c in cs ==> !Supersedes(c, held)
  }

  lemma {:induction false} ApplyAllClock(s: State, cs: seq<Claim>, bound: nat)
    requires s.clock <= bound && UpTo(cs, bound)
    ensures s.clock <= ApplyAll(s, cs).clock <= bound
    decreases cs
  {
    if cs != [] { ApplyAllClock(Apply(s, cs[0]), cs[1..], bound); }
  }

  lemma ClaimIs64Bit(msg: Bytes)
    ensures UpTo(ClaimIn(msg), U64_MAX)
  {
    if M.Decode(msg).Var? { DecodedSequence(M.Decode(msg).payload); }
  }

  lemma {:induction false} ClaimsAre64Bit(msgs: seq<Bytes>)
    ensures UpTo(ClaimsIn(msgs), U64_MAX)
    decreases msgs
  {
    if msgs != [] {
      ClaimIs64Bit(msgs[0]);
      ClaimsAre64Bit(msgs[1..]);
    }
  }

  lemma {:induction false} HeardAre64Bit(peers: map<PeerId, bool>, order: seq<PeerId>, inbox: PeerId -> seq<Bytes>)
    ensures UpTo(ClaimsHeard(peers, order, inbox), U64_MAX)
    decreases order
  {
    if order != [] {
      ClaimsAre64Bit(inbox(order[0]));
      HeardAre64Bit(peers, order[1..], inbox);
    }
  }

  /** A revert at the last clock value issues a claim stamped 0, which changes nothing. */
  lemma LastClockRevert(s: State, target: PeerId)
    requires s.clock == s.current.sequence == U64_MAX
    ensures Apply(s, NextClaim(s, target)) == s
  {
  }

  /** With the clock at its last value a step changes the register exactly when it hears a
      claim that supersedes the one held: no switch, removal or fail-safe of this machine
      can. */
  lemma LastClockStep(n: Node, e: Event)
    requires Sound(n) && n.own.clock == U64_MAX && Legal(n, e)
    ensures Step(n, e).own == n.own <==>
            NoneSupersedes(StepHears(n, e), n.own.current)
  {
    match e
    case Remove(id, order) =>
      RefreshRegister(Forget(n, id), order, n.now);
      LastClockRevert(n.own, n.self);
    case PollAt(now, order, inbox) => LastClockPoll(n, order, inbox, now);
    case Switch(target) => LastClockRevert(n.own, target);
    case _ =>
  }

  lemma LastClockPoll(n: Node, order: seq<PeerId>, inbox: PeerId -> seq<Bytes>, now: nat)
    requires Sound(n) && n.own.clock == U64_MAX && Enumerates(order, n.peers.Keys)
    ensures var heard := ClaimsHeard(n.peers, order, inbox);
            Poll(n, order, inbox, now).own == n.own <==> NoneSupersedes(heard, n.own.current)
  {
    var heard := ClaimsHeard(n.peers, order, inbox);
    var s := ApplyAll(n.own, heard);
    PollRegister(n, order, inbox, now);
    HeardAre64Bit(n.peers, order, inbox);
    LastClockHears(n.own, heard);
    LastClockRevert(s, n.self);
  }

  lemma LastClockHears(s: State, heard: seq<Claim>)
    requires s.clock == s.current.sequence == U64_MAX && UpTo(heard, U64_MAX)
    ensures var t := ApplyAll(s, heard);
            t.clock == t.current.sequence == U64_MAX && (t == s <==> NoneSupersedes(heard, s.current))
  {
    ApplyAllClock(s, heard, U64_MAX);
    ApplyAllMovesIff(s, heard);
    ApplyAllIsNewest(s, heard);
  }

  /** Claims move a register exactly when one of them supersedes what it holds. */
  lemma ApplyAllMovesIff(s: State, cs: seq<Claim>)
    ensures ApplyAll(s, cs).current == s.current <==> NoneSupersedes(cs, s.current)
  {
    ApplyAllIsNewest(s, cs);
    if NoneSupersedes(cs, s.current) { ApplyAllStays(s, cs); }
  }

  lemma {:induction false} ApplyAllStays(s: State, cs: seq<Claim>)
    requires NoneSupersedes(cs, s.current)
    ensures ApplyAll(s, cs).current == s.current
    decreases cs
  {
    if cs != [] { ApplyAllStays(Apply(s, cs[0]), cs[1..]); }
  }

  lemma FrozenStep(n: Node, e: Event)
    requires Sound(n) && n.own.clock == U64_MAX && Legal(n, e)
    requires NoneSupersedes(StepHears(n, e), n.own.current)
    ensures Sound(Step(n, e)) && Step(n, e).own == n.own
  {
    LastClockStep(n, e);
    StepKeepsSound(n, e);
  }

  /** For good: once the clock has reached its last value, no run of this machine that hears
      no superseding claim ever changes the owner again, however long that owner is silent. */
  lemma {:induction false} LastClockFreezesOwner(n: Node, events: seq<Event>)
    requires Sound(n) && n.own.clock == U64_MAX && LegalRun(n, events)
    requires forall i :: 0 <= i < |events| ==>
               NoneSupersedes(StepHears(Run(n, events[..i]), events[i]), n.own.current)
    ensures Sound(Run(n, events)) && Run(n, events).own == n.own
  {
    if events != [] {
      var last := |events| - 1;
      var prefix := events[..last];
      assert forall i :: 0 <= i < last ==> prefix[..i] == events[..i] && prefix[i] == events[i];
      LastClockFreezesOwner(n, prefix);
      FrozenStep(Run(n, prefix), events[last]);
    }
  }

  /** What suffices beforehand: while the clock held and every stamp heard are below the last
      value, a poll or removal always leaves this machine or a live peer in control. */
  lemma ControlBeforeLastClock(self: PeerId, timeout: nat, interval: nat, events: seq<Event>, e: Event)
    requires LegalRun(NewNode(self, timeout, interval), events + [e]) && (e.Remove? || e.PollAt?)
    requires var n := Run(NewNode(self, timeout, interval), events);
             && n.own.clock < U64_MAX
             && UpTo(StepHears(n, e), U64_MAX - 1)
    ensures InControl(Step(Run(NewNode(self, timeout, interval), events), e))
  {
    var n := Run(NewNode(self, timeout, interval), events);
    LocalControlWins(self, timeout, interval, events, e);
    if e.PollAt? {
      ReceiveRegister(n.(now := e.now), e.order, e.inbox, e.now);
      ApplyAllClock(n.own, StepHears(n, e), U64_MAX - 1);
    }
  }

  // ---------------------------------------------------------------- what a switch does

  predicate Reachable(n: Node, target: PeerId) { target == n.self || Alive(n, target, n.now) }

  /** In every run, a requested switch takes effect locally exactly when the target is
      reachable and the clock is not used up (or it names the owner already); a refused one
      leaves the register alone. */
  lemma SwitchTakesEffect(self: PeerId, timeout: nat, interval: nat, events: seq<Event>, target: PeerId)
    requires LegalRun(NewNode(self, timeout, interval), events)
    ensures var n := Run(NewNode(self, timeout, interval), events);
            var m := RequestSwitch(n, target);
            && (m.own.current.target == target <==>
                  (Reachable(n, target) && n.own.clock < U64_MAX) || n.own.current.target == target)
            && (!Reachable(n, target) ==> m.own == n.own)
  {
    RunKeepsSound(self, timeout, interval, events);
    var n := Run(NewNode(self, timeout, interval), events);
    SwitchWinsLocally(n.own, target);
  }

  // ---------------------------------------------------------------- what is broadcast

  function Broadcasts(trace: seq<Notice>): seq<Bytes> {
    if trace == [] then []
    else Broadcasts(trace[..|trace| - 1])
         + (if trace[|trace| - 1].Broadcast? then [trace[|trace| - 1].msg] else [])
  }

  lemma BroadcastsAfter(trace: seq<Notice>, e: Notice)
    ensures Broadcasts(trace + [e]) == if e.Broadcast? then Broadcasts(trace) + [e.msg] else Broadcasts(trace)
  {
    assert (trace + [e])[..|trace|] == trace;
  }

  /** The trace of `m` is that of `n`, or adds one notice that is not a broadcast. */
  predicate Quiet(n: Node, m: Node) {
    m.trace == n.trace ||
    (m.trace != [] && m.trace[..|m.trace| - 1] == n.trace && !m.trace[|m.trace| - 1].Broadcast?)
  }

  lemma QuietKeepsBroadcasts(n: Node, m: Node)
    requires Quiet(n, m)
    ensures Broadcasts(m.trace) == Broadcasts(n.trace)
  {
  }

  lemma HandleIsQuiet(n: Node, from: PeerId, data: Bytes, now: nat)
    ensures Quiet(n, Handle(n, from, data, now))
  {
  }

  lemma {:induction false} HandleAllIsQuiet(n: Node, from: PeerId, msgs: seq<Bytes>, now: nat)
    ensures Broadcasts(HandleAll(n, from, msgs, now).trace) == Broadcasts(n.trace)
    decreases msgs
  {
    if msgs != [] {
      HandleIsQuiet(n, from, msgs[0], now);
      QuietKeepsBroadcasts(n, Handle(n, from, msgs[0], now));
      HandleAllIsQuiet(Handle(n, from, msgs[0], now), from, msgs[1..], now);
    }
  }

  lemma {:induction false} ReceiveIsQuiet(n: Node, order: seq<PeerId>, inbox: PeerId -> seq<Bytes>, now: nat)
    ensures Broadcasts(Receive(n, order, inbox, now).trace) == Broadcasts(n.trace)
    decreases order
  {
    if order != [] {
      var id := order[0];
      HandleAllIsQuiet(n, id, inbox(id), now);
      ReceiveIsQuiet(if id in n.peers && n.peers[id] then HandleAll(n, id, inbox(id), now) else n,
                     order[1..], inbox, now);
    }
  }

  lemma {:induction false} RefreshPeersIsQuiet(n: Node, order: seq<PeerId>, now: nat)
    ensures Broadcasts(RefreshPeers(n, order, now).trace) == Broadcasts(n.trace)
    decreases order
  {
    if order != [] {
      var m := RefreshPeer(n, order[0], now);
      assert Quiet(n, m);
      QuietKeepsBroadcasts(n, m);
      RefreshPeersIsQuiet(m, order[1..], now);
    }
  }

  lemma RefreshIsQuiet(n: Node, order: seq<PeerId>, now: nat)
    ensures Broadcasts(Refresh(n, order, now).trace) == Broadcasts(n.trace)
  {
    RefreshPeersIsQuiet(n.(elect := [n.self]), order, now);
    var m := RefreshPeers(n.(elect := [n.self]), order, now);
    assert Quiet(m, FailSafe(m, now));
    QuietKeepsBroadcasts(m, FailSafe(m, now));
  }

  /** What a step announces to the mesh. */
  function Announced(n: Node, e: Event): seq<Bytes> {
    match e
    case Switch(target) => if Reachable(n, target) then [SwitchMessage(NextClaim(n.own, target))] else []
    case Beat(now) => if BeatDue(n, now) then [HeartbeatMessage(now)] else []
    case Copied(text) => if C.ShouldBroadcast(n.clip, text) then [ClipboardMessage(text)] else []
    case _ => []
  }

  lemma StepBroadcasts(n: Node, e: Event)
    ensures Broadcasts(Step(n, e).trace) == Broadcasts(n.trace) + Announced(n, e)
  {
    match e
    case Remove(id, order) =>
      QuietKeepsBroadcasts(n, Forget(n, id));
      RefreshIsQuiet(Forget(n, id), order, n.now);
    case PollAt(now, order, inbox) =>
      ReceiveIsQuiet(n.(now := now), order, inbox, now);
      RefreshIsQuiet(Receive(n.(now := now), order, inbox, now), order, now);
    case Switch(target) => SwitchBroadcasts(n, target);
    case Beat(now) => if BeatDue(n, now) { BroadcastsAfter(n.trace, Broadcast(HeartbeatMessage(now))); }
    case Copied(text) => BroadcastsAfter(n.trace, Broadcast(ClipboardMessage(text)));
    case _ =>
  }

  lemma SwitchBroadcasts(n: Node, target: PeerId)
    ensures Broadcasts(RequestSwitch(n, target).trace) == Broadcasts(n.trace) + Announced(n, Switch(target))
  {
    if Reachable(n, target) {
      var c := NextClaim(n.own, target);
      BroadcastsAfter(n.trace, Broadcast(SwitchMessage(c)));
      BroadcastsAfter(n.trace + [Broadcast(SwitchMessage(c))], OwnerChanged(Apply(n.own, c).current.target));
    } else {
      BroadcastsAfter(n.trace, SwitchUnavailable(target));
    }
  }

  /** Everything the steps of a run announced, in order. */
  function AllAnnounced(n: Node, events: seq<Event>): seq<Bytes> {
    if events == [] then []
    else AllAnnounced(n, events[..|events| - 1])
         + Announced(Run(n, events[..|events| - 1]), events[|events| - 1])
  }

  /** In every run the messages broadcast are exactly the claims of the accepted switch
      requests, the due heartbeats and the genuine clipboard changes, one each and in order:
      neither polls, removals nor fail-safe reverts ever broadcast. */
  lemma {:induction false} OnlyRequestsBroadcast(self: PeerId, timeout: nat, interval: nat, events: seq<Event>)
    ensures var n := NewNode(self, timeout, interval);
            Broadcasts(Run(n, events).trace) == AllAnnounced(n, events)
  {
    if events != [] {
      OnlyRequestsBroadcast(self, timeout, interval, events[..|events| - 1]);
      StepBroadcasts(Run(NewNode(self, timeout, interval), events[..|events| - 1]), events[|events| - 1]);
    }
  }
}
