/** One-time connection notices (src/app/mesh_node.cpp:29-40 and 186-203). */
module MeshNotices {
  import opened ByteStrings
  import opened Ownership
  import opened MeshModel
  import C = Clipboard

  /** What the last online/offline notice for `id` said; no notice yet counts as offline. */
  function LastSaid(trace: seq<Notice>, id: PeerId): bool {
    if trace == [] then false
    else match trace[|trace| - 1]
         case PeerOnline(x) => if x == id then true else LastSaid(trace[..|trace| - 1], id)
         case PeerOffline(x) => if x == id then false else LastSaid(trace[..|trace| - 1], id)
         case _ => LastSaid(trace[..|trace| - 1], id)
  }

  /** Every notice for `id` contradicts the one before it, starting with an online one. */
  predicate Alternates(trace: seq<Notice>, id: PeerId) {
    trace == [] ||
    (Alternates(trace[..|trace| - 1], id) &&
     (trace[|trace| - 1] == PeerOnline(id) ==> !LastSaid(trace[..|trace| - 1], id)) &&
     (trace[|trace| - 1] == PeerOffline(id) ==> LastSaid(trace[..|trace| - 1], id)))
  }

  /** The notices so far alternate and agree with the stored liveness. */
  ghost predicate Told(n: Node) {
    forall id :: Alternates(n.trace, id) && LastSaid(n.trace, id) == Stored(n, id)
  }

  lemma EmitFacts(trace: seq<Notice>, e: Notice, id: PeerId)
    ensures LastSaid(trace + [e], id) ==
            (if e == PeerOnline(id) then true else if e == PeerOffline(id) then false else LastSaid(trace, id))
    ensures Alternates(trace + [e], id) <==>
            Alternates(trace, id) && (e == PeerOnline(id) ==> !LastSaid(trace, id))
                                  && (e == PeerOffline(id) ==> LastSaid(trace, id))
  {
    assert (trace + [e])[..|trace|] == trace;
  }

  /** A notice of another kind says nothing about liveness. */
  lemma OtherNotice(n: Node, m: Node, e: Notice)
    requires Told(n) && !e.PeerOnline? && !e.PeerOffline?
    requires m.trace == n.trace + [e] && m.online == n.online
    ensures Told(m)
  {
    forall id
      ensures Alternates(m.trace, id) && LastSaid(m.trace, id) == Stored(m, id)
    {
      EmitFacts(n.trace, e, id);
      assert Alternates(n.trace, id) && LastSaid(n.trace, id) == Stored(n, id);
    }
  }

  lemma RefreshPeerTells(n: Node, id: PeerId, now: nat)
    requires Told(n)
    ensures Told(RefreshPeer(n, id, now))
  {
    var m := RefreshPeer(n, id, now);
    if Alive(n, id, now) != Stored(n, id) {
      var e := if Alive(n, id, now) then PeerOnline(id) else PeerOffline(id);
      forall x
        ensures Alternates(m.trace, x) && LastSaid(m.trace, x) == Stored(m, x)
      {
        EmitFacts(n.trace, e, x);
        assert Alternates(n.trace, x) && LastSaid(n.trace, x) == Stored(n, x);
      }
    } else {
      SameTelling(n, m);
    }
  }

  lemma SameTelling(n: Node, m: Node)
    requires Told(n) && m.trace == n.trace && m.online == n.online
    ensures Told(m)
  {
    forall id
      ensures Alternates(m.trace, id) && LastSaid(m.trace, id) == Stored(m, id)
    {
      assert Alternates(n.trace, id) && LastSaid(n.trace, id) == Stored(n, id);
    }
  }

  lemma {:induction false} RefreshPeersTell(n: Node, order: seq<PeerId>, now: nat)
    requires Told(n)
    ensures Told(RefreshPeers(n, order, now))
    decreases order
  {
    if order != [] {
      RefreshPeerTells(n, order[0], now);
      RefreshPeersTell(RefreshPeer(n, order[0], now), order[1..], now);
    }
  }

  lemma RefreshTells(n: Node, order: seq<PeerId>, now: nat)
    requires Told(n)
    ensures Told(Refresh(n, order, now))
  {
    SameTelling(n, n.(elect := [n.self]));
    RefreshPeersTell(n.(elect := [n.self]), order, now);
    var m := RefreshPeers(n.(elect := [n.self]), order, now);
    if FailSafe(m, now) != m { OtherNotice(m, FailSafe(m, now), OwnerChanged(m.self)); }
  }

  /** A removed peer that was online is reported offline once, then forgotten. */
  lemma ForgetTells(n: Node, id: PeerId)
    requires Told(n)
    ensures Told(Forget(n, id)) && !Stored(Forget(n, id), id)
  {
    var m := Forget(n, id);
    forall x
      ensures Alternates(m.trace, x) && LastSaid(m.trace, x) == Stored(m, x)
    {
      EmitFacts(n.trace, PeerOffline(id), x);
      assert Alternates(n.trace, x) && LastSaid(n.trace, x) == Stored(n, x);
    }
  }

  /** Receiving never touches the stored liveness and emits no liveness notice. */
  lemma HandleTells(n: Node, from: PeerId, data: Bytes, now: nat)
    requires Told(n)
    ensures Told(Handle(n, from, data, now))
  {
    var m := Handle(n, from, data, now);
    assert m.online == n.online;
    if m.trace == n.trace {
      SameTelling(n, m);
    } else {
      OtherNotice(n, m, m.trace[|m.trace| - 1]);
    }
  }

  lemma {:induction false} HandleAllTells(n: Node, from: PeerId, msgs: seq<Bytes>, now: nat)
    requires Told(n)
    ensures Told(HandleAll(n, from, msgs, now))
    decreases msgs
  {
    if msgs != [] {
      HandleTells(n, from, msgs[0], now);
      HandleAllTells(Handle(n, from, msgs[0], now), from, msgs[1..], now);
    }
  }

  lemma {:induction false} ReceiveTells(n: Node, order: seq<PeerId>, inbox: PeerId -> seq<Bytes>, now: nat)
    requires Told(n)
    ensures Told(Receive(n, order, inbox, now))
    decreases order
  {
    if order != [] {
      var id := order[0];
      if id in n.peers && n.peers[id] {
        HandleAllTells(n, id, inbox(id), now);
        ReceiveTells(HandleAll(n, id, inbox(id), now), order[1..], inbox, now);
      } else {
        ReceiveTells(n, order[1..], inbox, now);
      }
    }
  }

  lemma SwitchTells(n: Node, target: PeerId)
    requires Told(n)
    ensures Told(RequestSwitch(n, target))
  {
    var m := RequestSwitch(n, target);
    if target != n.self && !Alive(n, target, n.now) {
      OtherNotice(n, m, SwitchUnavailable(target));
    } else {
      var c := NextClaim(n.own, target);
      var s := Emit(n.(own := Apply(n.own, c)), Broadcast(SwitchMessage(c)));
      OtherNotice(n, s, Broadcast(SwitchMessage(c)));
      if m != s { OtherNotice(s, m, OwnerChanged(m.own.current.target)); }
    }
  }

  lemma StepTells(n: Node, e: Event)
    requires Told(n)
    ensures Told(Step(n, e))
  {
    match e
    case Add(id, link) => SameTelling(n, AddPeer(n, id, link));
    case Remove(id, order) =>
      ForgetTells(n, id);
      RefreshTells(Forget(n, id), order, n.now);
    case Prioritize(p) => SameTelling(n, n.(priority := p));
    case Switch(target) =>
      SwitchTells(n, target);
    case Beat(now) =>
      var m := SendHeartbeats(n, now);
      if BeatDue(n, now) { OtherNotice(n, m, Broadcast(HeartbeatMessage(now))); } else { SameTelling(n, m); }
    case Copied(text) =>
      var m := LocalClipboard(n, text);
      if C.ShouldBroadcast(n.clip, text) {
        OtherNotice(n, m, Broadcast(ClipboardMessage(text)));
      } else {
        SameTelling(n, m);
      }
    case PollAt(now, order, inbox) =>
      SameTelling(n, n.(now := now));
      ReceiveTells(n.(now := now), order, inbox, now);
      RefreshTells(Receive(n.(now := now), order, inbox, now), order, now);
  }

  /** In every run, whatever the clock does and in whatever order peers are visited, the
      online and offline notices of each peer strictly alternate starting with online, and
      the last one agrees with the stored liveness. */
  lemma {:induction false} NoticesAlternate(self: PeerId, timeout: nat, interval: nat, events: seq<Event>)
    ensures Told(Run(NewNode(self, timeout, interval), events))
  {
    if events != [] {
      NoticesAlternate(self, timeout, interval, events[..|events| - 1]);
      StepTells(Run(NewNode(self, timeout, interval), events[..|events| - 1]), events[|events| - 1]);
    }
  }

  /** After a poll the last notice of every registered peer is also the truth: the peer is
      said to be online exactly when it was heard from within the timeout. */
  lemma NoticesAreCurrent(self: PeerId, timeout: nat, interval: nat, events: seq<Event>, e: Event, id: PeerId)
    requires LegalRun(NewNode(self, timeout, interval), events + [e]) && (e.Remove? || e.PollAt?)
    ensures var r := Step(Run(NewNode(self, timeout, interval), events), e);
            id in r.peers ==>
              (LastSaid(r.trace, id) <==> Alive(r, id, r.now))
              && (Alive(r, id, r.now) <==> id in r.last && r.last[id] <= r.now && r.now - r.last[id] < r.timeout)
  {
    var n := Run(NewNode(self, timeout, interval), events);
    assert (events + [e])[..|events|] == events;
    RunKeepsSound(self, timeout, interval, events);
    NoticesAlternate(self, timeout, interval, events + [e]);
    var r := Step(n, e);
    assert Run(NewNode(self, timeout, interval), events + [e]) == r;
    match e {
      case Remove(x, order) =>
        assert Sound(Forget(n, x));
        RefreshStores(Forget(n, x), order);
      case PollAt(now, order, inbox) =>
        assert Sound(n.(now := now));
        ReceiveKeepsSound(n.(now := now), order, inbox);
        RefreshStores(Receive(n.(now := now), order, inbox, now), order);
      case _ =>
    }
    assert LastSaid(r.trace, id) == Stored(r, id);
    StepKeepsSound(n, e);
  }
}
