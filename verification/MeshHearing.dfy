/** What a mesh node makes of the messages it hears (src/app/mesh_node.cpp:106-184), told from
    the messages alone: which input it injects, which clipboard updates it hands on, whom it
    warns about, and who counts as alive. */
module MeshHearing {
  import opened ByteStrings
  import opened Ownership
  import opened MeshModel
  import opened MeshRegister
  import C = Clipboard
  import M = MessageCodec

  // ---------------------------------------------------------------- a poll as one stream

  datatype Heard = Heard(from: PeerId, msg: Bytes)

  function From(id: PeerId, msgs: seq<Bytes>): (hs: seq<Heard>)
    ensures |hs| == |msgs| && forall i :: 0 <= i < |hs| ==> hs[i] == Heard(id, msgs[i])
  {
    seq(|msgs|, i requires 0 <= i < |msgs| => Heard(id, msgs[i]))
  }

  /** Everything a poll hears, in order. */
  function HeardIn(peers: map<PeerId, bool>, order: seq<PeerId>, inbox: PeerId -> seq<Bytes>): seq<Heard>
    decreases order
  {
    if order == [] then []
    else (if order[0] in peers && peers[order[0]] then From(order[0], inbox(order[0])) else [])
         + HeardIn(peers, order[1..], inbox)
  }

  function HearAll(n: Node, hs: seq<Heard>, now: nat): Node {
    if hs == [] then n
    else Handle(HearAll(n, hs[..|hs| - 1], now), hs[|hs| - 1].from, hs[|hs| - 1].msg, now)
  }

  lemma {:induction false} HearAllConcat(n: Node, a: seq<Heard>, b: seq<Heard>, now: nat)
    ensures HearAll(n, a + b, now) == HearAll(HearAll(n, a, now), b, now)
  {
    if b == [] {
      assert a + b == a;
    } else {
      assert (a + b)[..|a + b| - 1] == a + b[..|b| - 1];
      HearAllConcat(n, a, b[..|b| - 1], now);
    }
  }

  lemma HearOne(n: Node, h: Heard, now: nat)
    ensures HearAll(n, [h], now) == Handle(n, h.from, h.msg, now)
  {
    assert [h][..0] == [];
    assert HearAll(n, [], now) == n;
  }

  lemma {:induction false} HandleAllIsHearAll(n: Node, id: PeerId, msgs: seq<Bytes>, now: nat)
    ensures HandleAll(n, id, msgs, now) == HearAll(n, From(id, msgs), now)
    decreases msgs
  {
    if msgs != [] {
      HandleAllIsHearAll(Handle(n, id, msgs[0], now), id, msgs[1..], now);
      assert From(id, msgs) == [Heard(id, msgs[0])] + From(id, msgs[1..]);
      HearAllConcat(n, [Heard(id, msgs[0])], From(id, msgs[1..]), now);
      HearOne(n, Heard(id, msgs[0]), now);
    }
  }

  lemma {:induction false} HearAllPeers(n: Node, hs: seq<Heard>, now: nat)
    ensures var m := HearAll(n, hs, now); m.peers == n.peers && m.self == n.self
  {
    if hs != [] { HearAllPeers(n, hs[..|hs| - 1], now); }
  }

  /** The nested loops of a poll are one pass over what it hears. */
  lemma {:induction false} ReceiveIsHearAll(n: Node, order: seq<PeerId>, inbox: PeerId -> seq<Bytes>, now: nat)
    ensures Receive(n, order, inbox, now) == HearAll(n, HeardIn(n.peers, order, inbox), now)
    decreases order
  {
    if order != [] {
      var id := order[0];
      var rest := HeardIn(n.peers, order[1..], inbox);
      if id in n.peers && n.peers[id] {
        var m := HandleAll(n, id, inbox(id), now);
        HandleAllIsHearAll(n, id, inbox(id), now);
        HearAllPeers(n, From(id, inbox(id)), now);
        ReceiveIsHearAll(m, order[1..], inbox, now);
        HearAllConcat(n, From(id, inbox(id)), rest, now);
      } else {
        ReceiveIsHearAll(n, order[1..], inbox, now);
        assert [] + rest == rest;
      }
    }
  }

  // ---------------------------------------------------------------- what each message says

  function ClaimsOf(hs: seq<Heard>): seq<Claim> {
    if hs == [] then [] else ClaimsOf(hs[..|hs| - 1]) + ClaimIn(hs[|hs| - 1].msg)
  }

  predicate IsInput(kind: byte) { kind == M.MOUSE_MOVE || kind == M.MOUSE_BUTTON || kind == M.KEY_EVENT }

  /** The mouse and key events heard while the register, after the claims heard before them,
      named another machine. */
  function InputsFor(self: PeerId, s: State, hs: seq<Heard>): seq<M.InputEvent> {
    if hs == [] then []
    else
      var before, msg := hs[..|hs| - 1], hs[|hs| - 1].msg;
      InputsFor(self, s, before)
      + (if M.Decode(msg).Fixed? && IsInput(M.Decode(msg).event.kind)
            && ApplyAll(s, ClaimsOf(before)).current.target != self
         then [M.Decode(msg).event] else [])
  }

  predicate IsUpdate(msg: Bytes) { M.Decode(msg).Var? && M.Decode(msg).kind == M.CLIPBOARD_UPDATE }

  /** The texts of the clipboard updates heard. */
  function Updates(hs: seq<Heard>): seq<Bytes> {
    if hs == [] then []
    else Updates(hs[..|hs| - 1])
         + (if IsUpdate(hs[|hs| - 1].msg) then [M.Decode(hs[|hs| - 1].msg).payload] else [])
  }

  predicate Foreign(h: Heard) { M.Decode(h.msg).VersionMismatch? }

  /** Who has sent a message of another protocol version. */
  function Mismatched(hs: seq<Heard>): set<PeerId> {
    if hs == [] then {}
    else Mismatched(hs[..|hs| - 1]) + (if Foreign(hs[|hs| - 1]) then {hs[|hs| - 1].from} else {})
  }

  /** The peers to warn about: each at its first such message, unless warned about already. */
  function Warnings(warned: set<PeerId>, hs: seq<Heard>): seq<PeerId> {
    if hs == [] then []
    else
      var before, h := hs[..|hs| - 1], hs[|hs| - 1];
      Warnings(warned, before)
      + (if Foreign(h) && h.from !in warned + Mismatched(before) then [h.from] else [])
  }

  // ---------------------------------------------------------------- what the trace says

  function Injected(trace: seq<Notice>): seq<M.InputEvent> {
    if trace == [] then []
    else Injected(trace[..|trace| - 1])
         + (if trace[|trace| - 1].Inject? then [trace[|trace| - 1].event] else [])
  }

  function HandedOn(trace: seq<Notice>): seq<Bytes> {
    if trace == [] then []
    else HandedOn(trace[..|trace| - 1])
         + (if trace[|trace| - 1].RemoteClipboard? then [trace[|trace| - 1].text] else [])
  }

  function WarnedOf(trace: seq<Notice>): seq<PeerId> {
    if trace == [] then []
    else WarnedOf(trace[..|trace| - 1])
         + (if trace[|trace| - 1].VersionWarning? then [trace[|trace| - 1].id] else [])
  }

  function Refused(trace: seq<Notice>): seq<PeerId> {
    if trace == [] then []
    else Refused(trace[..|trace| - 1])
         + (if trace[|trace| - 1].SwitchUnavailable? then [trace[|trace| - 1].id] else [])
  }

  /** What a reader of the trace sees of these four kinds. */
  datatype Saying = Saying(injected: seq<M.InputEvent>, handedOn: seq<Bytes>, warned: seq<PeerId>,
                           refused: seq<PeerId>)

  function Says(trace: seq<Notice>): Saying {
    Saying(Injected(trace), HandedOn(trace), WarnedOf(trace), Refused(trace))
  }

  lemma SaysAfter(trace: seq<Notice>, e: Notice)
    ensures Says(trace + [e]) ==
            Saying(Injected(trace) + (if e.Inject? then [e.event] else []),
                   HandedOn(trace) + (if e.RemoteClipboard? then [e.text] else []),
                   WarnedOf(trace) + (if e.VersionWarning? then [e.id] else []),
                   Refused(trace) + (if e.SwitchUnavailable? then [e.id] else []))
  {
    assert (trace + [e])[..|trace|] == trace;
  }

  predicate Telling(e: Notice) { e.Inject? || e.RemoteClipboard? || e.VersionWarning? || e.SwitchUnavailable? }

  lemma SaysNothing(trace: seq<Notice>, e: Notice)
    requires !Telling(e)
    ensures Says(trace + [e]) == Says(trace)
  {
    SaysAfter(trace, e);
  }

  lemma {:induction false} RefreshPeersSaysNothing(n: Node, order: seq<PeerId>, now: nat)
    ensures Says(RefreshPeers(n, order, now).trace) == Says(n.trace)
    ensures RefreshPeers(n, order, now).clip == n.clip && RefreshPeers(n, order, now).warned == n.warned
    ensures RefreshPeers(n, order, now).last == n.last
    decreases order
  {
    if order != [] {
      var id := order[0];
      SaysNothing(n.trace, if Alive(n, id, now) then PeerOnline(id) else PeerOffline(id));
      RefreshPeersSaysNothing(RefreshPeer(n, id, now), order[1..], now);
    }
  }

  lemma RefreshSaysNothing(n: Node, order: seq<PeerId>, now: nat)
    ensures var r := Refresh(n, order, now);
            Says(r.trace) == Says(n.trace) && r.clip == n.clip && r.warned == n.warned && r.last == n.last
  {
    RefreshPeersSaysNothing(n.(elect := [n.self]), order, now);
    var m := RefreshPeers(n.(elect := [n.self]), order, now);
    SaysNothing(m.trace, OwnerChanged(m.self));
  }

  // ---------------------------------------------------------------- one message

  /** What one message adds, from the register and the warnings before it. */
  function MessageSays(self: PeerId, s: State, warned: set<PeerId>, h: Heard): Saying {
    var d := M.Decode(h.msg);
    Saying(if d.Fixed? && IsInput(d.event.kind) && s.current.target != self then [d.event] else [],
           if IsUpdate(h.msg) then [d.payload] else [],
           if Foreign(h) && h.from !in warned then [h.from] else [],
           [])
  }

  function Plus(a: Saying, b: Saying): Saying {
    Saying(a.injected + b.injected, a.handedOn + b.handedOn, a.warned + b.warned, a.refused + b.refused)
  }

  lemma HandleTrace(n: Node, h: Heard, now: nat)
    ensures var m, d := Handle(n, h.from, h.msg, now), M.Decode(h.msg);
            m.trace ==
              if d.VersionMismatch? then
                if h.from in n.warned then n.trace else n.trace + [VersionWarning(h.from)]
              else if d.Fixed? then
                if IsInput(d.event.kind) && n.own.current.target != n.self then n.trace + [Inject(d.event)] else n.trace
              else if IsUpdate(h.msg) then n.trace + [RemoteClipboard(d.payload)]
              else if m.own.current.target != n.own.current.target then n.trace + [OwnerChanged(m.own.current.target)]
              else n.trace
  {
    FixedKinds(h.msg);
  }

  lemma FixedKinds(msg: Bytes)
    ensures M.Decode(msg).Fixed? ==> (M.Decode(msg).event.kind == M.HEARTBEAT <==> !IsInput(M.Decode(msg).event.kind))
  {
  }

  lemma HandleSays(n: Node, h: Heard, now: nat)
    ensures Says(Handle(n, h.from, h.msg, now).trace)
         == Plus(Says(n.trace), MessageSays(n.self, n.own, n.warned, h))
  {
    HandleTrace(n, h, now);
    var m, d := Handle(n, h.from, h.msg, now), M.Decode(h.msg);
    if m.trace == n.trace {
      assert Plus(Says(n.trace), Saying([], [], [], [])) == Says(n.trace);
    } else {
      SaysAfter(n.trace, m.trace[|n.trace|]);
    }
  }

  lemma HandleState(n: Node, h: Heard, now: nat)
    ensures var m := Handle(n, h.from, h.msg, now);
            && m.warned == n.warned + (if Foreign(h) then {h.from} else {})
            && m.clip == (if IsUpdate(h.msg) then C.Sync(true, C.Hash(M.Decode(h.msg).payload)) else n.clip)
            && m.last == n.last[h.from := now]
            && m.self == n.self
  {
    HandleWarns(n, h, now);
    HandleClips(n, h, now);
  }

  lemma HandleWarns(n: Node, h: Heard, now: nat)
    ensures Handle(n, h.from, h.msg, now).warned == n.warned + (if Foreign(h) then {h.from} else {})
  {
  }

  lemma HandleClips(n: Node, h: Heard, now: nat)
    ensures Handle(n, h.from, h.msg, now).clip
         == if IsUpdate(h.msg) then C.Sync(true, C.Hash(M.Decode(h.msg).payload)) else n.clip
  {
  }

  // ---------------------------------------------------------------- everything heard

  lemma {:induction false} HearRegister(n: Node, hs: seq<Heard>, now: nat)
    ensures HearAll(n, hs, now).own == ApplyAll(n.own, ClaimsOf(hs))
  {
    if hs != [] {
      var before, h := hs[..|hs| - 1], hs[|hs| - 1];
      HearRegister(n, before, now);
      HandleRegister(HearAll(n, before, now), h.from, h.msg, now);
      ApplyAllConcat(n.own, ClaimsOf(before), ClaimIn(h.msg));
    }
  }

  lemma {:induction false} HearState(n: Node, hs: seq<Heard>, now: nat)
    ensures var m := HearAll(n, hs, now);
            && m.self == n.self && m.warned == n.warned + Mismatched(hs)
            && m.clip == (if Updates(hs) == [] then n.clip
                          else C.Sync(true, C.Hash(Updates(hs)[|Updates(hs)| - 1])))
  {
    if hs != [] {
      var before, h := hs[..|hs| - 1], hs[|hs| - 1];
      HearState(n, before, now);
      HandleState(HearAll(n, before, now), h, now);
      assert n.warned + Mismatched(before) + (if Foreign(h) then {h.from} else {}) == n.warned + Mismatched(hs);
    }
  }

  function HeardSays(self: PeerId, s: State, warned: set<PeerId>, hs: seq<Heard>): Saying {
    Saying(InputsFor(self, s, hs), Updates(hs), Warnings(warned, hs), [])
  }

  lemma {:induction false} HearSays(n: Node, hs: seq<Heard>, now: nat)
    ensures Says(HearAll(n, hs, now).trace) == Plus(Says(n.trace), HeardSays(n.self, n.own, n.warned, hs))
  {
    if hs == [] {
      PlusNothing(Says(n.trace));
    } else {
      var before, h := hs[..|hs| - 1], hs[|hs| - 1];
      var m := HearAll(n, before, now);
      HearSays(n, before, now);
      HearRegister(n, before, now);
      HearState(n, before, now);
      HandleSays(m, h, now);
      PlusAssociates(Says(n.trace), HeardSays(n.self, n.own, n.warned, before),
                     MessageSays(m.self, m.own, m.warned, h));
      OneMore(n.self, n.own, n.warned, hs, m.own, m.warned);
    }
  }

  lemma OneMore(self: PeerId, s: State, warned: set<PeerId>, hs: seq<Heard>, now: State, nowWarned: set<PeerId>)
    requires hs != [] && now == ApplyAll(s, ClaimsOf(hs[..|hs| - 1]))
    requires nowWarned == warned + Mismatched(hs[..|hs| - 1])
    ensures HeardSays(self, s, warned, hs)
         == Plus(HeardSays(self, s, warned, hs[..|hs| - 1]), MessageSays(self, now, nowWarned, hs[|hs| - 1]))
  {
  }

  lemma PlusNothing(a: Saying)
    ensures Plus(a, Saying([], [], [], [])) == a
  {
  }

  lemma PlusAssociates(a: Saying, b: Saying, c: Saying)
    ensures Plus(Plus(a, b), c) == Plus(a, Plus(b, c))
  {
  }

  // ---------------------------------------------------------------- every step, every run

  /** What a step adds to the four kinds of notices. */
  function StepSays(n: Node, e: Event): Saying {
    match e
    case PollAt(_, order, inbox) => HeardSays(n.self, n.own, n.warned, HeardIn(n.peers, order, inbox))
    case Switch(target) => Saying([], [], [], if Reachable(n, target) then [] else [target])
    case _ => Saying([], [], [], [])
  }

  lemma PollSays(n: Node, order: seq<PeerId>, inbox: PeerId -> seq<Bytes>, now: nat)
    ensures var r, hs := Poll(n, order, inbox, now), HeardIn(n.peers, order, inbox);
            && Says(r.trace) == Plus(Says(n.trace), HeardSays(n.self, n.own, n.warned, hs))
            && r.warned == n.warned + Mismatched(hs)
            && r.clip == (if Updates(hs) == [] then n.clip
                          else C.Sync(true, C.Hash(Updates(hs)[|Updates(hs)| - 1])))
  {
    var q, hs := n.(now := now), HeardIn(n.peers, order, inbox);
    ReceiveIsHearAll(q, order, inbox, now);
    HearSays(q, hs, now);
    HearState(q, hs, now);
    RefreshSaysNothing(Receive(q, order, inbox, now), order, now);
  }

  lemma RunStepSays(n: Node, e: Event)
    ensures Says(Step(n, e).trace) == Plus(Says(n.trace), StepSays(n, e))
  {
    match e
    case PollAt(now, order, inbox) => PollSays(n, order, inbox, now);
    case Switch(target) => SwitchSays(n, target);
    case _ =>
      PlusNothing(Says(n.trace));
      OtherStepsSayNothing(n, e);
  }

  lemma OtherStepsSayNothing(n: Node, e: Event)
    requires !e.PollAt? && !e.Switch?
    ensures Says(Step(n, e).trace) == Says(n.trace)
  {
    match e
    case Remove(id, order) =>
      SaysNothing(n.trace, PeerOffline(id));
      RefreshSaysNothing(Forget(n, id), order, n.now);
    case Beat(now) => SaysNothing(n.trace, Broadcast(HeartbeatMessage(now)));
    case Copied(text) => SaysNothing(n.trace, Broadcast(ClipboardMessage(text)));
    case _ =>
  }

  lemma SwitchSays(n: Node, target: PeerId)
    ensures Says(RequestSwitch(n, target).trace) == Plus(Says(n.trace), StepSays(n, Switch(target)))
  {
    PlusNothing(Says(n.trace));
    if Reachable(n, target) {
      var c := NextClaim(n.own, target);
      SaysNothing(n.trace, Broadcast(SwitchMessage(c)));
      SaysNothing(n.trace + [Broadcast(SwitchMessage(c))], OwnerChanged(Apply(n.own, c).current.target));
    } else {
      SaysAfter(n.trace, SwitchUnavailable(target));
    }
  }

  function AllSaid(n: Node, events: seq<Event>): Saying {
    if events == [] then Saying([], [], [], [])
    else Plus(AllSaid(n, events[..|events| - 1]), StepSays(Run(n, events[..|events| - 1]), events[|events| - 1]))
  }

  /** In every run: the events injected are, in order, exactly the mouse and key events heard
      while the register, after the claims heard before them, named another machine; the texts
      handed on are exactly the clipboard updates heard; a peer is warned about at its first
      message of another version since it was last removed; and exactly the switches to
      unreachable machines are refused. */
  lemma {:induction false} RunSays(self: PeerId, timeout: nat, interval: nat, events: seq<Event>)
    ensures Says(Run(NewNode(self, timeout, interval), events).trace)
         == AllSaid(NewNode(self, timeout, interval), events)
  {
    if events != [] {
      RunSays(self, timeout, interval, events[..|events| - 1]);
      RunStepSays(Run(NewNode(self, timeout, interval), events[..|events| - 1]), events[|events| - 1]);
    }
  }

  /** After a poll that heard clipboard updates, the echo of the last one is not broadcast. */
  lemma EchoIsSuppressed(n: Node, order: seq<PeerId>, inbox: PeerId -> seq<Bytes>, now: nat)
    requires Updates(HeardIn(n.peers, order, inbox)) != []
    ensures var us := Updates(HeardIn(n.peers, order, inbox));
            var r := Poll(n, order, inbox, now);
            var s := Step(r, Copied(us[|us| - 1]));
            s.trace == r.trace && !s.clip.hasPending
  {
    PollSays(n, order, inbox, now);
    var us := Updates(HeardIn(n.peers, order, inbox));
    SuppressedOnce(Poll(n, order, inbox, now), us[|us| - 1]);
  }

  lemma SuppressedOnce(n: Node, text: Bytes)
    requires n.clip == C.Sync(true, C.Hash(text))
    ensures var m := LocalClipboard(n, text); m.trace == n.trace && !m.clip.hasPending
  {
  }

  /** Whom a run has warned about since their last removal. */
  function WarnedSince(n: Node, events: seq<Event>): set<PeerId> {
    if events == [] then {}
    else
      var before, e := events[..|events| - 1], events[|events| - 1];
      match e
      case Remove(id, _) => WarnedSince(n, before) - {id}
      case PollAt(_, order, inbox) => WarnedSince(n, before) + Mismatched(HeardIn(Run(n, before).peers, order, inbox))
      case _ => WarnedSince(n, before)
  }

  lemma {:induction false} WarnedIsSince(self: PeerId, timeout: nat, interval: nat, events: seq<Event>)
    ensures var n := NewNode(self, timeout, interval); Run(n, events).warned == WarnedSince(n, events)
  {
    if events != [] {
      var before, e := events[..|events| - 1], events[|events| - 1];
      WarnedIsSince(self, timeout, interval, before);
      var m := Run(NewNode(self, timeout, interval), before);
      match e
      case Remove(id, order) => RefreshSaysNothing(Forget(m, id), order, m.now);
      case PollAt(now, order, inbox) => PollSays(m, order, inbox, now);
      case _ =>
    }
  }

  // ---------------------------------------------------------------- who is alive

  /** A poll hears from `id`: it is registered with a link, and something arrived. */
  predicate HearsFrom(peers: map<PeerId, bool>, inbox: PeerId -> seq<Bytes>, id: PeerId) {
    id in peers && peers[id] && inbox(id) != []
  }

  /** When a run last heard from `id`, unless it has been removed since. */
  function LastHeard(n: Node, events: seq<Event>, id: PeerId): Option<nat> {
    if events == [] then None
    else
      var before, e := events[..|events| - 1], events[|events| - 1];
      match e
      case Remove(x, _) => if x == id then None else LastHeard(n, before, id)
      case PollAt(now, _, inbox) =>
        if HearsFrom(Run(n, before).peers, inbox, id) then Some(now) else LastHeard(n, before, id)
      case _ => LastHeard(n, before, id)
  }

  ghost predicate Sends(hs: seq<Heard>, id: PeerId) {
    exists i :: 0 <= i < |hs| && hs[i].from == id
  }

  lemma {:induction false} HearLast(n: Node, hs: seq<Heard>, now: nat, id: PeerId)
    ensures var m := HearAll(n, hs, now);
            if Sends(hs, id) then id in m.last && m.last[id] == now
            else (id in m.last <==> id in n.last) && (id in n.last ==> m.last[id] == n.last[id])
  {
    if hs != [] {
      var before, h := hs[..|hs| - 1], hs[|hs| - 1];
      HearLast(n, before, now, id);
      HandleState(HearAll(n, before, now), h, now);
      assert forall i :: 0 <= i < |before| ==> before[i] == hs[i];
      if h.from == id { assert hs[|hs| - 1].from == id; }
    }
  }

  lemma {:induction false} HeardFrom(peers: map<PeerId, bool>, order: seq<PeerId>, inbox: PeerId -> seq<Bytes>,
                                     id: PeerId)
    ensures var hs := HeardIn(peers, order, inbox);
            Sends(hs, id) <==> id in order && HearsFrom(peers, inbox, id)
    decreases order
  {
    if order != [] {
      var x := order[0];
      var here := if x in peers && peers[x] then From(x, inbox(x)) else [];
      var rest := HeardIn(peers, order[1..], inbox);
      HeardFrom(peers, order[1..], inbox, id);
      SendersOfBoth(here, rest, id);
      SenderOf(x, inbox(x), id);
      assert HeardIn(peers, order, inbox) == here + rest;
      assert id in order <==> id == x || id in order[1..];
    }
  }

  lemma SenderOf(x: PeerId, msgs: seq<Bytes>, id: PeerId)
    ensures Sends(From(x, msgs), id) <==> x == id && msgs != []
  {
    if msgs != [] { assert From(x, msgs)[0].from == x; }
  }

  lemma SendersOfBoth(a: seq<Heard>, b: seq<Heard>, id: PeerId)
    ensures Sends(a + b, id) <==> Sends(a, id) || Sends(b, id)
  {
    if i :| 0 <= i < |a + b| && (a + b)[i].from == id {
      if i < |a| { assert a[i].from == id; } else { assert b[i - |a|].from == id; }
    }
    if i :| 0 <= i < |a| && a[i].from == id { assert (a + b)[i].from == id; }
    if i :| 0 <= i < |b| && b[i].from == id { assert (a + b)[|a| + i].from == id; }
  }

  /** The liveness table as an option. */
  function Seen(n: Node, id: PeerId): Option<nat> { if id in n.last then Some(n.last[id]) else None }

  lemma PollSees(n: Node, order: seq<PeerId>, inbox: PeerId -> seq<Bytes>, now: nat, id: PeerId)
    requires Enumerates(order, n.peers.Keys)
    ensures Seen(Poll(n, order, inbox, now), id)
         == if HearsFrom(n.peers, inbox, id) then Some(now) else Seen(n, id)
  {
    var q, hs := n.(now := now), HeardIn(n.peers, order, inbox);
    ReceiveIsHearAll(q, order, inbox, now);
    HearLast(q, hs, now, id);
    HeardFrom(n.peers, order, inbox, id);
    RefreshSaysNothing(Receive(q, order, inbox, now), order, now);
  }

  /** Any message proves its sender alive, and nothing else does: in every run the liveness
      table holds, of each peer, the time of the last poll that heard from it, unless it has
      been removed since. */
  lemma {:induction false} SeenIsLastHeard(self: PeerId, timeout: nat, interval: nat, events: seq<Event>, id: PeerId)
    requires LegalRun(NewNode(self, timeout, interval), events)
    ensures var n := NewNode(self, timeout, interval); Seen(Run(n, events), id) == LastHeard(n, events, id)
  {
    if events != [] {
      var before, e := events[..|events| - 1], events[|events| - 1];
      SeenIsLastHeard(self, timeout, interval, before, id);
      var m := Run(NewNode(self, timeout, interval), before);
      match e
      case Remove(x, order) => RefreshSaysNothing(Forget(m, x), order, m.now);
      case PollAt(now, order, inbox) => PollSees(m, order, inbox, now, id);
      case _ =>
    }
  }

  /** A peer counts as alive exactly when the last poll that heard from it is less than the
      timeout ago. */
  lemma AliveIsHeardLately(self: PeerId, timeout: nat, interval: nat, events: seq<Event>, id: PeerId)
    requires LegalRun(NewNode(self, timeout, interval), events)
    ensures var n := NewNode(self, timeout, interval);
            var m, t := Run(n, events), LastHeard(n, events, id);
            Alive(m, id, m.now) <==> t.Some? && t.value <= m.now && m.now - t.value < timeout
  {
    SeenIsLastHeard(self, timeout, interval, events, id);
    RunKeepsSound(self, timeout, interval, events);
    TimeoutIsFixed(NewNode(self, timeout, interval), events);
  }

  lemma {:induction false} TimeoutIsFixed(n: Node, events: seq<Event>)
    ensures Run(n, events).timeout == n.timeout && Run(n, events).interval == n.interval
  {
    if events != [] {
      TimeoutIsFixed(n, events[..|events| - 1]);
      StepKeepsTimeout(Run(n, events[..|events| - 1]), events[|events| - 1]);
    }
  }

  lemma StepKeepsTimeout(n: Node, e: Event)
    ensures Step(n, e).timeout == n.timeout && Step(n, e).interval == n.interval
  {
    match e
    case Remove(id, order) => RefreshKeepsTimeout(Forget(n, id), order, n.now);
    case PollAt(now, order, inbox) =>
      ReceiveIsHearAll(n.(now := now), order, inbox, now);
      HearKeepsTimeout(n.(now := now), HeardIn(n.peers, order, inbox), now);
      RefreshKeepsTimeout(Receive(n.(now := now), order, inbox, now), order, now);
    case _ =>
  }

  lemma {:induction false} HearKeepsTimeout(n: Node, hs: seq<Heard>, now: nat)
    ensures var m := HearAll(n, hs, now); m.timeout == n.timeout && m.interval == n.interval && m.lastBeat == n.lastBeat
  {
    if hs != [] { HearKeepsTimeout(n, hs[..|hs| - 1], now); }
  }

  lemma RefreshKeepsTimeout(n: Node, order: seq<PeerId>, now: nat)
    ensures var r := Refresh(n, order, now);
            r.timeout == n.timeout && r.interval == n.interval && r.lastBeat == n.lastBeat && r.now == n.now
  {
    RefreshPeersKeepsTimeout(n.(elect := [n.self]), order, now);
  }

  lemma {:induction false} RefreshPeersKeepsTimeout(n: Node, order: seq<PeerId>, now: nat)
    ensures var r := RefreshPeers(n, order, now);
            r.timeout == n.timeout && r.interval == n.interval && r.lastBeat == n.lastBeat && r.now == n.now
    decreases order
  {
    if order != [] { RefreshPeersKeepsTimeout(RefreshPeer(n, order[0], now), order[1..], now); }
  }
}
