/** One machine of the mesh (src/app/mesh_node.cpp with src/core/heartbeat.cpp and
    src/core/server_election.cpp): liveness, one-time notifications, coordinator election
    and the fail-safe that returns control to the local user. */
module MeshModel {
  import opened ByteStrings
  import opened Ownership
  import C = Clipboard
  import M = MessageCodec

  datatype Notice = PeerOnline(id: PeerId) | PeerOffline(id: PeerId) | OwnerChanged(id: PeerId)
                  | SwitchUnavailable(id: PeerId) | VersionWarning(id: PeerId) | Broadcast(msg: Bytes)
                  | Inject(event: M.InputEvent) | RemoteClipboard(text: Bytes)

  /** `peers[id]` is whether the registered transport is non-null; `trace` records the
      callbacks, and what is broadcast to the peers, in order. */
  datatype Node = Node(self: PeerId, timeout: nat, interval: nat, peers: map<PeerId, bool>, online: map<PeerId, bool>,
                       warned: set<PeerId>, own: State, priority: seq<PeerId>, elect: seq<PeerId>,
                       last: map<PeerId, nat>, clip: C.Sync, lastBeat: nat, now: nat, trace: seq<Notice>)

  function NewNode(self: PeerId, timeout: nat, interval: nat): Node {
    Node(self, timeout, interval, map[], map[], {}, New(self), [self], [], map[], C.Sync(false, 0), 0, 0, [])
  }

  // ---------------------------------------------------------------- heartbeat and election

  /** Unsigned 64-bit subtraction. */
  function Elapsed(now: nat, seen: nat): int { if now >= seen then now - seen else now - seen + U64 }

  predicate Alive(n: Node, id: PeerId, now: nat) {
    id in n.last && Elapsed(now, n.last[id]) < n.timeout
  }

  function AddUnique(v: seq<PeerId>, id: PeerId): seq<PeerId> { if id in v then v else v + [id] }

  /** The first entry of the priority list that is online. */
  function CurrentServer(priority: seq<PeerId>, elect: seq<PeerId>): Option<PeerId> {
    if priority == [] then None
    else if priority[0] in elect then Some(priority[0])
    else CurrentServer(priority[1..], elect)
  }

  // ---------------------------------------------------------------- operations

  function Emit(n: Node, e: Notice): Node { n.(trace := n.trace + [e]) }

  function AddPeer(n: Node, id: PeerId, link: bool): Node {
    n.(peers := n.peers[id := link], priority := AddUnique(n.priority, id))
  }

  predicate Stored(n: Node, id: PeerId) { id in n.online && n.online[id] }

  /** The body of the loop over peers in `refreshOnlineAndFailSafe`. */
  function RefreshPeer(n: Node, id: PeerId, now: nat): Node {
    var alive := Alive(n, id, now);
    var m := if alive then n.(elect := n.elect + [id]) else n;
    if alive == Stored(n, id) then m
    else Emit(m.(online := m.online[id := alive]), if alive then PeerOnline(id) else PeerOffline(id))
  }

  function RefreshPeers(n: Node, order: seq<PeerId>, now: nat): Node
    decreases order
  {
    if order == [] then n else RefreshPeers(RefreshPeer(n, order[0], now), order[1..], now)
  }

  predicate IsLocalOwner(n: Node) { n.own.current.target == n.self }

  function FailSafe(n: Node, now: nat): Node {
    if !IsLocalOwner(n) && !Alive(n, n.own.current.target, now) then
      Emit(n.(own := Apply(n.own, NextClaim(n.own, n.self))), OwnerChanged(n.self))
    else n
  }

  function Refresh(n: Node, order: seq<PeerId>, now: nat): Node {
    FailSafe(RefreshPeers(n.(elect := [n.self]), order, now), now)
  }

  /** `removePeer` up to the call of the refresh. */
  function Forget(n: Node, id: PeerId): Node {
    var m := n.(peers := n.peers - {id}, last := n.last - {id}, online := n.online - {id},
                warned := n.warned - {id});
    if Stored(n, id) then Emit(m, PeerOffline(id)) else m
  }

  function RemovePeer(n: Node, id: PeerId, order: seq<PeerId>): Node {
    Refresh(Forget(n, id), order, n.now)
  }

  function SwitchMessage(c: Claim): Bytes { M.EncodeVar(M.SWITCH_OWNER, EncodeClaim(c)) }

  function RequestSwitch(n: Node, target: PeerId): Node {
    if target != n.self && !Alive(n, target, n.now) then Emit(n, SwitchUnavailable(target))
    else
      var c := NextClaim(n.own, target);
      var m := Emit(n.(own := Apply(n.own, c)), Broadcast(SwitchMessage(c)));
      if m.own.current.target != n.own.current.target then Emit(m, OwnerChanged(m.own.current.target)) else m
  }

  function ApplyRemote(n: Node, c: Claim): Node {
    var m := n.(own := Apply(n.own, c));
    if m.own.current.target != n.own.current.target then Emit(m, OwnerChanged(m.own.current.target)) else m
  }

  /** Any message proves its sender alive. */
  function Handle(n: Node, from: PeerId, data: Bytes, now: nat): Node {
    var h := n.(last := n.last[from := now]);
    match M.Decode(data)
    case VersionMismatch =>
      if from in h.warned then h else Emit(h.(warned := h.warned + {from}), VersionWarning(from))
    case Fixed(event) =>
      if event.kind != M.HEARTBEAT && !IsLocalOwner(h) then Emit(h, Inject(event)) else h
    case Var(kind, payload, _) =>
      if kind == M.SWITCH_OWNER then
        match DecodeClaim(payload)
        case None => h
        case Some(claim) => ApplyRemote(h, claim)
      else if kind == M.CLIPBOARD_UPDATE then
        Emit(h.(clip := C.NoteApplied(h.clip, payload)), RemoteClipboard(payload))
      else h
    case _ => h
  }

  function ClipboardMessage(text: Bytes): Bytes { M.EncodeVar(M.CLIPBOARD_UPDATE, text) }

  function LocalClipboard(n: Node, text: Bytes): Node {
    var m := n.(clip := C.AfterLocalChange(n.clip));
    if C.ShouldBroadcast(n.clip, text) then Emit(m, Broadcast(ClipboardMessage(text))) else m
  }

  function HeartbeatMessage(now: nat): Bytes {
    M.EncodeEvent(M.InputEvent(M.PROTOCOL_VERSION, M.HEARTBEAT, 0, 0, 0, 0, Cast32(now)))
  }

  predicate BeatDue(n: Node, now: nat) { n.lastBeat == 0 || Elapsed(now, n.lastBeat) >= n.interval }

  function SendHeartbeats(n: Node, now: nat): Node {
    var m := n.(now := now);
    if BeatDue(n, now) then Emit(m.(lastBeat := now), Broadcast(HeartbeatMessage(now))) else m
  }

  function HandleAll(n: Node, from: PeerId, msgs: seq<Bytes>, now: nat): Node
    decreases msgs
  {
    if msgs == [] then n else HandleAll(Handle(n, from, msgs[0], now), from, msgs[1..], now)
  }

  /** `inbox(id)`: the messages the peer's transport yields before it reports none. */
  function Receive(n: Node, order: seq<PeerId>, inbox: PeerId -> seq<Bytes>, now: nat): Node
    decreases order
  {
    if order == [] then n
    else
      var id := order[0];
      var m := if id in n.peers && n.peers[id] then HandleAll(n, id, inbox(id), now) else n;
      Receive(m, order[1..], inbox, now)
  }

  function Poll(n: Node, order: seq<PeerId>, inbox: PeerId -> seq<Bytes>, now: nat): Node {
    Refresh(Receive(n.(now := now), order, inbox, now), order, now)
  }

  /** `order` lists every key of the peer map once. */
  ghost predicate Enumerates(order: seq<PeerId>, keys: set<PeerId>) {
    && (forall i, j :: 0 <= i < j < |order| ==> order[i] != order[j])
    && (forall id :: id in order <==> id in keys)
  }

  // ---------------------------------------------------------------- runs

  datatype Event = Add(id: PeerId, link: bool)
                 | Remove(id: PeerId, order: seq<PeerId>)
                 | Prioritize(priority: seq<PeerId>)
                 | Switch(target: PeerId)
                 | Beat(now: nat)
                 | Copied(text: Bytes)
                 | PollAt(now: nat, order: seq<PeerId>, inbox: PeerId -> seq<Bytes>)

  function Step(n: Node, e: Event): Node {
    match e
    case Add(id, link) => AddPeer(n, id, link)
    case Remove(id, order) => RemovePeer(n, id, order)
    case Prioritize(p) => n.(priority := p)
    case Switch(target) => RequestSwitch(n, target)
    case Beat(now) => SendHeartbeats(n, now)
    case Copied(text) => LocalClipboard(n, text)
    case PollAt(now, order, inbox) => Poll(n, order, inbox, now)
  }

  function Run(n: Node, events: seq<Event>): Node {
    if events == [] then n else Step(Run(n, events[..|events| - 1]), events[|events| - 1])
  }

  /** The loops visit each registered peer once, and time does not go backwards. */
  ghost predicate Legal(n: Node, e: Event) {
    match e
    case Remove(id, order) => Enumerates(order, n.peers.Keys - {id})
    case PollAt(now, order, _) => Enumerates(order, n.peers.Keys) && n.now <= now < U64
    case Beat(now) => n.now <= now < U64
    case _ => true
  }

  ghost predicate LegalRun(n: Node, events: seq<Event>) {
    events == [] ||
    (LegalRun(n, events[..|events| - 1]) && Legal(Run(n, events[..|events| - 1]), events[|events| - 1]))
  }

  // ---------------------------------------------------------------- what the parts keep

  /** Facts about the register and the liveness table that every step keeps. */
  ghost predicate Sound(n: Node) {
    && n.own.self == n.self
    && n.own.clock == n.own.current.sequence < U64
    && n.now < U64
    && n.last.Keys <= n.peers.Keys && n.online.Keys <= n.peers.Keys
    && forall id :: id in n.last ==> n.last[id] <= n.now
  }

  /** Everything a refresh loop leaves alone. */
  predicate SameBut(n: Node, m: Node) {
    && m.self == n.self && m.timeout == n.timeout && m.peers == n.peers && m.own == n.own
    && m.priority == n.priority && m.last == n.last && m.now == n.now && m.warned == n.warned
    && m.interval == n.interval && m.clip == n.clip && m.lastBeat == n.lastBeat
  }

  lemma {:induction false} RefreshPeersFacts(n: Node, order: seq<PeerId>, now: nat)
    requires forall i, j :: 0 <= i < j < |order| ==> order[i] != order[j]
    ensures var m := RefreshPeers(n, order, now);
            && SameBut(n, m)
            && (forall id :: id in m.elect <==> id in n.elect || (id in order && Alive(n, id, now)))
            && (forall id :: Stored(m, id) <==> if id in order then Alive(n, id, now) else Stored(n, id))
            && (forall id :: id in m.online ==> id in n.online || id in order)
    decreases order
  {
    if order != [] {
      var m := RefreshPeer(n, order[0], now);
      assert order == [order[0]] + order[1..];
      RefreshPeersFacts(m, order[1..], now);
      assert forall id :: Alive(m, id, now) == Alive(n, id, now);
    }
  }

  // ---------------------------------------------------------------- soundness of every run

  lemma ApplyKeepsSound(n: Node, c: Claim)
    requires Sound(n) && c.sequence < U64
    ensures Sound(n.(own := Apply(n.own, c)))
  {
  }

  lemma DecodedSequence(data: Bytes)
    ensures DecodeClaim(data).Some? ==> DecodeClaim(data).value.sequence < U64
  {
    if DecodeClaim(data).Some? {
      var (_, p) := GetId(data, 0).value;
      var (_, q) := GetId(data, p).value;
      WordSizes();
      ValueBound(data[q..q + 8]);
    }
  }

  lemma ApplyRemoteKeepsSound(n: Node, c: Claim)
    requires Sound(n) && c.sequence < U64
    ensures var m := ApplyRemote(n, c); Sound(m) && m.peers == n.peers && m.now == n.now && m.self == n.self
  {
    ApplyKeepsSound(n, c);
  }

  /** What soundness is about. */
  predicate SameCore(n: Node, m: Node) {
    && m.self == n.self && m.own == n.own && m.now == n.now && m.peers == n.peers
    && m.last == n.last && m.online == n.online
  }

  lemma SameCoreKeepsSound(n: Node, m: Node)
    requires Sound(n) && SameCore(n, m)
    ensures Sound(m)
  {
  }

  /** Only a switch touches more of the node than its sender's last sign of life. */
  lemma HandleIsSwitchOrNot(n: Node, from: PeerId, data: Bytes, now: nat)
    ensures var h, m := n.(last := n.last[from := now]), Handle(n, from, data, now);
            || SameCore(h, m)
            || (M.Decode(data).Var? && DecodeClaim(M.Decode(data).payload).Some?
                && m == ApplyRemote(h, DecodeClaim(M.Decode(data).payload).value))
  {
  }

  lemma HandleKeepsSound(n: Node, from: PeerId, data: Bytes)
    requires Sound(n) && from in n.peers
    ensures var m := Handle(n, from, data, n.now);
            Sound(m) && m.peers == n.peers && m.now == n.now && m.self == n.self
  {
    var h, m := n.(last := n.last[from := n.now]), Handle(n, from, data, n.now);
    assert Sound(h);
    HandleIsSwitchOrNot(n, from, data, n.now);
    if SameCore(h, m) {
      SameCoreKeepsSound(h, m);
    } else {
      DecodedSequence(M.Decode(data).payload);
      ApplyRemoteKeepsSound(h, DecodeClaim(M.Decode(data).payload).value);
    }
  }

  lemma {:induction false} HandleAllKeepsSound(n: Node, from: PeerId, msgs: seq<Bytes>)
    requires Sound(n) && from in n.peers
    ensures var m := HandleAll(n, from, msgs, n.now);
            Sound(m) && m.peers == n.peers && m.now == n.now && m.self == n.self
    decreases msgs
  {
    if msgs != [] {
      HandleKeepsSound(n, from, msgs[0]);
      HandleAllKeepsSound(Handle(n, from, msgs[0], n.now), from, msgs[1..]);
    }
  }

  lemma {:induction false} ReceiveKeepsSound(n: Node, order: seq<PeerId>, inbox: PeerId -> seq<Bytes>)
    requires Sound(n)
    ensures var m := Receive(n, order, inbox, n.now);
            Sound(m) && m.peers == n.peers && m.now == n.now && m.self == n.self
    decreases order
  {
    if order != [] {
      var id := order[0];
      if id in n.peers && n.peers[id] {
        HandleAllKeepsSound(n, id, inbox(id));
        ReceiveKeepsSound(HandleAll(n, id, inbox(id), n.now), order[1..], inbox);
      } else {
        ReceiveKeepsSound(n, order[1..], inbox);
      }
    }
  }

  lemma RefreshKeepsSound(n: Node, order: seq<PeerId>)
    requires Sound(n) && Enumerates(order, n.peers.Keys)
    ensures Sound(Refresh(n, order, n.now))
  {
    RefreshPeersFacts(n.(elect := [n.self]), order, n.now);
    var m := RefreshPeers(n.(elect := [n.self]), order, n.now);
    assert Sound(m);
    ApplyKeepsSound(m, NextClaim(m.own, m.self));
  }

  /** After a refresh the stored liveness of every registered peer is its liveness. */
  lemma RefreshStores(n: Node, order: seq<PeerId>)
    requires Sound(n) && Enumerates(order, n.peers.Keys)
    ensures var r := Refresh(n, order, n.now);
            r.now == n.now && forall id :: id in r.peers ==> (Stored(r, id) <==> Alive(r, id, r.now))
  {
    RefreshPeersFacts(n.(elect := [n.self]), order, n.now);
    var m := RefreshPeers(n.(elect := [n.self]), order, n.now);
    var r := Refresh(n, order, n.now);
    assert r.peers == n.peers && r.last == n.last && r.online == m.online;
  }

  lemma StepKeepsSound(n: Node, e: Event)
    requires Sound(n) && Legal(n, e)
    ensures Sound(Step(n, e)) && Step(n, e).self == n.self
  {
    match e
    case Remove(id, order) => RemoveKeepsSound(n, id, order);
    case Switch(target) => ApplyKeepsSound(n, NextClaim(n.own, target));
    case PollAt(now, order, inbox) => PollKeepsSound(n, order, inbox, now);
    case _ =>
  }

  lemma RemoveKeepsSound(n: Node, id: PeerId, order: seq<PeerId>)
    requires Sound(n) && Enumerates(order, n.peers.Keys - {id})
    ensures Sound(RemovePeer(n, id, order)) && RemovePeer(n, id, order).self == n.self
  {
    assert Sound(Forget(n, id));
    RefreshKeepsSound(Forget(n, id), order);
    RefreshPeersFacts(Forget(n, id).(elect := [n.self]), order, n.now);
  }

  lemma PollKeepsSound(n: Node, order: seq<PeerId>, inbox: PeerId -> seq<Bytes>, now: nat)
    requires Sound(n) && Enumerates(order, n.peers.Keys) && n.now <= now < U64
    ensures Sound(Poll(n, order, inbox, now)) && Poll(n, order, inbox, now).self == n.self
  {
    var m := n.(now := now);
    assert Sound(m);
    ReceiveKeepsSound(m, order, inbox);
    RefreshKeepsSound(Receive(m, order, inbox, now), order);
    RefreshPeersFacts(Receive(m, order, inbox, now).(elect := [n.self]), order, now);
  }

  lemma {:induction false} RunKeepsSound(self: PeerId, timeout: nat, interval: nat, events: seq<Event>)
    requires LegalRun(NewNode(self, timeout, interval), events)
    ensures var n := Run(NewNode(self, timeout, interval), events); Sound(n) && n.self == self
  {
    if events != [] {
      RunKeepsSound(self, timeout, interval, events[..|events| - 1]);
      StepKeepsSound(Run(NewNode(self, timeout, interval), events[..|events| - 1]), events[|events| - 1]);
    }
  }

  // ---------------------------------------------------------------- local control wins

  /** The owner is this machine or a registered peer heard from within the timeout. */
  ghost predicate InControl(n: Node) {
    || n.own.current.target == n.self
    || (var o := n.own.current.target;
        o in n.peers && o in n.last && n.last[o] <= n.now && n.now - n.last[o] < n.timeout)
  }

  /** A silent remote owner whose claim has used up the clock: the local revert loses to it. */
  ghost predicate ClockUsedUp(n: Node) { n.own.clock == U64_MAX && !InControl(n) }

  /** What the refresh restores, exactly: local control, unless the clock is used up. */
  lemma RefreshRestoresControl(n: Node, order: seq<PeerId>)
    requires Sound(n) && Enumerates(order, n.peers.Keys)
    ensures InControl(Refresh(n, order, n.now)) <==> !ClockUsedUp(n)
  {
    RefreshPeersFacts(n.(elect := [n.self]), order, n.now);
    var m := RefreshPeers(n.(elect := [n.self]), order, n.now);
    SwitchWinsLocally(m.own, m.self);
    assert Alive(m, m.own.current.target, n.now) ==> m.own.current.target in m.last;
    assert InControl(m) == InControl(n);
  }

  /** `e` is a step after which the fail-safe has just run; this is the state it ran in. */
  function BeforeRefresh(n: Node, e: Event): Node {
    match e
    case Remove(id, _) => Forget(n, id)
    case PollAt(now, order, inbox) => Receive(n.(now := now), order, inbox, now)
    case _ => n
  }

  /** Local control always wins: in every run with a non-decreasing clock, after each poll
      or removal the owner is this machine or a peer heard from within the timeout, except
      exactly when the logical clock has reached 2^64-1 under a silent owner. */
  lemma LocalControlWins(self: PeerId, timeout: nat, interval: nat, events: seq<Event>, e: Event)
    requires LegalRun(NewNode(self, timeout, interval), events + [e]) && (e.Remove? || e.PollAt?)
    ensures var n := Run(NewNode(self, timeout, interval), events);
            InControl(Step(n, e)) <==> !ClockUsedUp(BeforeRefresh(n, e))
  {
    var n := Run(NewNode(self, timeout, interval), events);
    assert (events + [e])[..|events|] == events;
    RunKeepsSound(self, timeout, interval, events);
    match e
    case Remove(id, order) =>
      assert Sound(Forget(n, id));
      RefreshRestoresControl(Forget(n, id), order);
    case PollAt(now, order, inbox) =>
      assert Sound(n.(now := now));
      ReceiveKeepsSound(n.(now := now), order, inbox);
      RefreshRestoresControl(Receive(n.(now := now), order, inbox, now), order);
    case _ =>
  }

  // ---------------------------------------------------------------- the elected primary

  /** The machines the election may pick: this one and the live registered peers. */
  ghost predicate Electable(n: Node, id: PeerId) {
    id == n.self || (id in n.peers && Alive(n, id, n.now))
  }

  lemma {:induction false} CurrentServerIsFirst(priority: seq<PeerId>, elect: seq<PeerId>)
    ensures match CurrentServer(priority, elect)
            case None => forall k :: 0 <= k < |priority| ==> priority[k] !in elect
            case Some(id) =>
              id in elect && exists k :: 0 <= k < |priority| && priority[k] == id
                                         && forall j :: 0 <= j < k ==> priority[j] !in elect
  {
    if priority != [] && priority[0] !in elect {
      CurrentServerIsFirst(priority[1..], elect);
      match CurrentServer(priority[1..], elect)
      case None =>
      case Some(id) =>
        var k :| 0 <= k < |priority| - 1 && priority[1..][k] == id
                 && forall j :: 0 <= j < k ==> priority[1..][j] !in elect;
        assert priority[k + 1] == id;
        assert forall j :: 0 < j < k + 1 ==> priority[j] == priority[1..][j - 1];
    }
  }

  /** A new peer goes to the end of the priority list, an old one keeps its place. */
  lemma NewPeerGoesLast(n: Node, id: PeerId, link: bool)
    ensures var m := AddPeer(n, id, link);
            && n.priority <= m.priority && id in m.priority
            && (id in n.priority ==> m.priority == n.priority)
            && (id !in n.priority ==> |m.priority| == |n.priority| + 1 && m.priority[|n.priority|] == id)
  {
  }

  /** So adding a peer never takes the lead from the machine that has it: the newcomer leads
      only if it is online and nobody did. */
  lemma {:induction false} LongerListKeepsServer(priority: seq<PeerId>, more: seq<PeerId>, elect: seq<PeerId>)
    ensures CurrentServer(priority + more, elect)
         == if CurrentServer(priority, elect).Some? then CurrentServer(priority, elect) else CurrentServer(more, elect)
  {
    if priority == [] {
      assert priority + more == more;
    } else {
      assert (priority + more)[1..] == priority[1..] + more;
      LongerListKeepsServer(priority[1..], more, elect);
    }
  }

  lemma AddingNeverDemotes(n: Node, id: PeerId, link: bool)
    ensures var before, m := CurrentServer(n.priority, n.elect), AddPeer(n, id, link);
            && m.elect == n.elect
            && CurrentServer(m.priority, m.elect)
               == if before.Some? then before else if id in n.elect then Some(id) else None
  {
    var before := CurrentServer(n.priority, n.elect);
    CurrentServerIsFirst(n.priority, n.elect);
    if id !in n.priority {
      LongerListKeepsServer(n.priority, [id], n.elect);
      assert [id][1..] == [];
      assert CurrentServer([id], n.elect) == if id in n.elect then Some(id) else CurrentServer([], n.elect);
    }
  }

  /** After each poll or removal the election's candidates are exactly this machine and the
      live registered peers. */
  lemma RefreshElects(n: Node, order: seq<PeerId>)
    requires Sound(n) && Enumerates(order, n.peers.Keys)
    ensures var r := Refresh(n, order, n.now); forall id :: id in r.elect <==> Electable(r, id)
  {
    RefreshPeersFacts(n.(elect := [n.self]), order, n.now);
    var m := RefreshPeers(n.(elect := [n.self]), order, n.now);
    var r := Refresh(n, order, n.now);
    assert forall id :: Alive(r, id, n.now) == Alive(n, id, n.now);
  }

  lemma ElectionFollowsLiveness(self: PeerId, timeout: nat, interval: nat, events: seq<Event>, e: Event)
    requires LegalRun(NewNode(self, timeout, interval), events + [e]) && (e.Remove? || e.PollAt?)
    ensures var r := Step(Run(NewNode(self, timeout, interval), events), e);
            match CurrentServer(r.priority, r.elect)
            case None => forall k :: 0 <= k < |r.priority| ==> !Electable(r, r.priority[k])
            case Some(id) =>
              Electable(r, id) && exists k :: 0 <= k < |r.priority| && r.priority[k] == id
                                              && forall j :: 0 <= j < k ==> !Electable(r, r.priority[j])
  {
    var n := Run(NewNode(self, timeout, interval), events);
    assert (events + [e])[..|events|] == events;
    RunKeepsSound(self, timeout, interval, events);
    var r := Step(n, e);
    match e {
      case Remove(id, order) =>
        assert Sound(Forget(n, id));
        RefreshElects(Forget(n, id), order);
      case PollAt(now, order, inbox) =>
        assert Sound(n.(now := now));
        ReceiveKeepsSound(n.(now := now), order, inbox);
        RefreshElects(Receive(n.(now := now), order, inbox, now), order);
      case _ =>
    }
    CurrentServerIsFirst(r.priority, r.elect);
  }

  /** A claim stamped 2^64-1 whose owner then goes silent is such a case: control stays
      with the silent machine (`MeshRegister.LastClockFreezesOwner`: for good). */
  lemma ExhaustedClockKeepsSilentOwner(self: PeerId, peer: PeerId, first: PeerId -> seq<Bytes>,
                                       silence: PeerId -> seq<Bytes>)
    requires self != peer && |peer| <= 255
    requires first(peer) == [SwitchMessage(Claim(peer, peer, U64_MAX))]
    requires silence(peer) == []
    ensures var events := [Add(peer, true), PollAt(1000, [peer], first)];
            var e := PollAt(9000, [peer], silence);
            var n := Run(NewNode(self, 2000, 500), events);
            && LegalRun(NewNode(self, 2000, 500), events + [e])
            && Step(n, e).own.current.target == peer && Step(n, e).own.clock == U64_MAX
            && !InControl(Step(n, e))
  {
    var n0 := NewNode(self, 2000, 500);
    var n1 := AddPeer(n0, peer, true);
    var e1, e2, e3 := Add(peer, true), PollAt(1000, [peer], first), PollAt(9000, [peer], silence);
    SilentOwnerRemains(n1, peer, first, silence);
    var events := [e1, e2];
    assert (events + [e3])[..2] == events && events[..1] == [e1] && [e1][..0] == [];
    assert Run(n0, [e1]) == n1 && Run(n0, events) == Step(n1, e2);
    assert LegalRun(n0, [e1]);
    assert Enumerates([peer], n1.peers.Keys);
    assert LegalRun(n0, events);
  }

  lemma SilentOwnerRemains(n: Node, peer: PeerId, first: PeerId -> seq<Bytes>, silence: PeerId -> seq<Bytes>)
    requires n.self != peer && |peer| <= 255 && n.peers == map[peer := true] && n.last == map[]
    requires n.own == New(n.self) && n.timeout == 2000 && n.now < 1000
    requires first(peer) == [SwitchMessage(Claim(peer, peer, U64_MAX))]
    requires silence(peer) == []
    ensures var m := Step(n, PollAt(1000, [peer], first));
            var r := Step(m, PollAt(9000, [peer], silence));
            && m.peers == n.peers && m.now == 1000
            && r.own.current.target == peer && r.own.clock == U64_MAX && !InControl(r)
  {
    SwitchSeizes(n, peer, first);
    SilentPoll(Step(n, PollAt(1000, [peer], first)), peer, silence);
  }

  lemma SwitchSeizes(n: Node, peer: PeerId, first: PeerId -> seq<Bytes>)
    requires n.self != peer && |peer| <= 255 && n.peers == map[peer := true] && n.last == map[]
    requires n.own == New(n.self) && n.timeout == 2000
    requires first(peer) == [SwitchMessage(Claim(peer, peer, U64_MAX))]
    ensures var m := Step(n, PollAt(1000, [peer], first));
            && m.self == n.self && m.peers == n.peers && m.now == 1000 && m.timeout == 2000
            && m.last == map[peer := 1000]
            && m.own == State(n.self, Claim(peer, peer, U64_MAX), U64_MAX)
  {
    var c := Claim(peer, peer, U64_MAX);
    var q := n.(now := 1000);
    SwitchArrives(q, peer, c);
    OneMessage(q, peer, first, first(peer)[0]);
    LiveOwnerStays(ApplyRemote(q.(last := q.last[peer := 1000]), c), peer, 1000);
  }

  /** A refresh leaves a live owner in control. */
  lemma LiveOwnerStays(h: Node, peer: PeerId, now: nat)
    requires h.own.current.target == peer && Alive(h, peer, now)
    ensures SameBut(h, Refresh(h, [peer], now))
  {
    RefreshPeersFacts(h.(elect := [h.self]), [peer], now);
  }

  lemma OneMessage(q: Node, peer: PeerId, inbox: PeerId -> seq<Bytes>, msg: Bytes)
    requires q.peers == map[peer := true] && inbox(peer) == [msg]
    ensures Receive(q, [peer], inbox, q.now) == Handle(q, peer, msg, q.now)
  {
    var h := Handle(q, peer, msg, q.now);
    assert [msg][1..] == [];
    assert HandleAll(q, peer, [msg], q.now) == HandleAll(h, peer, [], q.now);
    assert [peer][1..] == [];
    assert Receive(q, [peer], inbox, q.now) == Receive(HandleAll(q, peer, [msg], q.now), [], inbox, q.now);
  }

  lemma SilentPoll(m: Node, peer: PeerId, silence: PeerId -> seq<Bytes>)
    requires m.self != peer && m.peers == map[peer := true] && m.last == map[peer := 1000] && m.timeout == 2000
    requires m.own == State(m.self, Claim(peer, peer, U64_MAX), U64_MAX) && silence(peer) == []
    ensures var r := Step(m, PollAt(9000, [peer], silence)); r.own == m.own && !InControl(r)
  {
    var p := m.(now := 9000);
    assert Receive(p, [peer], silence, 9000) == p;
    RefreshPeersFacts(p.(elect := [m.self]), [peer], 9000);
  }

  lemma SwitchArrives(n: Node, from: PeerId, c: Claim)
    requires |c.target| <= 255 && |c.origin| <= 255 && c.sequence < U64
    ensures Handle(n, from, SwitchMessage(c), n.now)
         == ApplyRemote(n.(last := n.last[from := n.now]), c)
  {
    var msg := SwitchMessage(c);
    M.VarRoundTrip(M.SWITCH_OWNER, EncodeClaim(c), []);
    assert msg + [] == msg;
    WireRoundTrip(c);
  }
}
