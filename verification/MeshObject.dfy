/** The mesh node as written (src/app/mesh_node.cpp): an object updated in place by loops
    over its peers, each method against the functions of `MeshModel`. */
module MeshObject {
  import opened ByteStrings
  import opened Ownership
  import opened MeshModel
  import C = Clipboard
  import M = MessageCodec

  class MeshNode {
    const self: PeerId
    const timeout: nat
    const interval: nat
    var peers: map<PeerId, bool>
    var peerOnline: map<PeerId, bool>
    var versionWarned: set<PeerId>
    var ownership: State
    var priority: seq<PeerId>
    var elect: seq<PeerId>
    var last: map<PeerId, nat>
    var clip: C.Sync
    var lastBeat: nat
    var now: nat
    var trace: seq<Notice>

    function View(): Node
      reads this
    {
      Node(self, timeout, interval, peers, peerOnline, versionWarned, ownership, priority, elect, last,
           clip, lastBeat, now, trace)
    }

    constructor (self: PeerId, timeout: nat, interval: nat)
      ensures View() == NewNode(self, timeout, interval)
    {
      this.self, this.timeout, this.interval := self, timeout, interval;
      clip, lastBeat := C.Sync(false, 0), 0;
      peers, peerOnline, versionWarned, last := map[], map[], {}, map[];
      ownership, priority, elect, now, trace := New(self), [self], [], 0, [];
    }

    method SetPriority(p: seq<PeerId>)
      modifies this
      ensures View() == Step(old(View()), Prioritize(p))
    {
      priority := p;
    }

    method AddPeer(id: PeerId, link: bool)
      modifies this
      ensures View() == Step(old(View()), Add(id, link))
    {
      peers := peers[id := link];
      priority := AddUnique(priority, id);
    }

    /** Keys of the peer map in the order a loop visits them. */
    method PeerIds() returns (order: seq<PeerId>)
      ensures Enumerates(order, peers.Keys)
    {
      order := [];
      var left := peers.Keys;
      while left != {}
        invariant left <= peers.Keys
        invariant forall i, j :: 0 <= i < j < |order| ==> order[i] != order[j]
        invariant forall id :: id in order <==> id in peers.Keys && id !in left
        decreases left
      {
        var id :| id in left;
        order := order + [id];
        left := left - {id};
      }
    }

    method RemovePeer(id: PeerId) returns (order: seq<PeerId>)
      modifies this
      ensures Legal(old(View()), Remove(id, order)) && View() == Step(old(View()), Remove(id, order))
    {
      peers := peers - {id};
      last := last - {id};
      if id in peerOnline {
        var wasOnline := peerOnline[id];
        peerOnline := peerOnline - {id};
        if wasOnline { trace := trace + [PeerOffline(id)]; }
      }
      versionWarned := versionWarned - {id};
      assert View() == Forget(old(View()), id);
      order := PeerIds();
      RefreshOnlineAndFailSafe(now, order);
    }

    method RequestSwitchTo(target: PeerId)
      modifies this
      ensures View() == Step(old(View()), Switch(target))
    {
      if target != self && !Alive(View(), target, now) {
        trace := trace + [SwitchUnavailable(target)];
        return;
      }
      var before := ownership.current.target;
      var claim := NextClaim(ownership, target);
      ownership := Apply(ownership, claim);
      trace := trace + [Broadcast(SwitchMessage(claim))];
      if ownership.current.target != before { trace := trace + [OwnerChanged(ownership.current.target)]; }
    }

    method SendHeartbeats(now: nat)
      modifies this
      ensures View() == Step(old(View()), Beat(now))
    {
      this.now := now;
      if lastBeat != 0 && Elapsed(now, lastBeat) < interval { return; }
      trace := trace + [Broadcast(HeartbeatMessage(now))];
      lastBeat := now;
    }

    method OnLocalClipboardChange(text: Bytes)
      modifies this
      ensures View() == Step(old(View()), Copied(text))
    {
      var genuine := C.ShouldBroadcast(clip, text);
      clip := C.AfterLocalChange(clip);
      if !genuine { return; }
      trace := trace + [Broadcast(ClipboardMessage(text))];
    }

    method Poll(now: nat, inbox: PeerId -> seq<Bytes>) returns (order: seq<PeerId>)
      modifies this
      ensures Enumerates(order, peers.Keys) && View() == Step(old(View()), PollAt(now, order, inbox))
    {
      this.now := now;
      order := PeerIds();
      ghost var target := Receive(View(), order, inbox, now);
      for i := 0 to |order|
        invariant Receive(View(), order[i..], inbox, now) == target
        invariant peers == old(peers)
      {
        var id := order[i];
        assert order[i..][0] == id && order[i..][1..] == order[i + 1..];
        if peers[id] { ReadAll(id, inbox(id), now); }
      }
      RefreshOnlineAndFailSafe(now, order);
    }

    /** The inner loop: one peer's messages until it has no more. */
    method ReadAll(id: PeerId, msgs: seq<Bytes>, now: nat)
      modifies this
      ensures View() == HandleAll(old(View()), id, msgs, now) && peers == old(peers)
    {
      for i := 0 to |msgs|
        invariant HandleAll(View(), id, msgs[i..], now) == HandleAll(old(View()), id, msgs, now)
        invariant peers == old(peers)
      {
        assert msgs[i..][1..] == msgs[i + 1..];
        HandleMessage(id, msgs[i], now);
      }
    }

    method HandleMessage(from: PeerId, data: Bytes, now: nat)
      modifies this
      ensures View() == Handle(old(View()), from, data, now) && peers == old(peers)
    {
      last := last[from := now];
      match M.Decode(data) {
        case VersionMismatch =>
          if from !in versionWarned {
            versionWarned := versionWarned + {from};
            trace := trace + [VersionWarning(from)];
          }
        case Fixed(event) =>
          if event.kind != M.HEARTBEAT && ownership.current.target != self { trace := trace + [Inject(event)]; }
        case Var(kind, payload, _) =>
          if kind == M.SWITCH_OWNER {
            var claim := DecodeClaim(payload);
            if claim.Some? { ApplyClaim(claim.value); }
          } else if kind == M.CLIPBOARD_UPDATE {
            clip := C.NoteApplied(clip, payload);
            trace := trace + [RemoteClipboard(payload)];
          }
        case _ =>
      }
    }

    method ApplyClaim(claim: Claim)
      modifies this
      ensures View() == ApplyRemote(old(View()), claim) && peers == old(peers)
    {
      var before := ownership.current.target;
      ownership := Apply(ownership, claim);
      if ownership.current.target != before { trace := trace + [OwnerChanged(ownership.current.target)]; }
    }

    method RefreshOnlineAndFailSafe(now: nat, order: seq<PeerId>)
      modifies this
      ensures View() == Refresh(old(View()), order, now)
      ensures peers == old(peers)
    {
      elect := [self];
      for i := 0 to |order|
        invariant RefreshPeers(View(), order[i..], now) == RefreshPeers(old(View()).(elect := [self]), order, now)
        invariant peers == old(peers)
      {
        assert order[i..][1..] == order[i + 1..];
        RefreshOne(order[i], now);
      }
      if ownership.current.target != self && !Alive(View(), ownership.current.target, now) {
        ownership := Apply(ownership, NextClaim(ownership, self));
        trace := trace + [OwnerChanged(self)];
      }
    }

    method RefreshOne(id: PeerId, now: nat)
      modifies this
      ensures View() == RefreshPeer(old(View()), id, now) && peers == old(peers)
    {
      var alive := Alive(View(), id, now);
      if alive { elect := elect + [id]; }
      var prev := id in peerOnline && peerOnline[id];
      if alive != prev {
        peerOnline := peerOnline[id := alive];
        trace := trace + [if alive then PeerOnline(id) else PeerOffline(id)];
      }
    }

    /** `primary()`: the search of `currentServer`. */
    method Primary() returns (r: Option<PeerId>)
      ensures r == CurrentServer(priority, elect)
    {
      for i := 0 to |priority|
        invariant CurrentServer(priority[i..], elect) == CurrentServer(priority, elect)
      {
        assert priority[i..][1..] == priority[i + 1..];
        if priority[i] in elect { return Some(priority[i]); }
      }
      r := None;
    }
  }
}
