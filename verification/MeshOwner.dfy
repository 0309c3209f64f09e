/** Owner notices over whole runs (src/app/mesh_node.cpp:47-60, 158-167 and 211-215). */
module MeshOwner {
  import opened ByteStrings
  import opened Ownership
  import opened MeshModel
  import opened MeshHearing
  import M = MessageCodec

  /** Whom the last owner notice named; before the first it is the machine itself. */
  function LastOwner(trace: seq<Notice>, self: PeerId): PeerId {
    if trace == [] then self
    else if trace[|trace| - 1].OwnerChanged? then trace[|trace| - 1].id
    else LastOwner(trace[..|trace| - 1], self)
  }

  /** Every owner notice names another machine than the one before it. */
  predicate Changes(trace: seq<Notice>, self: PeerId) {
    trace == [] ||
    (Changes(trace[..|trace| - 1], self) &&
     (trace[|trace| - 1].OwnerChanged? ==> trace[|trace| - 1].id != LastOwner(trace[..|trace| - 1], self)))
  }

  lemma OwnerAfter(trace: seq<Notice>, e: Notice, self: PeerId)
    ensures LastOwner(trace + [e], self) == if e.OwnerChanged? then e.id else LastOwner(trace, self)
    ensures Changes(trace + [e], self) <==>
            Changes(trace, self) && (e.OwnerChanged? ==> e.id != LastOwner(trace, self))
  {
    assert (trace + [e])[..|trace|] == trace;
  }

  /** Up to the last clock value, owner notices tell every change of owner and nothing else. */
  ghost predicate OwnerTold(n: Node) {
    && n.own.self == n.self && n.own.clock == n.own.current.sequence
    && (n.own.clock < U64_MAX ==>
          LastOwner(n.trace, n.self) == n.own.current.target && Changes(n.trace, n.self))
  }

  /** A step that keeps the register and adds nothing about owners. */
  lemma SameOwner(n: Node, m: Node)
    requires OwnerTold(n) && m.own == n.own && m.self == n.self
    requires m.trace == n.trace
             || (m.trace != [] && m.trace[..|m.trace| - 1] == n.trace && !m.trace[|m.trace| - 1].OwnerChanged?)
    ensures OwnerTold(m)
  {
  }

  /** A step that applies a claim and tells exactly whether the owner changed. */
  lemma AppliedTells(n: Node, m: Node, c: Claim)
    requires OwnerTold(n) && m.self == n.self && m.own == Apply(n.own, c)
    requires m.trace == if m.own.current.target != n.own.current.target
                        then n.trace + [OwnerChanged(m.own.current.target)] else n.trace
    ensures OwnerTold(m)
  {
    OwnerAfter(n.trace, OwnerChanged(m.own.current.target), n.self);
  }

  lemma RefreshTellsOwner(n: Node, order: seq<PeerId>, now: nat)
    requires OwnerTold(n)
    ensures OwnerTold(Refresh(n, order, now))
  {
    RefreshPeersTellsOwner(n.(elect := [n.self]), order, now);
    var m := RefreshPeers(n.(elect := [n.self]), order, now);
    var r := FailSafe(m, now);
    if r != m {
      OwnerAfter(m.trace, OwnerChanged(m.self), m.self);
    }
  }

  lemma {:induction false} RefreshPeersTellsOwner(n: Node, order: seq<PeerId>, now: nat)
    requires OwnerTold(n)
    ensures OwnerTold(RefreshPeers(n, order, now))
    decreases order
  {
    if order != [] {
      SameOwner(n, RefreshPeer(n, order[0], now));
      RefreshPeersTellsOwner(RefreshPeer(n, order[0], now), order[1..], now);
    }
  }

  lemma HandleTellsOwner(n: Node, h: Heard, now: nat)
    requires OwnerTold(n)
    ensures OwnerTold(Handle(n, h.from, h.msg, now))
  {
    var m, d := Handle(n, h.from, h.msg, now), M.Decode(h.msg);
    HandleTrace(n, h, now);
    if d.Var? && d.kind == M.SWITCH_OWNER && DecodeClaim(d.payload).Some? {
      AppliedTells(n, m, DecodeClaim(d.payload).value);
    } else {
      SameOwner(n, m);
    }
  }

  lemma {:induction false} HearTellsOwner(n: Node, hs: seq<Heard>, now: nat)
    requires OwnerTold(n)
    ensures OwnerTold(HearAll(n, hs, now))
  {
    if hs != [] {
      HearTellsOwner(n, hs[..|hs| - 1], now);
      HandleTellsOwner(HearAll(n, hs[..|hs| - 1], now), hs[|hs| - 1], now);
    }
  }

  lemma StepTellsOwner(n: Node, e: Event)
    requires OwnerTold(n)
    ensures OwnerTold(Step(n, e))
  {
    match e
    case Remove(id, order) =>
      SameOwner(n, Forget(n, id));
      RefreshTellsOwner(Forget(n, id), order, n.now);
    case PollAt(now, order, inbox) =>
      var q := n.(now := now);
      SameOwner(n, q);
      ReceiveIsHearAll(q, order, inbox, now);
      HearTellsOwner(q, HeardIn(n.peers, order, inbox), now);
      RefreshTellsOwner(Receive(q, order, inbox, now), order, now);
    case Switch(target) => SwitchTellsOwner(n, target);
    case _ => SameOwner(n, Step(n, e));
  }

  lemma SwitchTellsOwner(n: Node, target: PeerId)
    requires OwnerTold(n)
    ensures OwnerTold(RequestSwitch(n, target))
  {
    var m := RequestSwitch(n, target);
    if target != n.self && !Alive(n, target, n.now) {
      SameOwner(n, m);
    } else {
      var c := NextClaim(n.own, target);
      var q := Emit(n, Broadcast(SwitchMessage(c)));
      SameOwner(n, q);
      AppliedTells(q, m, c);
    }
  }

  /** In every run, until the clock reaches its last value, the last owner notice names the
      owner, and each names another machine than the one before: no change goes untold and
      none is told twice. */
  lemma {:induction false} OwnerNoticesAreExact(self: PeerId, timeout: nat, interval: nat, events: seq<Event>)
    ensures OwnerTold(Run(NewNode(self, timeout, interval), events))
  {
    if events != [] {
      OwnerNoticesAreExact(self, timeout, interval, events[..|events| - 1]);
      StepTellsOwner(Run(NewNode(self, timeout, interval), events[..|events| - 1]), events[|events| - 1]);
    }
  }
}
