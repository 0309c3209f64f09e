/** Any number of machines replicating one ownership register by broadcast, with the
    fail-safe revert that is deliberately not broadcast (src/app/mesh_node.cpp:206-215). */
module OwnershipMesh {
  import opened ByteStrings
  import opened Ownership

  /** A machine's register together with every claim it has ever applied. */
  datatype Node = Node(state: State, applied: set<Claim>)

  /** A claim some machine issued; a fail-safe revert is issued but never broadcast. */
  datatype Issue = Issue(claim: Claim, broadcast: bool)

  datatype Mesh = Mesh(nodes: map<PeerId, Node>, issued: seq<Issue>)

  /** `Deliver(n, k)`: machine `n` receives the message of issue `k`; any order, any number of times. */
  datatype Event = Switch(node: PeerId, target: PeerId)
                 | Revert(node: PeerId)
                 | Deliver(node: PeerId, k: nat)

  function Start(ids: set<PeerId>): Mesh {
    Mesh(map id | id in ids :: Node(New(id), {}), [])
  }

  function ApplyAt(n: Node, c: Claim): Node { Node(Apply(n.state, c), n.applied + {c}) }

  function IssueAt(m: Mesh, id: PeerId, target: PeerId, broadcast: bool): Mesh {
    if id !in m.nodes then m
    else
      var c := NextClaim(m.nodes[id].state, target);
      Mesh(m.nodes[id := ApplyAt(m.nodes[id], c)], m.issued + [Issue(c, broadcast)])
  }

  /** Claims travel through the wire codec. */
  function Step(m: Mesh, e: Event): Mesh {
    match e
    case Switch(id, target) => IssueAt(m, id, target, true)
    case Revert(id) => IssueAt(m, id, id, false)
    case Deliver(id, k) =>
      if id !in m.nodes || k >= |m.issued| || !m.issued[k].broadcast then m
      else match DecodeClaim(EncodeClaim(m.issued[k].claim))
           case None => m
           case Some(c) => m.(nodes := m.nodes[id := ApplyAt(m.nodes[id], c)])
  }

  function RunFrom(m: Mesh, events: seq<Event>): Mesh {
    if events == [] then m else Step(RunFrom(m, events[..|events| - 1]), events[|events| - 1])
  }

  function Run(ids: set<PeerId>, events: seq<Event>): Mesh { RunFrom(Start(ids), events) }

  /** Ids fit the wire's length byte. */
  ghost predicate ShortIds(ids: set<PeerId>, events: seq<Event>) {
    && (forall id :: id in ids ==> |id| <= 255)
    && (forall i :: 0 <= i < |events| && events[i].Switch? ==> |events[i].target| <= 255)
  }

  // ---------------------------------------------------------------- what every step keeps

  ghost predicate IsMax(c: Claim, initial: Claim, applied: set<Claim>) {
    && (c == initial || c in applied)
    && !Supersedes(initial, c)
    && forall d :: d in applied ==> !Supersedes(d, c)
  }

  ghost predicate WasIssued(c: Claim, issued: seq<Issue>) {
    exists k :: 0 <= k < |issued| && issued[k].claim == c
  }

  ghost predicate NodeOk(id: PeerId, n: Node, issued: seq<Issue>) {
    && n.state.self == id
    && n.state.clock == n.state.current.sequence <= |issued|
    && IsMax(n.state.current, Claim(id, id, 0), n.applied)
    && forall c :: c in n.applied ==> WasIssued(c, issued)
  }

  /** A well-stamped issue: no clock is behind what its own machine issued. */
  ghost predicate IssueOk(c: Claim, nodes: map<PeerId, Node>) {
    && |c.target| <= 255 && |c.origin| <= 255
    && c.origin in nodes
    && 1 <= c.sequence <= nodes[c.origin].state.clock
  }

  ghost predicate DistinctStamps(issued: seq<Issue>) {
    forall i, j :: 0 <= i < j < |issued| ==>
      (issued[i].claim.origin, issued[i].claim.sequence) != (issued[j].claim.origin, issued[j].claim.sequence)
  }

  ghost predicate NodesOk(m: Mesh) {
    forall id :: id in m.nodes ==> |id| <= 255 && NodeOk(id, m.nodes[id], m.issued)
  }

  ghost predicate IssuesOk(m: Mesh) {
    forall k :: 0 <= k < |m.issued| ==> IssueOk(m.issued[k].claim, m.nodes)
  }

  ghost predicate Inv(m: Mesh) {
    NodesOk(m) && IssuesOk(m) && DistinctStamps(m.issued)
  }

  lemma ApplyKeepsMax(id: PeerId, n: Node, c: Claim)
    requires n.state.clock == n.state.current.sequence
    requires IsMax(n.state.current, Claim(id, id, 0), n.applied)
    ensures var n' := ApplyAt(n, c);
            && n'.state.clock == n'.state.current.sequence >= n.state.clock
            && n'.state.current.sequence >= c.sequence
            && IsMax(n'.state.current, Claim(id, id, 0), n'.applied)
  {
    var cur := n.state.current;
    if Supersedes(c, cur) {
      forall d | !Supersedes(d, cur)
        ensures !Supersedes(d, c)
      {
        SupersedesMonotone(d, cur, c);
      }
    }
    LessIrreflexive(c.origin);
  }

  lemma NodeOkGrows(id: PeerId, n: Node, issued: seq<Issue>, more: seq<Issue>)
    requires NodeOk(id, n, issued) && issued <= more
    ensures NodeOk(id, n, more)
  {
    forall c | c in n.applied
      ensures WasIssued(c, more)
    {
      assert WasIssued(c, issued);
      var k :| 0 <= k < |issued| && issued[k].claim == c;
      assert more[k].claim == c;
    }
  }

  /** Applying an issued claim keeps a machine's register sound and its clock moving up. */
  lemma ApplyKeepsNode(id: PeerId, n: Node, c: Claim, issued: seq<Issue>)
    requires NodeOk(id, n, issued) && WasIssued(c, issued) && c.sequence <= |issued|
    ensures NodeOk(id, ApplyAt(n, c), issued)
    ensures ApplyAt(n, c).state.clock >= n.state.clock
  {
    ApplyKeepsMax(id, n, c);
  }

  /** A machine's next claim carries a stamp nobody has used. */
  lemma NextStampIsNew(m: Mesh, id: PeerId, target: PeerId, k: nat)
    requires Inv(m) && id in m.nodes && |m.issued| + 1 < U64 && k < |m.issued|
    ensures var c := NextClaim(m.nodes[id].state, target);
            && c.sequence == m.nodes[id].state.clock + 1
            && (m.issued[k].claim.origin, m.issued[k].claim.sequence) != (c.origin, c.sequence)
  {
    assert IssueOk(m.issued[k].claim, m.nodes);
    assert NodeOk(id, m.nodes[id], m.issued);
  }

  lemma IssueKeepsNodes(m: Mesh, id: PeerId, target: PeerId, broadcast: bool)
    requires Inv(m) && id in m.nodes && |m.issued| + 1 < U64
    ensures NodesOk(IssueAt(m, id, target, broadcast))
    ensures IssueAt(m, id, target, broadcast).nodes[id].state.clock == m.nodes[id].state.clock + 1
  {
    var m' := IssueAt(m, id, target, broadcast);
    var c := NextClaim(m.nodes[id].state, target);
    assert m'.issued[|m.issued|].claim == c;
    assert WasIssued(c, m'.issued);
    forall x | x in m.nodes
      ensures NodeOk(x, m.nodes[x], m'.issued)
    {
      NodeOkGrows(x, m.nodes[x], m.issued, m'.issued);
    }
    ApplyKeepsNode(id, m.nodes[id], c, m'.issued);
  }

  lemma IssueKeepsInv(m: Mesh, id: PeerId, target: PeerId, broadcast: bool)
    requires Inv(m) && id in m.nodes && |target| <= 255 && |m.issued| + 1 < U64
    ensures Inv(IssueAt(m, id, target, broadcast))
  {
    var m' := IssueAt(m, id, target, broadcast);
    IssueKeepsNodes(m, id, target, broadcast);
    forall k | 0 <= k < |m'.issued|
      ensures IssueOk(m'.issued[k].claim, m'.nodes)
    {
      if k < |m.issued| { assert IssueOk(m.issued[k].claim, m.nodes); }
    }
    StampsStayDistinct(m, id, target, broadcast);
  }

  lemma StampsStayDistinct(m: Mesh, id: PeerId, target: PeerId, broadcast: bool)
    requires Inv(m) && id in m.nodes && |m.issued| + 1 < U64
    ensures DistinctStamps(IssueAt(m, id, target, broadcast).issued)
  {
    var c := NextClaim(m.nodes[id].state, target);
    forall k | 0 <= k < |m.issued|
      ensures (m.issued[k].claim.origin, m.issued[k].claim.sequence) != (c.origin, c.sequence)
    {
      NextStampIsNew(m, id, target, k);
    }
  }

  lemma DeliverKeepsInv(m: Mesh, id: PeerId, k: nat)
    requires Inv(m) && id in m.nodes && k < |m.issued|
    ensures Inv(m.(nodes := m.nodes[id := ApplyAt(m.nodes[id], m.issued[k].claim)]))
  {
    var c := m.issued[k].claim;
    assert IssueOk(c, m.nodes) && NodeOk(c.origin, m.nodes[c.origin], m.issued);
    ApplyKeepsNode(id, m.nodes[id], c, m.issued);
    var m' := m.(nodes := m.nodes[id := ApplyAt(m.nodes[id], c)]);
    forall j | 0 <= j < |m.issued|
      ensures IssueOk(m'.issued[j].claim, m'.nodes)
    {
      assert IssueOk(m.issued[j].claim, m.nodes);
    }
  }

  /** The wire delivers every reachable issue as it was issued. */
  lemma WireIsFaithful(m: Mesh, k: nat)
    requires Inv(m) && k < |m.issued| && |m.issued| < U64
    ensures DecodeClaim(EncodeClaim(m.issued[k].claim)) == Some(m.issued[k].claim)
  {
    var c := m.issued[k].claim;
    assert IssueOk(c, m.nodes) && NodeOk(c.origin, m.nodes[c.origin], m.issued);
    WireRoundTrip(c);
  }

  lemma StepKeepsInv(m: Mesh, e: Event)
    requires Inv(m) && |Step(m, e).issued| < U64 && (e.Switch? ==> |e.target| <= 255)
    ensures Inv(Step(m, e)) && |m.issued| <= |Step(m, e).issued|
  {
    match e
    case Switch(id, target) => if id in m.nodes { IssueKeepsInv(m, id, target, true); }
    case Revert(id) => if id in m.nodes { IssueKeepsInv(m, id, id, false); }
    case Deliver(id, k) =>
      if id in m.nodes && k < |m.issued| {
        WireIsFaithful(m, k);
        DeliverKeepsInv(m, id, k);
      }
  }

  lemma IssuedNeverShrinks(m: Mesh, e: Event)
    ensures m.issued <= Step(m, e).issued
  {
  }

  lemma {:induction false} RunKeepsInv(ids: set<PeerId>, events: seq<Event>)
    requires ShortIds(ids, events) && |Run(ids, events).issued| < U64
    ensures Inv(Run(ids, events))
  {
    if events == [] {
      forall id | id in ids
        ensures !Supersedes(Claim(id, id, 0), Claim(id, id, 0))
      {
        LessIrreflexive(id);
      }
    } else {
      var before := Run(ids, events[..|events| - 1]);
      IssuedNeverShrinks(before, events[|events| - 1]);
      RunKeepsInv(ids, events[..|events| - 1]);
      StepKeepsInv(before, events[|events| - 1]);
    }
  }

  // ---------------------------------------------------------------- main results

  /** In every run with fewer than 2^64 switches: each machine holds the maximum of its
      initial claim and everything it applied, and no (origin, sequence) is issued twice. */
  lemma EveryNodeHoldsTheMaximum(ids: set<PeerId>, events: seq<Event>)
    requires ShortIds(ids, events) && |Run(ids, events).issued| < U64
    ensures var m := Run(ids, events);
            && DistinctStamps(m.issued)
            && forall id :: id in m.nodes ==>
                 IsMax(m.nodes[id].state.current, Claim(id, id, 0), m.nodes[id].applied)
  {
    RunKeepsInv(ids, events);
  }

  /** Convergence: machines that applied the same non-empty set of claims agree on the owner. */
  lemma Convergence(ids: set<PeerId>, events: seq<Event>, x: PeerId, y: PeerId)
    requires ShortIds(ids, events) && |Run(ids, events).issued| < U64
    requires var m := Run(ids, events);
             x in m.nodes && y in m.nodes && m.nodes[x].applied == m.nodes[y].applied != {}
    ensures var m := Run(ids, events);
            m.nodes[x].state.current == m.nodes[y].state.current
  {
    RunKeepsInv(ids, events);
    var m := Run(ids, events);
    MaxWasIssued(m, x);
    MaxWasIssued(m, y);
    SupersedesTotal(m.nodes[x].state.current, m.nodes[y].state.current);
  }

  lemma MaxWasIssued(m: Mesh, x: PeerId)
    requires Inv(m) && x in m.nodes && m.nodes[x].applied != {}
    ensures m.nodes[x].state.current in m.nodes[x].applied && WasIssued(m.nodes[x].state.current, m.issued)
  {
    var c :| c in m.nodes[x].applied;
    assert WasIssued(c, m.issued);
    var k :| 0 <= k < |m.issued| && m.issued[k].claim == c;
    assert IssueOk(m.issued[k].claim, m.nodes);
  }

  /** Whether a machine adopts a fresh switch of another: what can be checked beforehand. */
  predicate Adopts(receiver: State, issuer: State) {
    || receiver.clock <= issuer.clock
    || (receiver.clock == issuer.clock + 1 && Less(receiver.current.origin, issuer.self))
  }

  /** The exact condition under which a switch reaches one receiver. */
  lemma SwitchAdoptedIff(ids: set<PeerId>, events: seq<Event>, n: PeerId, x: PeerId, target: PeerId)
    requires ShortIds(ids, events) && |Run(ids, events).issued| + 1 < U64
    requires var m := Run(ids, events); n in m.nodes && x in m.nodes && n != x
    ensures var m := Run(ids, events);
            var c := NextClaim(m.nodes[n].state, target);
            Apply(m.nodes[x].state, c).current == c <==> Adopts(m.nodes[x].state, m.nodes[n].state)
  {
    RunKeepsInv(ids, events);
    var m := Run(ids, events);
    assert NodeOk(n, m.nodes[n], m.issued) && NodeOk(x, m.nodes[x], m.issued);
    NextClaimUnheld(m, n, x, target);
  }

  lemma NextClaimUnheld(m: Mesh, n: PeerId, x: PeerId, target: PeerId)
    requires Inv(m) && n in m.nodes && x in m.nodes && |m.issued| + 1 < U64
    ensures m.nodes[x].state.current != NextClaim(m.nodes[n].state, target)
  {
    var cur := m.nodes[x].state.current;
    assert NodeOk(x, m.nodes[x], m.issued) && NodeOk(n, m.nodes[n], m.issued);
    if cur in m.nodes[x].applied {
      assert WasIssued(cur, m.issued);
      var k :| 0 <= k < |m.issued| && m.issued[k].claim == cur;
      NextStampIsNew(m, n, target, k);
    }
  }

  ghost predicate OnlyDeliveries(events: seq<Event>) {
    forall i :: 0 <= i < |events| ==> events[i].Deliver?
  }

  lemma {:induction false} DeliveriesIssueNothing(m: Mesh, more: seq<Event>)
    requires OnlyDeliveries(more)
    ensures RunFrom(m, more).issued == m.issued
  {
    if more != [] { DeliveriesIssueNothing(m, more[..|more| - 1]); }
  }

  lemma {:induction false} RunConcat(m: Mesh, a: seq<Event>, b: seq<Event>)
    ensures RunFrom(m, a + b) == RunFrom(RunFrom(m, a), b)
  {
    if b == [] {
      assert a + b == a;
    } else {
      assert (a + b)[..|a + b| - 1] == a + b[..|b| - 1];
      RunConcat(m, a, b[..|b| - 1]);
    }
  }

  lemma {:induction false} RunGrows(m: Mesh, es: seq<Event>)
    ensures m.issued <= RunFrom(m, es).issued
  {
    if es != [] {
      RunGrows(m, es[..|es| - 1]);
      IssuedNeverShrinks(RunFrom(m, es[..|es| - 1]), es[|es| - 1]);
    }
  }

  lemma RunAround(m: Mesh, a: seq<Event>, e: Event, b: seq<Event>)
    ensures RunFrom(m, a + [e] + b) == RunFrom(Step(RunFrom(m, a), e), b)
  {
    RunConcat(m, a + [e], b);
    assert (a + [e])[..|a|] == a;
  }

  /** While nothing else is issued, a switch by a machine whose clock is at least every other
      clock is what every machine that has received it holds. */
  lemma TopClaimIsHeld(ids: set<PeerId>, events: seq<Event>, n: PeerId, target: PeerId,
                       more: seq<Event>, x: PeerId)
    requires ShortIds(ids, events + [Switch(n, target)] + more) && ShortIds(ids, events)
    requires |Run(ids, events).issued| + 1 < U64
    requires var m := Run(ids, events);
             && n in m.nodes
             && forall y :: y in m.nodes ==> m.nodes[y].state.clock <= m.nodes[n].state.clock
    requires var m, end := Run(ids, events), Run(ids, events + [Switch(n, target)] + more);
             && |end.issued| == |m.issued| + 1
             && x in end.nodes && NextClaim(m.nodes[n].state, target) in end.nodes[x].applied
    ensures Run(ids, events + [Switch(n, target)] + more).nodes[x].state.current
         == NextClaim(Run(ids, events).nodes[n].state, target)
  {
    var m := Run(ids, events);
    RunKeepsInv(ids, events);
    TopClaimIsStrictTop(m, n, target);
    RunAround(Start(ids), events, Switch(n, target), more);
    RunGrows(Step(m, Switch(n, target)), more);
    RunKeepsInv(ids, events + [Switch(n, target)] + more);
    StrictTopIsHeld(Run(ids, events + [Switch(n, target)] + more), x, NextClaim(m.nodes[n].state, target));
  }

  /** Reconciliation: after any history, private reverts included, a switch by a machine
      whose clock is at least every other clock is what every machine that has received it
      holds, whatever older messages arrive before or after it. */
  lemma TopClockSwitchReconciles(ids: set<PeerId>, events: seq<Event>, n: PeerId, target: PeerId,
                                 more: seq<Event>, x: PeerId)
    requires ShortIds(ids, events) && |target| <= 255 && |Run(ids, events).issued| + 1 < U64
    requires var m := Run(ids, events);
             && n in m.nodes
             && forall y :: y in m.nodes ==> m.nodes[y].state.clock <= m.nodes[n].state.clock
    requires OnlyDeliveries(more)
    requires var c := NextClaim(Run(ids, events).nodes[n].state, target);
             var end := Run(ids, events + [Switch(n, target)] + more);
             x in end.nodes && c in end.nodes[x].applied
    ensures var c := NextClaim(Run(ids, events).nodes[n].state, target);
            var end := Run(ids, events + [Switch(n, target)] + more);
            end.nodes[x].state.current == c && end.nodes[x].state.current.target == target
  {
    StillShort(ids, events, n, target, more);
    RunAround(Start(ids), events, Switch(n, target), more);
    DeliveriesIssueNothing(Step(Run(ids, events), Switch(n, target)), more);
    TopClaimIsHeld(ids, events, n, target, more, x);
  }

  lemma StillShort(ids: set<PeerId>, events: seq<Event>, n: PeerId, target: PeerId, more: seq<Event>)
    requires ShortIds(ids, events) && |target| <= 255 && OnlyDeliveries(more)
    ensures ShortIds(ids, events + [Switch(n, target)] + more)
  {
  }

  /** Every other issue is stamped strictly below a top-clock machine's next claim. */
  ghost predicate StrictTop(c: Claim, issued: seq<Issue>) {
    forall k :: 0 <= k < |issued| ==> issued[k].claim == c || issued[k].claim.sequence < c.sequence
  }

  lemma TopClaimIsStrictTop(m: Mesh, n: PeerId, target: PeerId)
    requires Inv(m) && n in m.nodes && |m.issued| + 1 < U64
    requires forall y :: y in m.nodes ==> m.nodes[y].state.clock <= m.nodes[n].state.clock
    ensures var c := NextClaim(m.nodes[n].state, target);
            var m' := Step(m, Switch(n, target));
            |m'.issued| == |m.issued| + 1 && StrictTop(c, m'.issued)
  {
    assert NodeOk(n, m.nodes[n], m.issued);
    forall k | 0 <= k < |m.issued|
      ensures m.issued[k].claim.sequence <= m.nodes[n].state.clock
    {
      assert IssueOk(m.issued[k].claim, m.nodes);
    }
  }

  lemma StrictTopIsHeld(m: Mesh, x: PeerId, c: Claim)
    requires Inv(m) && x in m.nodes && c in m.nodes[x].applied
    requires StrictTop(c, m.issued)
    ensures m.nodes[x].state.current == c
  {
    assert NodeOk(x, m.nodes[x], m.issued);
    MaxWasIssued(m, x);
    var k :| 0 <= k < |m.issued| && m.issued[k].claim == m.nodes[x].state.current;
  }

  /** Without the clock hypothesis the next switch need not re-establish one owner: after
      an outage in which B and C reverted privately, A's switch loses the origin tie at
      both, and three machines name three owners. */
  lemma PrivateRevertsCanOutliveASwitch()
    ensures var A, B, C := [65], [66], [67];
            var m := Run({A, B, C}, Outage(A, B, C));
            && |m.issued| == 4 && m.issued[3] == Issue(Claim(A, A, 2), true)
            && A in m.nodes && B in m.nodes && C in m.nodes
            && Claim(A, A, 2) in m.nodes[B].applied && Claim(A, A, 2) in m.nodes[C].applied
            && m.nodes[A].state.current.target == A
            && m.nodes[B].state.current.target == B
            && m.nodes[C].state.current.target == C
  {
    var A, B, C := [65], [66], [67];
    var m := Start({A, B, C});
    FirstHalf(A, B, C);
    var m3 := Step(Step(Step(m, Switch(A, A)), Deliver(B, 0)), Deliver(C, 0));
    Middle(m3, A, B, C);
    SecondHalf(Step(Step(Step(m3, Revert(B)), Revert(C)), Switch(A, A)), A, B, C);
    RunOfEight(m, Outage(A, B, C));
  }

  /** A owns; B and C learn it, then lose contact and revert; A switches again. */
  function Outage(A: PeerId, B: PeerId, C: PeerId): seq<Event> {
    [Switch(A, A), Deliver(B, 0), Deliver(C, 0), Revert(B), Revert(C),
     Switch(A, A), Deliver(B, 3), Deliver(C, 3)]
  }

  lemma FirstHalf(A: PeerId, B: PeerId, C: PeerId)
    requires A != B && A != C && B != C && |A| <= 255
    ensures var m := Step(Step(Step(Start({A, B, C}), Switch(A, A)), Deliver(B, 0)), Deliver(C, 0));
            && |m.issued| == 1
            && m.nodes.Keys == {A, B, C}
            && m.nodes[A].state == State(A, Claim(A, A, 1), 1)
            && m.nodes[B].state == State(B, Claim(A, A, 1), 1)
            && m.nodes[C].state == State(C, Claim(A, A, 1), 1)
  {
    var m1 := Step(Start({A, B, C}), Switch(A, A));
    assert m1.issued == [Issue(Claim(A, A, 1), true)];
    DeliverIs(m1, B, 0);
    DeliverIs(Step(m1, Deliver(B, 0)), C, 0);
  }

  /** B and C revert privately, then A switches to itself again. */
  lemma Middle(m: Mesh, A: PeerId, B: PeerId, C: PeerId)
    requires A != B && A != C && B != C && |m.issued| == 1 && m.nodes.Keys == {A, B, C}
    requires m.nodes[A].state == State(A, Claim(A, A, 1), 1)
    requires m.nodes[B].state == State(B, Claim(A, A, 1), 1)
    requires m.nodes[C].state == State(C, Claim(A, A, 1), 1)
    ensures var m' := Step(Step(Step(m, Revert(B)), Revert(C)), Switch(A, A));
            && |m'.issued| == 4 && m'.issued[3] == Issue(Claim(A, A, 2), true)
            && m'.nodes.Keys == {A, B, C}
            && m'.nodes[A].state.current == Claim(A, A, 2)
            && m'.nodes[B].state.current == Claim(B, B, 2)
            && m'.nodes[C].state.current == Claim(C, C, 2)
  {
    IssueIs(m, B, B, false);
    IssueIs(Step(m, Revert(B)), C, C, false);
    IssueIs(Step(Step(m, Revert(B)), Revert(C)), A, A, true);
  }

  /** A machine that is at sequence 1 issues and adopts its claim stamped 2. */
  lemma IssueIs(m: Mesh, id: PeerId, target: PeerId, broadcast: bool)
    requires id in m.nodes && m.nodes[id].state.self == id
    requires m.nodes[id].state.clock == m.nodes[id].state.current.sequence == 1
    ensures var m' := IssueAt(m, id, target, broadcast);
            && m'.issued == m.issued + [Issue(Claim(target, id, 2), broadcast)]
            && m'.nodes.Keys == m.nodes.Keys
            && m'.nodes[id].state.current == Claim(target, id, 2)
            && forall x :: x in m.nodes && x != id ==> m'.nodes[x] == m.nodes[x]
  {
  }

  lemma DeliverIs(m: Mesh, id: PeerId, k: nat)
    requires id in m.nodes && k < |m.issued| && m.issued[k].broadcast
    requires var c := m.issued[k].claim; c.sequence < U64 && |c.target| <= 255 && |c.origin| <= 255
    ensures Step(m, Deliver(id, k)) == Mesh(m.nodes[id := ApplyAt(m.nodes[id], m.issued[k].claim)], m.issued)
  {
    WireRoundTrip(m.issued[k].claim);
  }

  lemma SecondHalf(m: Mesh, A: PeerId, B: PeerId, C: PeerId)
    requires A in m.nodes && B in m.nodes && C in m.nodes && A != B && A != C && B != C && |A| <= 255
    requires |m.issued| == 4 && m.issued[3] == Issue(Claim(A, A, 2), true)
    requires m.nodes[B].state.current == Claim(B, B, 2) && m.nodes[C].state.current == Claim(C, C, 2)
    requires Less(A, B) && Less(A, C)
    ensures var m' := Step(Step(m, Deliver(B, 3)), Deliver(C, 3));
            && m'.issued == m.issued && m'.nodes.Keys == m.nodes.Keys
            && m'.nodes[A] == m.nodes[A]
            && m'.nodes[B].state.current == Claim(B, B, 2) && m'.nodes[C].state.current == Claim(C, C, 2)
            && Claim(A, A, 2) in m'.nodes[B].applied && Claim(A, A, 2) in m'.nodes[C].applied
  {
    DeliverIs(m, B, 3);
    DeliverIs(Step(m, Deliver(B, 3)), C, 3);
    LessAsymmetric(A, B);
    LessAsymmetric(A, C);
  }

  lemma RunOfEight(m: Mesh, es: seq<Event>)
    requires |es| == 8
    ensures RunFrom(m, es) ==
            Step(Step(Step(Step(Step(Step(Step(Step(m, es[0]), es[1]), es[2]), es[3]), es[4]), es[5]), es[6]), es[7])
  {
    assert es[..7][..6] == es[..6] && es[..6][..5] == es[..5] && es[..5][..4] == es[..4];
    assert es[..4][..3] == es[..3] && es[..3][..2] == es[..2] && es[..2][..1] == es[..1];
    assert es[..1][..0] == [];
    assert RunFrom(m, es[..1]) == Step(m, es[0]);
    assert RunFrom(m, es[..2]) == Step(RunFrom(m, es[..1]), es[1]);
    assert RunFrom(m, es[..3]) == Step(RunFrom(m, es[..2]), es[2]);
    assert RunFrom(m, es[..4]) == Step(RunFrom(m, es[..3]), es[3]);
    assert RunFrom(m, es[..5]) == Step(RunFrom(m, es[..4]), es[4]);
    assert RunFrom(m, es[..6]) == Step(RunFrom(m, es[..5]), es[5]);
    assert RunFrom(m, es[..7]) == Step(RunFrom(m, es[..6]), es[6]);
  }
}
