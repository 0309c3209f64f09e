/** Whole mesh nodes on a network: however their polls, removals, switches and fail-safe
    reverts interleave, and in whatever order their broadcasts arrive, their registers go
    through a run of `OwnershipMesh`; so its theorems hold of the nodes themselves. */
module MeshNetwork {
  import opened ByteStrings
  import opened Ownership
  import opened MeshModel
  import opened MeshRegister
  import M = MessageCodec
  import O = OwnershipMesh

  /** A node together with every claim its register has applied. */
  datatype Member = Member(node: Node, applied: set<Claim>)

  /** `sent` are the claims broadcast so far; `issues` also counts the private reverts. */
  datatype Net = Net(members: map<PeerId, Member>, sent: seq<Claim>, issues: nat)

  /** One step of one node. */
  datatype Move = Move(at: PeerId, event: Event)

  function Start(ids: set<PeerId>, timeout: nat, interval: nat): Net {
    Net(map id | id in ids :: Member(NewNode(id, timeout, interval), {}), [], 0)
  }

  // ---------------------------------------------------------------- one node's register

  /** A claim a node issues: for whom, and whether it is broadcast. */
  datatype Own = Nothing | Claims(target: PeerId, broadcast: bool)

  predicate Reverts(n: Node, now: nat) { !IsLocalOwner(n) && !Alive(n, n.own.current.target, now) }

  /** What a step makes the node claim itself, after it has heard what it hears. */
  function Issues(n: Node, e: Event): Own {
    match e
    case Switch(target) => if Reachable(n, target) then Claims(target, true) else Nothing
    case Remove(id, _) => if Reverts(Forget(n, id), n.now) then Claims(n.self, false) else Nothing
    case PollAt(now, order, inbox) =>
      if Reverts(Receive(n.(now := now), order, inbox, now), now) then Claims(n.self, false) else Nothing
    case _ => Nothing
  }

  function AfterIssue(s: State, own: Own): State {
    if own.Nothing? then s else Apply(s, NextClaim(s, own.target))
  }

  /** A step of the protocol is, for the register: apply what was heard, then what is issued. */
  lemma StepRegister(n: Node, e: Event)
    requires Legal(n, e)
    ensures Step(n, e).own == AfterIssue(ApplyAll(n.own, StepHears(n, e)), Issues(n, e))
  {
    match e
    case Remove(id, order) => RefreshRegister(Forget(n, id), order, n.now);
    case PollAt(now, order, inbox) =>
      var q := n.(now := now);
      ReceiveRegister(q, order, inbox, now);
      ReceiveKeepsSelf(q, order, inbox, now);
      RefreshRegister(Receive(q, order, inbox, now), order, now);
    case _ =>
  }

  lemma StepSelf(n: Node, e: Event)
    requires Legal(n, e)
    ensures Step(n, e).self == n.self
  {
    match e
    case Remove(id, order) => RefreshSelf(Forget(n, id), order, n.now);
    case PollAt(now, order, inbox) =>
      ReceiveKeepsSelf(n.(now := now), order, inbox, now);
      RefreshSelf(Receive(n.(now := now), order, inbox, now), order, now);
    case _ =>
  }

  lemma RefreshSelf(n: Node, order: seq<PeerId>, now: nat)
    requires forall i, j :: 0 <= i < j < |order| ==> order[i] != order[j]
    ensures Refresh(n, order, now).self == n.self
  {
    RefreshPeersFacts(n.(elect := [n.self]), order, now);
  }

  // ---------------------------------------------------------------- the net

  function Elements(cs: seq<Claim>): set<Claim> { set c | c in cs }

  function StepNet(w: Net, mv: Move): Net {
    if mv.at !in w.members then w
    else
      var x := w.members[mv.at];
      var heard, own := StepHears(x.node, mv.event), Issues(x.node, mv.event);
      var c := NextClaim(ApplyAll(x.node.own, heard), if own.Claims? then own.target else []);
      Net(w.members[mv.at := Member(Step(x.node, mv.event),
                                    x.applied + Elements(heard) + (if own.Claims? then {c} else {}))],
          if own.Claims? && own.broadcast then w.sent + [c] else w.sent,
          if own.Claims? then w.issues + 1 else w.issues)
  }

  function RunNet(w: Net, moves: seq<Move>): Net {
    if moves == [] then w else StepNet(RunNet(w, moves[..|moves| - 1]), moves[|moves| - 1])
  }

  /** A message is a broadcast switch, or not a switch at all. */
  ghost predicate FromMesh(msg: Bytes, sent: seq<Claim>) {
    ClaimIn(msg) == [] || exists k :: 0 <= k < |sent| && msg == SwitchMessage(sent[k])
  }

  /** The node's own step is legal, and every switch it is handed was broadcast by a node. */
  ghost predicate LegalMove(w: Net, mv: Move) {
    mv.at in w.members ==>
      && Legal(w.members[mv.at].node, mv.event)
      && (mv.event.PollAt? ==>
            forall id, i :: 0 <= i < |mv.event.inbox(id)| ==> FromMesh(mv.event.inbox(id)[i], w.sent))
  }

  ghost predicate LegalMoves(w: Net, moves: seq<Move>) {
    moves == [] ||
    (LegalMoves(w, moves[..|moves| - 1]) && LegalMove(RunNet(w, moves[..|moves| - 1]), moves[|moves| - 1]))
  }

  /** `c` is what a broadcast claim becomes on the wire. */
  ghost predicate OnWire(c: Claim, sent: seq<Claim>) {
    exists k :: 0 <= k < |sent| && DecodeClaim(EncodeClaim(sent[k])) == Some(c)
  }

  lemma MessageOnWire(msg: Bytes, sent: seq<Claim>)
    requires FromMesh(msg, sent) && forall k :: 0 <= k < |sent| ==> |EncodeClaim(sent[k])| <= 520
    ensures forall c :: c in ClaimIn(msg) ==> OnWire(c, sent)
  {
    if ClaimIn(msg) != [] {
      var k :| 0 <= k < |sent| && msg == SwitchMessage(sent[k]);
      M.VarRoundTrip(M.SWITCH_OWNER, EncodeClaim(sent[k]), []);
      assert msg + [] == msg;
    }
  }

  lemma ClaimIsShort(c: Claim)
    ensures |EncodeClaim(c)| <= 520
  {
  }

  lemma {:induction false} MessagesOnWire(msgs: seq<Bytes>, sent: seq<Claim>)
    requires forall i :: 0 <= i < |msgs| ==> FromMesh(msgs[i], sent)
    ensures forall c :: c in ClaimsIn(msgs) ==> OnWire(c, sent)
    decreases msgs
  {
    if msgs != [] {
      forall k | 0 <= k < |sent|
        ensures |EncodeClaim(sent[k])| <= 520
      {
        ClaimIsShort(sent[k]);
      }
      MessageOnWire(msgs[0], sent);
      MessagesOnWire(msgs[1..], sent);
    }
  }

  lemma {:induction false} HeardOnWire(peers: map<PeerId, bool>, order: seq<PeerId>, inbox: PeerId -> seq<Bytes>,
                                       sent: seq<Claim>)
    requires forall id, i :: 0 <= i < |inbox(id)| ==> FromMesh(inbox(id)[i], sent)
    ensures forall c :: c in ClaimsHeard(peers, order, inbox) ==> OnWire(c, sent)
    decreases order
  {
    if order != [] {
      MessagesOnWire(inbox(order[0]), sent);
      HeardOnWire(peers, order[1..], inbox, sent);
    }
  }

  // ---------------------------------------------------------------- simulation

  ghost predicate SentIssued(sent: seq<Claim>, issued: seq<O.Issue>) {
    forall k :: 0 <= k < |sent| ==> O.Issue(sent[k], true) in issued
  }

  /** The register of each node, and the claims behind it, are those of the abstract mesh. */
  ghost predicate Simulates(w: Net, m: O.Mesh) {
    && m.nodes.Keys == w.members.Keys && |m.issued| == w.issues
    && (forall id :: id in w.members ==>
          && w.members[id].node.self == w.members[id].node.own.self == id
          && m.nodes[id] == O.Node(w.members[id].node.own, w.members[id].applied))
    && SentIssued(w.sent, m.issued)
  }

  lemma {:induction false} ApplyAllSelf(s: State, cs: seq<Claim>)
    ensures ApplyAll(s, cs).self == s.self
    decreases cs
  {
    if cs != [] { ApplyAllSelf(Apply(s, cs[0]), cs[1..]); }
  }

  function Heard(x: O.Node, cs: seq<Claim>): O.Node {
    O.Node(ApplyAll(x.state, cs), x.applied + Elements(cs))
  }

  lemma HeardFirst(x: O.Node, cs: seq<Claim>)
    requires cs != []
    ensures Heard(x, cs) == Heard(O.ApplyAt(x, cs[0]), cs[1..])
  {
    assert cs == [cs[0]] + cs[1..];
    assert Elements(cs) == {cs[0]} + Elements(cs[1..]);
    assert x.applied + Elements(cs) == x.applied + {cs[0]} + Elements(cs[1..]);
  }

  /** Hearing claims off the wire is a sequence of deliveries. */
  lemma {:induction false} HearingIsDelivery(m: O.Mesh, id: PeerId, cs: seq<Claim>, sent: seq<Claim>)
    returns (es: seq<O.Event>)
    requires id in m.nodes && SentIssued(sent, m.issued)
    requires forall c :: c in cs ==> OnWire(c, sent)
    ensures O.OnlyDeliveries(es)
    ensures O.RunFrom(m, es) == O.Mesh(m.nodes[id := Heard(m.nodes[id], cs)], m.issued)
    decreases cs
  {
    if cs == [] {
      es := [];
      assert m.nodes[id].applied + Elements([]) == m.nodes[id].applied;
      assert m.nodes[id := m.nodes[id]] == m.nodes;
    } else {
      var e := ClaimIsDelivery(m, id, cs[0], sent);
      var rest := HearingIsDelivery(O.Step(m, e), id, cs[1..], sent);
      es := [e] + rest;
      OneThenRest(m, e, rest);
      HeardFirst(m.nodes[id], cs);
      Overwrites(m.nodes, id, O.ApplyAt(m.nodes[id], cs[0]), Heard(m.nodes[id], cs));
    }
  }

  lemma Overwrites(nodes: map<PeerId, O.Node>, id: PeerId, a: O.Node, b: O.Node)
    ensures nodes[id := a][id := b] == nodes[id := b]
  {
  }

  lemma ClaimIsDelivery(m: O.Mesh, id: PeerId, c: Claim, sent: seq<Claim>) returns (e: O.Event)
    requires id in m.nodes && SentIssued(sent, m.issued) && OnWire(c, sent)
    ensures e.Deliver? && O.Step(m, e) == O.Mesh(m.nodes[id := O.ApplyAt(m.nodes[id], c)], m.issued)
  {
    var k :| 0 <= k < |sent| && DecodeClaim(EncodeClaim(sent[k])) == Some(c);
    var j :| 0 <= j < |m.issued| && m.issued[j] == O.Issue(sent[k], true);
    DeliverOne(m, id, j, c);
    e := O.Deliver(id, j);
  }

  lemma DeliverOne(m: O.Mesh, id: PeerId, j: nat, c: Claim)
    requires id in m.nodes && j < |m.issued| && m.issued[j].broadcast
    requires DecodeClaim(EncodeClaim(m.issued[j].claim)) == Some(c)
    ensures O.Step(m, O.Deliver(id, j)) == O.Mesh(m.nodes[id := O.ApplyAt(m.nodes[id], c)], m.issued)
  {
  }

  lemma OneThenRest(m: O.Mesh, e: O.Event, rest: seq<O.Event>)
    ensures O.RunFrom(m, [e] + rest) == O.RunFrom(O.Step(m, e), rest)
  {
    O.RunConcat(m, [e], rest);
    assert [e][..0] == [];
    assert O.RunFrom(m, [e]) == O.Step(O.RunFrom(m, []), e);
  }

  /** Switches in `es` name short targets. */
  ghost predicate ShortTargets(es: seq<O.Event>) {
    forall i :: 0 <= i < |es| && es[i].Switch? ==> |es[i].target| <= 255
  }

  ghost predicate ShortMoves(moves: seq<Move>) {
    forall i :: 0 <= i < |moves| && moves[i].event.Switch? ==> |moves[i].event.target| <= 255
  }

  /** The abstract mesh when the register of `id` is `s` and has applied `applied`. */
  ghost predicate Matches(w: Net, m: O.Mesh, id: PeerId, s: State, applied: set<Claim>) {
    && id in w.members && m.nodes.Keys == w.members.Keys
    && |m.issued| == w.issues && SentIssued(w.sent, m.issued)
    && (forall x :: x in w.members && x != id ==>
          && w.members[x].node.self == w.members[x].node.own.self == x
          && m.nodes[x] == O.Node(w.members[x].node.own, w.members[x].applied))
    && m.nodes[id] == O.Node(s, applied)
  }

  lemma QuietSimulates(w: Net, m: O.Mesh, id: PeerId, n: Node, applied: set<Claim>)
    requires Matches(w, m, id, n.own, applied) && n.self == n.own.self == id
    ensures Simulates(w.(members := w.members[id := Member(n, applied)]), m)
  {
  }

  lemma IssueSimulates(w: Net, m: O.Mesh, id: PeerId, s: State, applied: set<Claim>, n: Node, own: Own)
    requires Matches(w, m, id, s, applied) && own.Claims? && (!own.broadcast ==> own.target == id)
    requires n.own == Apply(s, NextClaim(s, own.target)) && n.self == s.self == id
    ensures var c := NextClaim(s, own.target);
            var w' := Net(w.members[id := Member(n, applied + {c})],
                          if own.broadcast then w.sent + [c] else w.sent, w.issues + 1);
            var m' := O.Step(m, if own.broadcast then O.Switch(id, own.target) else O.Revert(id));
            Simulates(w', m') && m.issued <= m'.issued
  {
    var m' := O.IssueAt(m, id, own.target, own.broadcast);
    var c := NextClaim(s, own.target);
    assert m'.issued[|m.issued|] == O.Issue(c, own.broadcast);
    forall k | 0 <= k < |w.sent|
      ensures O.Issue(w.sent[k], true) in m'.issued
    {
      assert O.Issue(w.sent[k], true) in m.issued;
    }
  }

  /** One step of one node is a stretch of the abstract mesh's run. */
  lemma StepSimulates(w: Net, m: O.Mesh, mv: Move) returns (es: seq<O.Event>)
    requires Simulates(w, m) && LegalMove(w, mv)
    requires mv.event.Switch? ==> |mv.event.target| <= 255
    ensures ShortTargets(es) && Simulates(StepNet(w, mv), O.RunFrom(m, es))
    ensures m.issued <= O.RunFrom(m, es).issued
  {
    es := [];
    if mv.at in w.members {
      var id, x := mv.at, w.members[mv.at];
      var heard, own := StepHears(x.node, mv.event), Issues(x.node, mv.event);
      StepHeardOnWire(w, mv);
      es := HearingIsDelivery(m, id, heard, w.sent);
      var m1 := O.RunFrom(m, es);
      HearingMatches(w, m, id, heard);
      StepKeepsRegister(x.node, mv.event, id);
      if own.Claims? {
        var e := if own.broadcast then O.Switch(id, own.target) else O.Revert(id);
        RunThen(m, es, e);
        IssueSimulates(w, m1, id, ApplyAll(x.node.own, heard), x.applied + Elements(heard),
                       Step(x.node, mv.event), own);
        es := es + [e];
      } else {
        assert x.applied + Elements(heard) + {} == x.applied + Elements(heard);
        QuietSimulates(w, m1, id, Step(x.node, mv.event), x.applied + Elements(heard));
      }
    }
  }

  lemma RunThen(m: O.Mesh, es: seq<O.Event>, e: O.Event)
    ensures O.RunFrom(m, es + [e]) == O.Step(O.RunFrom(m, es), e)
  {
    O.RunConcat(m, es, [e]);
    OneThenRest(O.RunFrom(m, es), e, []);
  }

  lemma HearingMatches(w: Net, m: O.Mesh, id: PeerId, heard: seq<Claim>)
    requires Simulates(w, m) && id in w.members
    ensures var x := w.members[id];
            Matches(w, O.Mesh(m.nodes[id := Heard(m.nodes[id], heard)], m.issued), id,
                    ApplyAll(x.node.own, heard), x.applied + Elements(heard))
  {
  }

  lemma StepKeepsRegister(n: Node, e: Event, id: PeerId)
    requires Legal(n, e) && n.self == n.own.self == id
    ensures Step(n, e).self == Step(n, e).own.self == ApplyAll(n.own, StepHears(n, e)).self == id
    ensures Step(n, e).own == AfterIssue(ApplyAll(n.own, StepHears(n, e)), Issues(n, e))
    ensures match Issues(n, e)
            case Nothing => true
            case Claims(target, broadcast) => if broadcast then e == Switch(target) else target == id
  {
    StepRegister(n, e);
    StepSelf(n, e);
    ApplyAllSelf(n.own, StepHears(n, e));
    IssuesForItself(n, e);
  }

  lemma StepHeardOnWire(w: Net, mv: Move)
    requires mv.at in w.members && LegalMove(w, mv)
    ensures forall c :: c in StepHears(w.members[mv.at].node, mv.event) ==> OnWire(c, w.sent)
  {
    if mv.event.PollAt? {
      HeardOnWire(w.members[mv.at].node.peers, mv.event.order, mv.event.inbox, w.sent);
    }
  }

  lemma IssuesForItself(n: Node, e: Event)
    ensures match Issues(n, e)
            case Nothing => true
            case Claims(target, broadcast) => if broadcast then e == Switch(target) else target == n.self
  {
  }

  /** Every run of the nodes is a run of the abstract mesh. */
  lemma {:induction false} RunSimulates(w: Net, m: O.Mesh, moves: seq<Move>) returns (es: seq<O.Event>)
    requires Simulates(w, m) && LegalMoves(w, moves) && ShortMoves(moves)
    ensures ShortTargets(es) && Simulates(RunNet(w, moves), O.RunFrom(m, es))
    ensures m.issued <= O.RunFrom(m, es).issued
  {
    es := [];
    if moves != [] {
      var prefix, mv := moves[..|moves| - 1], moves[|moves| - 1];
      es := RunSimulates(w, m, prefix);
      var more := StepSimulates(RunNet(w, prefix), O.RunFrom(m, es), mv);
      O.RunConcat(m, es, more);
      es := es + more;
    }
  }

  lemma StartSimulates(ids: set<PeerId>, timeout: nat, interval: nat)
    ensures Simulates(Start(ids, timeout, interval), O.Start(ids))
  {
  }

  // ---------------------------------------------------------------- main results

  ghost predicate ShortNames(ids: set<PeerId>) { forall id :: id in ids ==> |id| <= 255 }

  /** Convergence of mesh nodes: in every run of any number of nodes that add and remove
      peers, fall silent, revert, switch and poll as they like, two nodes that have applied
      the same non-empty set of claims name the same owner. */
  lemma NodesConverge(ids: set<PeerId>, timeout: nat, interval: nat, moves: seq<Move>, x: PeerId, y: PeerId)
    requires ShortNames(ids) && ShortMoves(moves) && LegalMoves(Start(ids, timeout, interval), moves)
    requires var w := RunNet(Start(ids, timeout, interval), moves);
             && w.issues < U64 && x in w.members && y in w.members
             && w.members[x].applied == w.members[y].applied != {}
    ensures var w := RunNet(Start(ids, timeout, interval), moves);
            w.members[x].node.own.current == w.members[y].node.own.current
  {
    StartSimulates(ids, timeout, interval);
    var es := RunSimulates(Start(ids, timeout, interval), O.Start(ids), moves);
    O.Convergence(ids, es, x, y);
  }

  /** Reconciliation of mesh nodes: after any such run, an accepted switch by a node whose
      clock is at least every other node's is what every node that has received it holds,
      whatever else happens, until some node switches or reverts again. */
  lemma NodesReconcile(ids: set<PeerId>, timeout: nat, interval: nat, moves: seq<Move>, n: PeerId,
                       target: PeerId, more: seq<Move>, x: PeerId)
    requires ShortNames(ids) && ShortMoves(moves) && |target| <= 255 && ShortMoves(more)
    requires LegalMoves(Start(ids, timeout, interval), moves)
    requires var w := RunNet(Start(ids, timeout, interval), moves);
             && w.issues + 1 < U64 && n in w.members && Reachable(w.members[n].node, target)
             && (forall y :: y in w.members ==> w.members[y].node.own.clock <= w.members[n].node.own.clock)
             && var w1 := StepNet(w, Move(n, Switch(target)));
                var w2 := RunNet(w1, more);
                && LegalMoves(w1, more) && w2.issues == w1.issues && x in w2.members
                && NextClaim(w.members[n].node.own, target) in w2.members[x].applied
    ensures var w := RunNet(Start(ids, timeout, interval), moves);
            var w2 := RunNet(StepNet(w, Move(n, Switch(target))), more);
            && w2.members[x].node.own.current == NextClaim(w.members[n].node.own, target)
            && w2.members[x].node.own.current.target == target
  {
    var w0 := Start(ids, timeout, interval);
    var w := RunNet(w0, moves);
    var w1 := StepNet(w, Move(n, Switch(target)));
    StartSimulates(ids, timeout, interval);
    var es := RunSimulates(w0, O.Start(ids), moves);
    SwitchSimulates(w, O.Run(ids, es), n, target);
    var e := O.Switch(n, target);
    var es2 := RunSimulates(w1, O.Step(O.Run(ids, es), e), more);
    O.RunAround(O.Start(ids), es, e, es2);
    ShortRun(ids, es, e, es2);
    HeldBySimulation(w, RunNet(w1, more), ids, es, n, target, es2, x);
  }

  lemma ShortRun(ids: set<PeerId>, a: seq<O.Event>, e: O.Event, b: seq<O.Event>)
    requires ShortNames(ids) && ShortTargets(a) && (e.Switch? ==> |e.target| <= 255) && ShortTargets(b)
    ensures O.ShortIds(ids, a) && O.ShortIds(ids, a + [e] + b)
  {
  }

  lemma HeldBySimulation(w: Net, w2: Net, ids: set<PeerId>, es: seq<O.Event>, n: PeerId, target: PeerId,
                         es2: seq<O.Event>, x: PeerId)
    requires O.ShortIds(ids, es) && O.ShortIds(ids, es + [O.Switch(n, target)] + es2)
    requires Simulates(w, O.Run(ids, es)) && Simulates(w2, O.Run(ids, es + [O.Switch(n, target)] + es2))
    requires w.issues + 1 < U64 && w2.issues == w.issues + 1 && n in w.members && x in w2.members
    requires forall y :: y in w.members ==> w.members[y].node.own.clock <= w.members[n].node.own.clock
    requires NextClaim(w.members[n].node.own, target) in w2.members[x].applied
    ensures w2.members[x].node.own.current == NextClaim(w.members[n].node.own, target)
  {
    var m := O.Run(ids, es);
    assert forall y :: y in m.nodes ==> m.nodes[y].state == w.members[y].node.own;
    O.TopClaimIsHeld(ids, es, n, target, es2, x);
  }

  lemma SwitchSimulates(w: Net, m: O.Mesh, n: PeerId, target: PeerId)
    requires Simulates(w, m) && n in w.members && Reachable(w.members[n].node, target)
    ensures Simulates(StepNet(w, Move(n, Switch(target))), O.Step(m, O.Switch(n, target)))
  {
    var x := w.members[n];
    assert x.applied + Elements([]) == x.applied;
    IssueSimulates(w, m, n, x.node.own, x.applied, Step(x.node, Switch(target)), Claims(target, true));
  }
}
