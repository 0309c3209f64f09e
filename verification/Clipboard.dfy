/** Clipboard loop prevention (src/core/clipboard_sync.cpp) in a mesh where every local
    clipboard write fires the change listener again (src/app/mesh_node.cpp:81-86, 168-173). */
module Clipboard {
  import opened ByteStrings
  import M = MessageCodec

  // ---------------------------------------------------------------- one machine

  const FNV_OFFSET: nat := 1469598103934665603
  const FNV_PRIME: nat := 1099511628211

  /** One FNV-1a round: xor into the low byte, multiply modulo 2^64. */
  function FnvRound(h: nat, c: byte): nat {
    (h - h % 256 + Xor(h % 256, c)) * FNV_PRIME % U64
  }

  function Hash(s: Bytes): nat {
    if s == [] then FNV_OFFSET else FnvRound(Hash(s[..|s| - 1]), s[|s| - 1])
  }

  /** A round is exclusive or and product of 64-bit words, and an empty text hashes to the
      starting value. */
  lemma RoundIsFnv1a(h: nat, c: byte)
    requires h < U64
    ensures FnvRound(h, c) == XorBits(h, c, 64) * 1099511628211 % U64 && Hash([]) == 1469598103934665603
  {
    XorLowByte(h, c);
  }

  datatype Sync = Sync(hasPending: bool, pendingHash: nat)

  function NoteApplied(s: Sync, text: Bytes): Sync { Sync(true, Hash(text)) }

  predicate ShouldBroadcast(s: Sync, text: Bytes) { !(s.hasPending && Hash(text) == s.pendingHash) }

  function AfterLocalChange(s: Sync): Sync { s.(hasPending := false) }

  class ClipboardSync {
    var pendingRemoteHash: nat
    var hasPending: bool

    function View(): Sync
      reads this
    {
      Sync(hasPending, pendingRemoteHash)
    }

    constructor ()
      ensures View() == Sync(false, 0)
    {
      pendingRemoteHash, hasPending := 0, false;
    }

    static method ComputeHash(s: Bytes) returns (h: nat)
      ensures h == Hash(s)
    {
      h := FNV_OFFSET;
      for i := 0 to |s|
        invariant h == Hash(s[..i])
      {
        assert s[..i + 1][..i] == s[..i];
        h := FnvRound(h, s[i]);
      }
      assert s[..|s|] == s;
    }

    method NoteAppliedRemote(text: Bytes)
      modifies this
      ensures View() == NoteApplied(old(View()), text)
    {
      pendingRemoteHash := ComputeHash(text);
      hasPending := true;
    }

    method ShouldBroadcastLocalChange(text: Bytes) returns (b: bool)
      modifies this`hasPending
      ensures b <==> ShouldBroadcast(old(View()), text)
      ensures View() == AfterLocalChange(old(View()))
    {
      var h := ComputeHash(text);
      if hasPending && h == pendingRemoteHash {
        hasPending := false;
        return false;
      }
      hasPending := false;
      b := true;
    }
  }

  /** The suppression covers one update: when a second one is applied before the first
      one's echo, that echo is taken for a local change unless the two hash alike. */
  lemma BackToBackUpdates(s: Sync, first: Bytes, second: Bytes)
    ensures ShouldBroadcast(NoteApplied(NoteApplied(s, first), second), first) <==> Hash(first) != Hash(second)
    ensures var t := AfterLocalChange(NoteApplied(NoteApplied(s, first), second));
            ShouldBroadcast(t, second)
  {
  }

  // ---------------------------------------------------------------- the mesh

  /** The receive buffer of a poll. */
  const POLL_BUFFER: nat := 8192

  /** Texts whose update fits the receive buffer. */
  predicate Arriving(text: Bytes) { 6 + |text| <= POLL_BUFFER }

  function Update(text: Bytes): Bytes { M.EncodeVar(M.CLIPBOARD_UPDATE, text) }

  /** An update is understood by the receiving poll exactly when it fits the buffer. */
  lemma UnderstoodIffFits(text: Bytes)
    requires |text| < U32
    ensures var heard := if Arriving(text) then Update(text) else Update(text)[..POLL_BUFFER];
            M.Decode(heard) == M.Var(M.CLIPBOARD_UPDATE, text, 6 + |text|) <==> Arriving(text)
    ensures !Arriving(text) ==> !M.Decode(Update(text)[..POLL_BUFFER]).Var?
  {
    M.VarRoundTrip(M.CLIPBOARD_UPDATE, text, []);
    assert Update(text) + [] == Update(text);
    if !Arriving(text) { M.TruncatedIsNoMessage(M.CLIPBOARD_UPDATE, text, POLL_BUFFER); }
  }

  /** `echo` is the change notification a remote write still owes this machine. */
  datatype Machine = Machine(sync: Sync, echo: Option<Bytes>)

  datatype Packet = Packet(to: PeerId, text: Bytes)

  datatype Mesh = Mesh(machines: map<PeerId, Machine>, inFlight: seq<Packet>,
                       sent: nat, echoSent: nat, changes: nat)

  /** The user copies something; message `k` arrives, and is dropped if it does not fit the
      buffer; a machine's listener fires for the write it just made. `order` is the broadcast
      loop over the other machines. */
  datatype Event = UserCopies(at: PeerId, text: Bytes, order: seq<PeerId>) | Arrives(k: nat)
                 | Echoes(at: PeerId, order: seq<PeerId>)

  function Start(ids: set<PeerId>): Mesh {
    Mesh(map id | id in ids :: Machine(Sync(false, 0), None), [], 0, 0, 0)
  }

  function Packets(order: seq<PeerId>, text: Bytes): (r: seq<Packet>)
    ensures |r| == |order| && forall i :: 0 <= i < |r| ==> r[i] == Packet(order[i], text)
  {
    seq(|order|, i requires 0 <= i < |order| => Packet(order[i], text))
  }

  /** `order` visits each other machine once. */
  ghost predicate Others(order: seq<PeerId>, ids: set<PeerId>, at: PeerId) {
    && (forall i, j :: 0 <= i < j < |order| ==> order[i] != order[j])
    && (forall id :: id in order <==> id in ids && id != at)
  }

  /** A clipboard event other than the echo waits until the pending echo has fired. */
  ghost predicate Enabled(m: Mesh, e: Event) {
    match e
    case UserCopies(at, _, order) => at in m.machines && m.machines[at].echo.None? && Others(order, m.machines.Keys, at)
    case Arrives(k) => k < |m.inFlight| && m.inFlight[k].to in m.machines && m.machines[m.inFlight[k].to].echo.None?
    case Echoes(at, order) => at in m.machines && m.machines[at].echo.Some? && Others(order, m.machines.Keys, at)
  }

  /** The change listener at a machine: broadcast or not, as the machine decides. */
  function LocalChange(m: Mesh, at: PeerId, text: Bytes, order: seq<PeerId>): Mesh
    requires at in m.machines
  {
    var x := m.machines[at];
    var next := m.(machines := m.machines[at := Machine(AfterLocalChange(x.sync), None)]);
    if ShouldBroadcast(x.sync, text) then
      next.(inFlight := m.inFlight + Packets(order, text), sent := m.sent + |order|)
    else next
  }

  ghost function Step(m: Mesh, e: Event): Mesh {
    if !Enabled(m, e) then m
    else match e
         case UserCopies(at, text, order) =>
           LocalChange(m, at, text, order).(changes := m.changes + 1)
         case Arrives(k) =>
           var p := m.inFlight[k];
           var x := m.machines[p.to];
           var left := m.inFlight[..k] + m.inFlight[k + 1..];
           if !Arriving(p.text) then m.(inFlight := left)
           else m.(machines := m.machines[p.to := Machine(NoteApplied(x.sync, p.text), Some(p.text))],
                   inFlight := left)
         case Echoes(at, order) =>
           var next := LocalChange(m, at, m.machines[at].echo.value, order);
           next.(echoSent := m.echoSent + (next.sent - m.sent))
  }

  ghost function Run(m: Mesh, events: seq<Event>): Mesh {
    if events == [] then m else Step(Run(m, events[..|events| - 1]), events[|events| - 1])
  }

  /** A machine suppresses exactly while it owes an echo, and remembers that echo's text. */
  ghost predicate MachineOk(x: Machine) {
    (x.sync.hasPending <==> x.echo.Some?) && (x.echo.Some? ==> x.sync.pendingHash == Hash(x.echo.value))
  }

  ghost predicate Inv(m: Mesh, ids: set<PeerId>) {
    && m.machines.Keys == ids
    && (forall id :: id in ids ==> MachineOk(m.machines[id]))
    && (forall k :: 0 <= k < |m.inFlight| ==> m.inFlight[k].to in ids)
    && m.echoSent == 0
    && m.sent == m.changes * (|ids| - 1)
  }

  lemma {:induction false} DistinctSize(s: seq<PeerId>, ids: set<PeerId>)
    requires forall i, j :: 0 <= i < j < |s| ==> s[i] != s[j]
    requires forall id :: id in s <==> id in ids
    ensures |s| == |ids|
  {
    if s == [] {
      assert ids == {};
    } else {
      var last := s[|s| - 1];
      var rest := s[..|s| - 1];
      assert forall id :: id in rest <==> id in ids - {last};
      DistinctSize(rest, ids - {last});
    }
  }

  lemma StepKeepsInv(m: Mesh, ids: set<PeerId>, e: Event)
    requires Inv(m, ids)
    ensures Inv(Step(m, e), ids)
  {
    if Enabled(m, e) {
      match e
      case UserCopies(at, text, order) =>
        assert MachineOk(m.machines[at]);
        DistinctSize(order, ids - {at});
        assert |ids - {at}| == |ids| - 1;
        assert (m.changes + 1) * (|ids| - 1) == m.changes * (|ids| - 1) + (|ids| - 1);
      case Arrives(k) =>
      case Echoes(at, _) => assert MachineOk(m.machines[at]);
    }
  }

  lemma {:induction false} RunKeepsInv(ids: set<PeerId>, events: seq<Event>)
    ensures Inv(Run(Start(ids), events), ids)
  {
    if events != [] {
      RunKeepsInv(ids, events[..|events| - 1]);
      StepKeepsInv(Run(Start(ids), events[..|events| - 1]), ids, events[|events| - 1]);
    }
  }

  /** In every run no echo is ever rebroadcast, and each user change costs exactly one
      message per other machine. */
  lemma NoEchoIsRebroadcast(ids: set<PeerId>, events: seq<Event>)
    ensures var m := Run(Start(ids), events);
            m.echoSent == 0 && m.sent == m.changes * (|ids| - 1)
  {
    RunKeepsInv(ids, events);
  }

  // ---------------------------------------------------------------- quiescence

  /** Machines that still owe an echo. */
  ghost function Owing(m: Mesh): set<PeerId> { set id | id in m.machines && m.machines[id].echo.Some? }

  /** Steps a message still causes: its arrival, and its echo unless it is dropped. */
  function Weight(ps: seq<Packet>): nat {
    if ps == [] then 0 else (if Arriving(ps[0].text) then 2 else 1) + Weight(ps[1..])
  }

  lemma {:induction false} WeightWithout(ps: seq<Packet>, k: nat)
    requires k < |ps|
    ensures Weight(ps) == Weight(ps[..k] + ps[k + 1..]) + (if Arriving(ps[k].text) then 2 else 1)
  {
    if k == 0 {
      assert ps[..0] + ps[1..] == ps[1..];
    } else {
      WeightWithout(ps[1..], k - 1);
      assert (ps[..k] + ps[k + 1..])[1..] == ps[1..][..k - 1] + ps[1..][k..];
    }
  }

  ghost function Measure(m: Mesh): nat { Weight(m.inFlight) + |Owing(m)| }

  lemma StepDecreases(m: Mesh, ids: set<PeerId>, e: Event)
    requires Inv(m, ids) && Enabled(m, e) && !e.UserCopies?
    ensures Measure(Step(m, e)) == Measure(m) - 1
  {
    var m' := Step(m, e);
    match e
    case Arrives(k) =>
      WeightWithout(m.inFlight, k);
      if Arriving(m.inFlight[k].text) {
        assert Owing(m') == Owing(m) + {m.inFlight[k].to};
      } else {
        assert Owing(m') == Owing(m);
      }
    case Echoes(at, _) =>
      assert MachineOk(m.machines[at]);
      assert Owing(m') == Owing(m) - {at};
  }

  /** Steps that actually happen in a run from `m`. */
  ghost function Happened(m: Mesh, events: seq<Event>): nat {
    if events == [] then 0
    else Happened(m, events[..|events| - 1])
         + (if Enabled(Run(m, events[..|events| - 1]), events[|events| - 1]) then 1 else 0)
  }

  /** Without further user changes every run is over after exactly as many steps as the
      messages in flight and the echoes owed allow: two per message, one if it is too long
      for the receive buffer, and one per echo. */
  lemma {:induction false} QuietRunsTerminate(ids: set<PeerId>, m: Mesh, events: seq<Event>)
    requires Inv(m, ids)
    requires forall i :: 0 <= i < |events| ==> !events[i].UserCopies?
    ensures Inv(Run(m, events), ids)
    ensures Happened(m, events) + Measure(Run(m, events)) == Measure(m)
  {
    if events != [] {
      var prefix, e := events[..|events| - 1], events[|events| - 1];
      QuietRunsTerminate(ids, m, prefix);
      StepKeepsInv(Run(m, prefix), ids, e);
      if Enabled(Run(m, prefix), e) { StepDecreases(Run(m, prefix), ids, e); }
    }
  }

  /** Until then something can always happen: nothing is stuck. */
  lemma NeverStuck(m: Mesh, ids: set<PeerId>)
    requires Inv(m, ids) && Measure(m) > 0
    ensures exists e :: Enabled(m, e) && !e.UserCopies?
  {
    if Owing(m) != {} {
      var id :| id in Owing(m);
      var order := Listing(ids - {id});
      assert Enabled(m, Echoes(id, order));
    } else {
      var to := m.inFlight[0].to;
      assert to !in Owing(m);
      assert Enabled(m, Arrives(0));
    }
  }

  lemma {:induction false} Listing(ids: set<PeerId>) returns (order: seq<PeerId>)
    ensures forall i, j :: 0 <= i < j < |order| ==> order[i] != order[j]
    ensures forall id :: id in order <==> id in ids
  {
    if ids == {} {
      order := [];
    } else {
      var id :| id in ids;
      var rest := Listing(ids - {id});
      order := [id] + rest;
    }
  }
}
