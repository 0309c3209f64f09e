/** Heartbeats over whole runs (src/app/mesh_node.cpp:95-104): when one is sent, what it is,
    what it does to the peer that hears it, and that it keeps its sender alive there. */
module MeshBeats {
  import opened ByteStrings
  import opened MeshModel
  import opened MeshRegister
  import opened MeshNotices
  import opened MeshHearing
  import M = MessageCodec

  /** A heartbeat on the wire, stamped with the low 32 bits of its time. */
  ghost predicate IsHeartbeat(msg: Bytes, now: nat) {
    M.Decode(msg).Fixed? && M.Decode(msg).event.kind == M.HEARTBEAT && M.Decode(msg).event.timestamp == now % U32
  }

  lemma HeartbeatIsOne(now: nat)
    ensures IsHeartbeat(HeartbeatMessage(now), now)
  {
    var e := M.InputEvent(M.PROTOCOL_VERSION, M.HEARTBEAT, 0, 0, 0, 0, Cast32(now));
    M.EventRoundTrip(e, []);
    assert M.EncodeEvent(e) + [] == M.EncodeEvent(e);
  }

  /** The times of the beats of a run that broadcast something. */
  function BeatTimes(n: Node, events: seq<Event>): seq<nat> {
    if events == [] then []
    else
      var before, e := events[..|events| - 1], events[|events| - 1];
      BeatTimes(n, before)
      + (if e.Beat? && Broadcasts(Run(n, events).trace) != Broadcasts(Run(n, before).trace) then [e.now] else [])
  }

  ghost predicate PositiveBeats(events: seq<Event>) {
    forall i :: 0 <= i < |events| && events[i].Beat? ==> events[i].now > 0
  }

  /** The stored time is that of the last beat that broadcast, and 0 before the first. */
  ghost predicate Remembers(m: Node, times: seq<nat>) {
    && (times == [] <==> m.lastBeat == 0)
    && (times != [] ==> m.lastBeat == times[|times| - 1])
    && (forall i :: 0 <= i < |times| ==> 0 < times[i] <= m.lastBeat)
    && m.lastBeat <= m.now
  }

  lemma BeatIsDue(m: Node, times: seq<nat>, now: nat)
    requires Remembers(m, times) && m.now <= now < U64
    ensures BeatDue(m, now) <==> forall t :: t in times ==> t + m.interval <= now
  {
    if times != [] { assert times[|times| - 1] in times; }
  }

  lemma StepKeepsBeat(n: Node, e: Event)
    requires !e.Beat? && Legal(n, e)
    ensures Step(n, e).lastBeat == n.lastBeat && n.now <= Step(n, e).now
  {
    match e
    case Remove(id, order) => RefreshKeepsTimeout(Forget(n, id), order, n.now);
    case PollAt(now, order, inbox) =>
      ReceiveIsHearAll(n.(now := now), order, inbox, now);
      HearKeepsTimeout(n.(now := now), HeardIn(n.peers, order, inbox), now);
      HearKeepsNow(n.(now := now), HeardIn(n.peers, order, inbox), now);
      RefreshKeepsTimeout(Receive(n.(now := now), order, inbox, now), order, now);
    case _ =>
  }

  lemma {:induction false} HearKeepsNow(n: Node, hs: seq<Heard>, now: nat)
    ensures HearAll(n, hs, now).now == n.now
  {
    if hs != [] { HearKeepsNow(n, hs[..|hs| - 1], now); }
  }

  lemma BeatSends(m: Node, now: nat)
    ensures Broadcasts(Step(m, Beat(now)).trace)
         == Broadcasts(m.trace) + (if BeatDue(m, now) then [HeartbeatMessage(now)] else [])
  {
    StepBroadcasts(m, Beat(now));
  }

  lemma {:induction false} RunRemembers(self: PeerId, timeout: nat, interval: nat, events: seq<Event>)
    requires LegalRun(NewNode(self, timeout, interval), events) && PositiveBeats(events)
    ensures var n := NewNode(self, timeout, interval); Remembers(Run(n, events), BeatTimes(n, events))
  {
    if events != [] {
      var n := NewNode(self, timeout, interval);
      var before, e := events[..|events| - 1], events[|events| - 1];
      RunRemembers(self, timeout, interval, before);
      var m := Run(n, before);
      if e.Beat? {
        BeatSends(m, e.now);
        BeatRemembers(m, BeatTimes(n, before), e.now);
      } else {
        StepKeepsBeat(m, e);
      }
    }
  }

  lemma BeatRemembers(m: Node, times: seq<nat>, now: nat)
    requires Remembers(m, times) && m.now <= now && now > 0
    ensures Remembers(Step(m, Beat(now)), times + (if BeatDue(m, now) then [now] else []))
  {
  }

  /** In every run with a non-decreasing, positive clock a beat adds exactly one broadcast, a
      heartbeat stamped with the clock, when none of the earlier beats that broadcast is less
      than the interval ago; and nothing otherwise. */
  lemma BeatWhenDue(self: PeerId, timeout: nat, interval: nat, events: seq<Event>, now: nat)
    requires LegalRun(NewNode(self, timeout, interval), events + [Beat(now)])
    requires PositiveBeats(events) && now > 0
    ensures var n := NewNode(self, timeout, interval);
            var before, after := Run(n, events).trace, Run(n, events + [Beat(now)]).trace;
            if forall t :: t in BeatTimes(n, events) ==> t + interval <= now then
              && |Broadcasts(after)| == |Broadcasts(before)| + 1
              && Broadcasts(before) == Broadcasts(after)[..|Broadcasts(before)|]
              && IsHeartbeat(Broadcasts(after)[|Broadcasts(before)|], now)
            else Broadcasts(after) == Broadcasts(before)
  {
    var n := NewNode(self, timeout, interval);
    assert (events + [Beat(now)])[..|events|] == events;
    var m := Run(n, events);
    RunRemembers(self, timeout, interval, events);
    TimeoutIsFixed(n, events);
    BeatIsDue(m, BeatTimes(n, events), now);
    BeatSends(m, now);
    HeartbeatIsOne(now);
  }

  /** Hearing a heartbeat marks its sender alive and does nothing else. */
  lemma HeartbeatOnlyMarksAlive(m: Node, from: PeerId, msg: Bytes, stamp: nat, now: nat)
    requires IsHeartbeat(msg, stamp)
    ensures Handle(m, from, msg, now) == m.(last := m.last[from := now])
  {
  }

  // ---------------------------------------------------------------- staying alive

  /** Beats come at gaps of at least the interval. */
  ghost predicate Spaced(events: seq<Event>, interval: nat) {
    forall i, j :: 0 <= i < j < |events| && events[i].Beat? && events[j].Beat? ==>
      events[i].now + interval <= events[j].now
  }

  lemma {:induction false} BeatTimesAreBeats(n: Node, events: seq<Event>, t: nat)
    requires t in BeatTimes(n, events)
    ensures exists i :: 0 <= i < |events| && events[i] == Beat(t)
  {
    var before, e := events[..|events| - 1], events[|events| - 1];
    if t in BeatTimes(n, before) {
      BeatTimesAreBeats(n, before, t);
      var i :| 0 <= i < |before| && before[i] == Beat(t);
      assert events[i] == Beat(t);
    } else {
      assert events[|events| - 1] == Beat(t);
    }
  }

  /** What the last step of a run broadcast, if it was one message. */
  function LastBroadcast(n: Node, events: seq<Event>): Bytes {
    var all := Broadcasts(Run(n, events).trace);
    if all == [] then [] else all[|all| - 1]
  }

  /** A node that beats at gaps of at least the interval broadcasts a heartbeat at every beat. */
  lemma SpacedBeatsAreSent(self: PeerId, timeout: nat, interval: nat, events: seq<Event>, now: nat)
    requires LegalRun(NewNode(self, timeout, interval), events + [Beat(now)])
    requires PositiveBeats(events + [Beat(now)]) && Spaced(events + [Beat(now)], interval)
    ensures IsHeartbeat(LastBroadcast(NewNode(self, timeout, interval), events + [Beat(now)]), now)
  {
    var n, all := NewNode(self, timeout, interval), events + [Beat(now)];
    assert all[|events|] == Beat(now);
    assert forall i :: 0 <= i < |events| ==> events[i] == all[i];
    forall t | t in BeatTimes(n, events)
      ensures t + interval <= now
    {
      BeatTimesAreBeats(n, events, t);
      var i :| 0 <= i < |events| && events[i] == Beat(t);
      assert all[i] == Beat(t);
    }
    BeatWhenDue(self, timeout, interval, events, now);
  }

  /** A run that heard from `id` at step `j` and has not removed it since. */
  ghost predicate HeardAt(n: Node, events: seq<Event>, id: PeerId, j: nat) {
    && j < |events| && events[j].PollAt?
    && HearsFrom(Run(n, events[..j]).peers, events[j].inbox, id)
    && forall k :: j < k < |events| && events[k].Remove? ==> events[k].id != id
  }

  lemma {:induction false} LastHeardSince(n: Node, events: seq<Event>, id: PeerId, j: nat)
    requires LegalRun(n, events) && HeardAt(n, events, id, j)
    ensures LastHeard(n, events, id).Some? && events[j].now <= LastHeard(n, events, id).value <= Run(n, events).now
    ensures events[j].now <= Run(n, events).now
  {
    var last := |events| - 1;
    var before, e := events[..last], events[last];
    if j == last {
      RunNow(n, before, e);
    } else {
      assert before[..j] == events[..j] && before[j] == events[j];
      assert HeardAt(n, before, id, j);
      LastHeardSince(n, before, id, j);
      RunNow(n, before, e);
    }
  }

  /** Time never goes back, and a poll sets it. */
  lemma RunNow(n: Node, before: seq<Event>, e: Event)
    requires Legal(Run(n, before), e)
    ensures var m := Step(Run(n, before), e);
            Run(n, before).now <= m.now && (e.PollAt? ==> m.now == e.now)
  {
    var m := Run(n, before);
    if !e.Beat? { StepKeepsBeat(m, e); }
    if e.PollAt? {
      ReceiveIsHearAll(m.(now := e.now), e.order, e.inbox, e.now);
      HearKeepsNow(m.(now := e.now), HeardIn(m.peers, e.order, e.inbox), e.now);
      RefreshKeepsTimeout(Receive(m.(now := e.now), e.order, e.inbox, e.now), e.order, e.now);
    }
  }

  /** A peer heard less than the timeout before the latest poll is alive, and said to be. */
  lemma HeardLatelyIsAlive(self: PeerId, timeout: nat, interval: nat, events: seq<Event>, id: PeerId, j: nat)
    requires LegalRun(NewNode(self, timeout, interval), events) && events != [] && events[|events| - 1].PollAt?
    requires HeardAt(NewNode(self, timeout, interval), events, id, j)
    requires events[|events| - 1].now < events[j].now + timeout
    ensures var r := Run(NewNode(self, timeout, interval), events);
            Alive(r, id, r.now) && (id in r.peers ==> LastSaid(r.trace, id))
  {
    var n := NewNode(self, timeout, interval);
    var before, poll := events[..|events| - 1], events[|events| - 1];
    assert before + [poll] == events;
    LastHeardSince(n, events, id, j);
    RunNow(n, before, poll);
    AliveIsHeardLately(self, timeout, interval, events, id);
    NoticesAreCurrent(self, timeout, interval, before, poll, id);
  }

  /** Step `j` of a run reads `msg` from `id`, which is not removed after it. */
  ghost predicate Reads(n: Node, events: seq<Event>, id: PeerId, msg: Bytes, j: nat) {
    && j < |events| && events[j].PollAt? && msg in events[j].inbox(id)
    && (var m := Run(n, events[..j]); id in m.peers && m.peers[id])
    && forall k :: j < k < |events| && events[k].Remove? ==> events[k].id != id
  }

  /** Two nodes: a sender that beats at gaps of at least its interval, and a receiver that has
      read, less than its timeout before its latest poll, what the sender broadcast at its
      latest beat, and has not removed it since. Then that was a heartbeat, the receiver takes
      the sender for alive, and what it last said of it is that it is online. */
  lemma BeatingKeepsAlive(id: PeerId, timeout: nat, interval: nat, sent: seq<Event>, beat: nat,
                          self: PeerId, rTimeout: nat, rInterval: nat, events: seq<Event>, j: nat)
    requires LegalRun(NewNode(id, timeout, interval), sent + [Beat(beat)])
    requires PositiveBeats(sent + [Beat(beat)]) && Spaced(sent + [Beat(beat)], interval)
    requires LegalRun(NewNode(self, rTimeout, rInterval), events) && events != [] && events[|events| - 1].PollAt?
    requires Reads(NewNode(self, rTimeout, rInterval), events, id,
                   LastBroadcast(NewNode(id, timeout, interval), sent + [Beat(beat)]), j)
    requires events[|events| - 1].now < events[j].now + rTimeout
    ensures IsHeartbeat(LastBroadcast(NewNode(id, timeout, interval), sent + [Beat(beat)]), beat)
    ensures var r := Run(NewNode(self, rTimeout, rInterval), events);
            Alive(r, id, r.now) && (id in r.peers ==> LastSaid(r.trace, id))
  {
    SpacedBeatsAreSent(id, timeout, interval, sent, beat);
    HeardLatelyIsAlive(self, rTimeout, rInterval, events, id, j);
  }
}
