/** The connection lifecycle (src/app/connection_manager.cpp): links are named by the
    peer's hello, registered with the mesh, and reaped when they close. */
module Connections {
  import opened ByteStrings

  /** Transports are unique objects; a number stands for each. */
  type Link = nat

  datatype Pending = Pending(link: Link, expected: PeerId)

  /** What one `recv` on a pending link yields; `Hello` is a well-formed peer hello. */
  datatype Heard = Silence | Broken | Junk | Hello(id: PeerId)

  /** The hello sent on a new link, and the two callbacks. */
  datatype Notice = Announced(link: Link) | PeerConnected(id: PeerId) | PeerDisconnected(id: PeerId)

  /** `meshPeers` is the mesh node's peer map; `known`, `dropped` and `dialed` record which
      links were ever handed over, which were let go, and for whom each was dialed; `trace`
      records notices in order. */
  datatype Manager = Manager(self: PeerId, pending: seq<Pending>, connected: map<PeerId, Link>,
                             meshPeers: map<PeerId, Link>, known: set<Link>, dropped: set<Link>,
                             dialed: map<Link, PeerId>, trace: seq<Notice>)

  function NewManager(self: PeerId): Manager { Manager(self, [], map[], map[], {}, {}, map[], []) }

  /** A link as the poll finds it: still connected, what it says, still connected afterwards. */
  datatype Weather = Weather(up: Link -> bool, heard: Link -> Heard, upAfter: Link -> bool)

  // ---------------------------------------------------------------- operations

  /** `addOutgoing`; `addIncoming` is the case of an empty expectation. */
  function AddLink(m: Manager, link: Link, expected: PeerId): Manager {
    if link in m.known then m    // a unique pointer cannot be handed over twice
    else m.(pending := m.pending + [Pending(link, expected)], known := m.known + {link},
            dialed := m.dialed[link := expected], trace := m.trace + [Announced(link)])
  }

  datatype Verdict = Wait | Drop | Promote(id: PeerId)

  /** What the handshake decides about one pending link. */
  function Judge(m: Manager, p: Pending, w: Weather): Verdict {
    if !w.up(p.link) then Drop
    else match w.heard(p.link)
         case Broken => Drop
         case Silence => Wait
         case Junk => Drop
         case Hello(id) =>
           if id == [] || id == m.self then Drop
           else if p.expected != [] && id != p.expected then Drop
           else if id in m.connected then Drop
           else Promote(id)
  }

  function Resolve(m: Manager, p: Pending, w: Weather): Manager {
    match Judge(m, p, w)
    case Wait => m.(pending := m.pending + [p])
    case Drop => m.(dropped := m.dropped + {p.link})
    case Promote(id) =>
      m.(connected := m.connected[id := p.link], meshPeers := m.meshPeers[id := p.link],
         trace := m.trace + [PeerConnected(id)])
  }

  function ResolveAll(m: Manager, todo: seq<Pending>, w: Weather): Manager
    decreases todo
  {
    if todo == [] then m else ResolveAll(Resolve(m, todo[0], w), todo[1..], w)
  }

  function ReapOne(m: Manager, id: PeerId, w: Weather): Manager {
    if id in m.connected && !w.upAfter(m.connected[id]) then
      m.(connected := m.connected - {id}, meshPeers := m.meshPeers - {id},
         dropped := m.dropped + {m.connected[id]}, trace := m.trace + [PeerDisconnected(id)])
    else m
  }

  function ReapAll(m: Manager, order: seq<PeerId>, w: Weather): Manager
    decreases order
  {
    if order == [] then m else ReapAll(ReapOne(m, order[0], w), order[1..], w)
  }

  function Poll(m: Manager, order: seq<PeerId>, w: Weather): Manager {
    ReapAll(ResolveAll(m.(pending := []), m.pending, w), order, w)
  }

  datatype Event = Dial(link: Link, expected: PeerId) | Accept(link: Link)
                 | PollNow(order: seq<PeerId>, weather: Weather)

  function Step(m: Manager, e: Event): Manager {
    match e
    case Dial(link, expected) => AddLink(m, link, expected)
    case Accept(link) => AddLink(m, link, [])
    case PollNow(order, w) => Poll(m, order, w)
  }

  function Run(m: Manager, events: seq<Event>): Manager {
    if events == [] then m else Step(Run(m, events[..|events| - 1]), events[|events| - 1])
  }

  // ---------------------------------------------------------------- what every step keeps

  ghost function Links(ps: seq<Pending>): set<Link> { set p | p in ps :: p.link }

  ghost predicate DistinctLinks(ps: seq<Pending>) {
    forall i, j :: 0 <= i < j < |ps| ==> ps[i].link != ps[j].link
  }

  ghost predicate Injective(c: map<PeerId, Link>) {
    forall a, b :: a in c && b in c && c[a] == c[b] ==> a == b
  }

  /** Every link ever handed over is in exactly one place. */
  ghost predicate OnePlaceEach(m: Manager, waiting: seq<Pending>) {
    && m.known == Links(waiting) + m.connected.Values + m.dropped
    && Links(waiting) !! m.connected.Values
    && Links(waiting) !! m.dropped
    && m.connected.Values !! m.dropped
    && DistinctLinks(waiting) && Injective(m.connected)
  }

  ghost predicate WellNamed(m: Manager, waiting: seq<Pending>) {
    && m.connected == m.meshPeers
    && m.self !in m.connected && [] !in m.connected
    && m.known == m.dialed.Keys
    && (forall p :: p in waiting ==> p.link in m.dialed && m.dialed[p.link] == p.expected)
    && (forall id :: id in m.connected ==>
          m.connected[id] in m.dialed && (m.dialed[m.connected[id]] == [] || m.dialed[m.connected[id]] == id))
  }

  /** `waiting` is the manager's pending list together with what a poll has still to judge. */
  ghost predicate Books(m: Manager, waiting: seq<Pending>) {
    OnePlaceEach(m, waiting) && WellNamed(m, waiting)
  }

  lemma SplitLinks(a: seq<Pending>, p: Pending, b: seq<Pending>)
    ensures Links(a + [p] + b) == Links(a + b) + {p.link}
    ensures DistinctLinks(a + [p] + b) ==> DistinctLinks(a + b) && p.link !in Links(a + b)
    ensures forall q :: q in a + b ==> q in a + [p] + b
  {
    var all, rest := a + [p] + b, a + b;
    assert all[|a|] == p;
    forall i | 0 <= i < |rest|
      ensures rest[i] == all[if i < |a| then i else i + 1]
    {
    }
    forall q
      ensures q in all <==> q in rest || q == p
    {
    }
    if DistinctLinks(all) {
      forall i | 0 <= i < |rest|
        ensures rest[i].link != p.link
      {
        assert rest[i] == all[if i < |a| then i else i + 1];
      }
    }
  }

  lemma DropKeepsBooks(m: Manager, a: seq<Pending>, p: Pending, b: seq<Pending>)
    requires Books(m, a + [p] + b)
    ensures Books(m.(dropped := m.dropped + {p.link}), a + b)
  {
    SplitLinks(a, p, b);
  }

  lemma PromoteKeepsBooks(m: Manager, a: seq<Pending>, p: Pending, b: seq<Pending>, id: PeerId)
    requires Books(m, a + [p] + b)
    requires id != [] && id != m.self && id !in m.connected && (p.expected == [] || id == p.expected)
    ensures Books(m.(connected := m.connected[id := p.link], meshPeers := m.meshPeers[id := p.link],
                     trace := m.trace + [PeerConnected(id)]), a + b)
  {
    SplitLinks(a, p, b);
    assert p in a + [p] + b;
    var c := m.connected[id := p.link];
    assert c.Values == m.connected.Values + {p.link} by {
      assert c[id] == p.link && id in c;
      forall x | x in m.connected
        ensures m.connected[x] in c.Values
      {
        assert c[x] == m.connected[x];
      }
    }
    assert forall x :: x in m.connected ==> m.connected[x] in m.connected.Values;
  }

  lemma ResolveKeepsBooks(m: Manager, p: Pending, rest: seq<Pending>, w: Weather)
    requires Books(m, m.pending + [p] + rest)
    ensures Books(Resolve(m, p, w), Resolve(m, p, w).pending + rest)
  {
    match Judge(m, p, w)
    case Wait =>
    case Drop => DropKeepsBooks(m, m.pending, p, rest);
    case Promote(id) => PromoteKeepsBooks(m, m.pending, p, rest, id);
  }

  lemma {:induction false} ResolveAllKeepsBooks(m: Manager, todo: seq<Pending>, w: Weather)
    requires Books(m, m.pending + todo)
    ensures var r := ResolveAll(m, todo, w); Books(r, r.pending)
    decreases todo
  {
    if todo == [] {
      assert m.pending + todo == m.pending;
    } else {
      assert m.pending + todo == m.pending + [todo[0]] + todo[1..];
      ResolveKeepsBooks(m, todo[0], todo[1..], w);
      ResolveAllKeepsBooks(Resolve(m, todo[0], w), todo[1..], w);
    }
  }

  lemma ReapKeepsBooks(m: Manager, id: PeerId, w: Weather)
    requires Books(m, m.pending)
    ensures Books(ReapOne(m, id, w), m.pending) && ReapOne(m, id, w).pending == m.pending
  {
    if id in m.connected && !w.upAfter(m.connected[id]) {
      var c, link := m.connected - {id}, m.connected[id];
      assert c.Values == m.connected.Values - {link} by {
        forall x | x in m.connected && x != id
          ensures m.connected[x] in c.Values && m.connected[x] != link
        {
          assert c[x] == m.connected[x];
        }
      }
      assert link in m.connected.Values;
    }
  }

  lemma {:induction false} ReapAllKeepsBooks(m: Manager, order: seq<PeerId>, w: Weather)
    requires Books(m, m.pending)
    ensures var r := ReapAll(m, order, w); Books(r, r.pending)
    decreases order
  {
    if order != [] {
      ReapKeepsBooks(m, order[0], w);
      ReapAllKeepsBooks(ReapOne(m, order[0], w), order[1..], w);
    }
  }

  lemma AddKeepsBooks(m: Manager, link: Link, expected: PeerId)
    requires Books(m, m.pending)
    ensures var r := AddLink(m, link, expected); Books(r, r.pending)
  {
    if link !in m.known {
      SplitLinks(m.pending, Pending(link, expected), []);
      assert m.pending + [] == m.pending;
      assert m.pending + [Pending(link, expected)] + [] == m.pending + [Pending(link, expected)];
      forall i | 0 <= i < |m.pending|
        ensures m.pending[i].link in Links(m.pending)
      {
        assert m.pending[i] in m.pending;
      }
    }
  }

  /** Connection bookkeeping, in every run of dials, accepts and polls whatever the links
      do: the mesh's peers are the connected links, never this machine and never nameless;
      a dialed link is registered only under the id it was dialed for; and every link is in
      exactly one of pending, connected, dropped. */
  lemma {:induction false} RunKeepsBooks(self: PeerId, events: seq<Event>)
    ensures var m := Run(NewManager(self), events); Books(m, m.pending) && m.self == self
  {
    if events != [] {
      RunKeepsBooks(self, events[..|events| - 1]);
      var m := Run(NewManager(self), events[..|events| - 1]);
      SelfIsFixed(m, events[|events| - 1]);
      match events[|events| - 1]
      case Dial(link, expected) => AddKeepsBooks(m, link, expected);
      case Accept(link) => AddKeepsBooks(m, link, []);
      case PollNow(order, w) =>
        var start := m.(pending := []);
        assert [] + m.pending == m.pending;
        ResolveAllKeepsBooks(start, m.pending, w);
        ReapAllKeepsBooks(ResolveAll(start, m.pending, w), order, w);
    }
  }

  lemma SelfIsFixed(m: Manager, e: Event)
    ensures Step(m, e).self == m.self
  {
    match e
    case PollNow(order, w) =>
      ResolveAllSelf(m.(pending := []), m.pending, w);
      ReapAllSelf(ResolveAll(m.(pending := []), m.pending, w), order, w);
    case _ =>
  }

  lemma {:induction false} ResolveAllSelf(m: Manager, todo: seq<Pending>, w: Weather)
    ensures ResolveAll(m, todo, w).self == m.self
    decreases todo
  {
    if todo != [] { ResolveAllSelf(Resolve(m, todo[0], w), todo[1..], w); }
  }

  lemma {:induction false} ReapAllSelf(m: Manager, order: seq<PeerId>, w: Weather)
    ensures ReapAll(m, order, w).self == m.self
    decreases order
  {
    if order != [] { ReapAllSelf(ReapOne(m, order[0], w), order[1..], w); }
  }

  // ---------------------------------------------------------------- what one poll leaves

  lemma {:induction false} ReapAllLeaves(m: Manager, order: seq<PeerId>, w: Weather)
    ensures var r := ReapAll(m, order, w);
            && r.pending == m.pending
            && forall id :: id in r.connected <==>
                 id in m.connected && (id in order ==> w.upAfter(m.connected[id]))
    ensures forall id :: id in ReapAll(m, order, w).connected ==> ReapAll(m, order, w).connected[id] == m.connected[id]
    decreases order
  {
    if order != [] { ReapAllLeaves(ReapOne(m, order[0], w), order[1..], w); }
  }

  /** After a poll that visits every connected peer, no closed link is registered. */
  lemma PollReapsClosedLinks(m: Manager, order: seq<PeerId>, w: Weather)
    requires forall id :: id in ResolveAll(m.(pending := []), m.pending, w).connected ==> id in order
    ensures forall id :: id in Poll(m, order, w).connected ==> w.upAfter(Poll(m, order, w).connected[id])
  {
    ReapAllLeaves(ResolveAll(m.(pending := []), m.pending, w), order, w);
  }

  lemma {:induction false} ResolveAllWaits(m: Manager, todo: seq<Pending>, w: Weather)
    ensures forall p :: p in ResolveAll(m, todo, w).pending <==>
              p in m.pending || (p in todo && w.up(p.link) && w.heard(p.link).Silence?)
    decreases todo
  {
    if todo != [] { ResolveAllWaits(Resolve(m, todo[0], w), todo[1..], w); }
  }

  /** A poll leaves pending exactly the links that are up and have said nothing. */
  lemma PollJudgesEveryHandshake(m: Manager, order: seq<PeerId>, w: Weather)
    ensures forall p :: p in Poll(m, order, w).pending <==> p in m.pending && w.up(p.link) && w.heard(p.link).Silence?
  {
    ResolveAllWaits(m.(pending := []), m.pending, w);
    ReapAllLeaves(ResolveAll(m.(pending := []), m.pending, w), order, w);
  }

  /** A pending link that may be registered under `id`. */
  predicate Vouches(self: PeerId, p: Pending, w: Weather, id: PeerId) {
    && w.up(p.link) && w.heard(p.link) == Hello(id)
    && id != [] && id != self && (p.expected == [] || p.expected == id)
  }

  /** The link registered for `id`, if there is one. */
  function LinkOf(m: Manager, id: PeerId): Option<Link> {
    if id in m.connected then Some(m.connected[id]) else None
  }

  /** `l` is the link of the earliest pending handshake that vouches for `id`. */
  ghost predicate IsFirst(self: PeerId, todo: seq<Pending>, w: Weather, id: PeerId, l: Option<Link>) {
    if l.None? then forall k :: 0 <= k < |todo| ==> !Vouches(self, todo[k], w, id)
    else exists k :: 0 <= k < |todo| && Vouches(self, todo[k], w, id) && todo[k].link == l.value
                     && forall j :: 0 <= j < k ==> !Vouches(self, todo[j], w, id)
  }

  lemma {:induction false} ResolveAllRegisters(m: Manager, todo: seq<Pending>, w: Weather, id: PeerId)
    ensures var l := LinkOf(ResolveAll(m, todo, w), id);
            if id in m.connected then l == LinkOf(m, id) else IsFirst(m.self, todo, w, id, l)
    decreases todo
  {
    if todo != [] {
      var m1, rest := Resolve(m, todo[0], w), todo[1..];
      ResolveAllRegisters(m1, rest, w, id);
      var l := LinkOf(ResolveAll(m, todo, w), id);
      if id !in m.connected && id !in m1.connected { NotFirst(m.self, todo, w, id, l); }
    }
  }

  lemma NotFirst(self: PeerId, todo: seq<Pending>, w: Weather, id: PeerId, l: Option<Link>)
    requires todo != [] && !Vouches(self, todo[0], w, id) && IsFirst(self, todo[1..], w, id, l)
    ensures IsFirst(self, todo, w, id, l)
  {
    var rest := todo[1..];
    assert forall k :: 0 < k < |todo| ==> todo[k] == rest[k - 1];
    if l.Some? {
      var k :| 0 <= k < |rest| && Vouches(self, rest[k], w, id) && rest[k].link == l.value
               && forall j :: 0 <= j < k ==> !Vouches(self, rest[j], w, id);
      assert Vouches(self, todo[k + 1], w, id);
    }
  }

  /** Whom a poll leaves registered, and over which link: a peer registered before keeps
      its link, a new one gets the earliest pending link that vouches for it, and either
      goes if that link has closed. */
  lemma PollRegisters(m: Manager, order: seq<PeerId>, w: Weather, id: PeerId)
    requires id in ResolveAll(m.(pending := []), m.pending, w).connected ==> id in order
    ensures exists l: Option<Link> ::
              && (if id in m.connected then l == LinkOf(m, id) else IsFirst(m.self, m.pending, w, id, l))
              && LinkOf(Poll(m, order, w), id) == if l.Some? && w.upAfter(l.value) then l else None
  {
    var r := ResolveAll(m.(pending := []), m.pending, w);
    ResolveAllRegisters(m.(pending := []), m.pending, w, id);
    ReapAllLeaves(r, order, w);
    var l := LinkOf(r, id);
    assert if id in m.connected then l == LinkOf(m, id) else IsFirst(m.self, m.pending, w, id, l);
  }

  // ---------------------------------------------------------------- notices

  /** What the notices say of `id`, in order: connected (true) or disconnected (false). */
  function Said(trace: seq<Notice>, id: PeerId): seq<bool> {
    if trace == [] then []
    else Said(trace[..|trace| - 1], id)
         + match trace[|trace| - 1]
           case PeerConnected(x) => if x == id then [true] else []
           case PeerDisconnected(x) => if x == id then [false] else []
           case Announced(_) => []
  }

  lemma SaidAfter(trace: seq<Notice>, e: Notice, id: PeerId)
    ensures Said(trace + [e], id) == Said(trace, id)
            + (if e == PeerConnected(id) then [true] else if e == PeerDisconnected(id) then [false] else [])
  {
    assert (trace + [e])[..|trace|] == trace;
  }

  /** The links announced, in order. */
  function AnnouncedLinks(trace: seq<Notice>): seq<Link> {
    if trace == [] then []
    else AnnouncedLinks(trace[..|trace| - 1])
         + (if trace[|trace| - 1].Announced? then [trace[|trace| - 1].link] else [])
  }

  /** The links a run hands over, each at its first time, in order. */
  function HandedOver(m: Manager, events: seq<Event>): seq<Link> {
    if events == [] then []
    else
      var before, e := events[..|events| - 1], events[|events| - 1];
      var so := HandedOver(m, before);
      match e
      case Dial(link, _) => if link in so then so else so + [link]
      case Accept(link) => if link in so then so else so + [link]
      case PollNow(_, _) => so
  }

  lemma AnnouncedAfter(trace: seq<Notice>, e: Notice)
    ensures AnnouncedLinks(trace + [e]) == AnnouncedLinks(trace) + (if e.Announced? then [e.link] else [])
  {
    assert (trace + [e])[..|trace|] == trace;
  }

  lemma {:induction false} ResolveAllAnnouncesNothing(m: Manager, todo: seq<Pending>, w: Weather)
    ensures var r := ResolveAll(m, todo, w);
            AnnouncedLinks(r.trace) == AnnouncedLinks(m.trace) && r.known == m.known
    decreases todo
  {
    if todo != [] {
      match Judge(m, todo[0], w) {
        case Promote(id) => AnnouncedAfter(m.trace, PeerConnected(id));
        case _ =>
      }
      ResolveAllAnnouncesNothing(Resolve(m, todo[0], w), todo[1..], w);
    }
  }

  lemma {:induction false} ReapAllAnnouncesNothing(m: Manager, order: seq<PeerId>, w: Weather)
    ensures var r := ReapAll(m, order, w);
            AnnouncedLinks(r.trace) == AnnouncedLinks(m.trace) && r.known == m.known
    decreases order
  {
    if order != [] {
      AnnouncedAfter(m.trace, PeerDisconnected(order[0]));
      ReapAllAnnouncesNothing(ReapOne(m, order[0], w), order[1..], w);
    }
  }

  /** In every run exactly the links handed over are announced to, once each and in order. */
  lemma {:induction false} EveryLinkIsAnnounced(self: PeerId, events: seq<Event>)
    ensures var m := Run(NewManager(self), events);
            && AnnouncedLinks(m.trace) == HandedOver(NewManager(self), events)
            && forall link :: link in m.known <==> link in HandedOver(NewManager(self), events)
  {
    if events != [] {
      var before, e := events[..|events| - 1], events[|events| - 1];
      EveryLinkIsAnnounced(self, before);
      var m := Run(NewManager(self), before);
      match e
      case Dial(link, _) => AnnouncedAfter(m.trace, Announced(link));
      case Accept(link) => AnnouncedAfter(m.trace, Announced(link));
      case PollNow(order, w) =>
        ResolveAllAnnouncesNothing(m.(pending := []), m.pending, w);
        ReapAllAnnouncesNothing(ResolveAll(m.(pending := []), m.pending, w), order, w);
    }
  }

  /** True and false in turn, starting with true. */
  predicate Alternating(bs: seq<bool>) {
    forall i :: 0 <= i < |bs| ==> (bs[i] <==> i % 2 == 0)
  }

  /** The notices for each peer alternate, and the last one agrees with the books. */
  ghost predicate Told(m: Manager) {
    forall id :: Alternating(Said(m.trace, id)) && (|Said(m.trace, id)| % 2 == 1 <==> id in m.connected)
  }

  /** `m2` is `m` with the notice `e` and the membership it tells of. */
  lemma NoticeTells(m: Manager, m2: Manager, e: Notice)
    requires Told(m) && m2.trace == m.trace + [e]
    requires match e
             case Announced(_) => m2.connected == m.connected
             case PeerConnected(id) => id !in m.connected && m2.connected.Keys == m.connected.Keys + {id}
             case PeerDisconnected(id) => id in m.connected && m2.connected.Keys == m.connected.Keys - {id}
    ensures Told(m2)
  {
    forall id
      ensures Alternating(Said(m2.trace, id)) && (|Said(m2.trace, id)| % 2 == 1 <==> id in m2.connected)
    {
      SaidAfter(m.trace, e, id);
      assert Alternating(Said(m.trace, id)) && (|Said(m.trace, id)| % 2 == 1 <==> id in m.connected);
      assert id in m2.connected <==> id in m2.connected.Keys;
    }
  }

  lemma ResolveTells(m: Manager, p: Pending, w: Weather)
    requires Told(m)
    ensures Told(Resolve(m, p, w))
  {
    match Judge(m, p, w)
    case Promote(id) => NoticeTells(m, Resolve(m, p, w), PeerConnected(id));
    case _ => SameTelling(m, Resolve(m, p, w));
  }

  lemma SameTelling(m: Manager, m2: Manager)
    requires Told(m) && m2.trace == m.trace && m2.connected == m.connected
    ensures Told(m2)
  {
    forall id
      ensures Alternating(Said(m2.trace, id)) && (|Said(m2.trace, id)| % 2 == 1 <==> id in m2.connected)
    {
      assert Alternating(Said(m.trace, id)) && (|Said(m.trace, id)| % 2 == 1 <==> id in m.connected);
    }
  }

  lemma {:induction false} ResolveAllTells(m: Manager, todo: seq<Pending>, w: Weather)
    requires Told(m)
    ensures Told(ResolveAll(m, todo, w))
    decreases todo
  {
    if todo != [] {
      ResolveTells(m, todo[0], w);
      ResolveAllTells(Resolve(m, todo[0], w), todo[1..], w);
    }
  }

  lemma {:induction false} ReapAllTells(m: Manager, order: seq<PeerId>, w: Weather)
    requires Told(m)
    ensures Told(ReapAll(m, order, w))
    decreases order
  {
    if order != [] {
      var r := ReapOne(m, order[0], w);
      if r != m { NoticeTells(m, r, PeerDisconnected(order[0])); }
      ReapAllTells(r, order[1..], w);
    }
  }

  lemma StepTells(m: Manager, e: Event)
    requires Told(m)
    ensures Told(Step(m, e))
  {
    match e
    case Dial(link, expected) =>
      if link !in m.known { NoticeTells(m, AddLink(m, link, expected), Announced(link)); }
    case Accept(link) =>
      if link !in m.known { NoticeTells(m, AddLink(m, link, []), Announced(link)); }
    case PollNow(order, w) =>
      SameTelling(m, m.(pending := []));
      ResolveAllTells(m.(pending := []), m.pending, w);
      ReapAllTells(ResolveAll(m.(pending := []), m.pending, w), order, w);
  }

  /** In every run the connected and disconnected callbacks of each peer strictly alternate,
      starting with connected, and the last one agrees with the books. */
  lemma {:induction false} CallbacksAlternate(self: PeerId, events: seq<Event>)
    ensures Told(Run(NewManager(self), events))
  {
    if events != [] {
      CallbacksAlternate(self, events[..|events| - 1]);
      StepTells(Run(NewManager(self), events[..|events| - 1]), events[|events| - 1]);
    }
  }

  // ---------------------------------------------------------------- the object as written

  class ConnectionManager {
    const self: PeerId
    var pending: seq<Pending>
    var connected: map<PeerId, Link>
    var meshPeers: map<PeerId, Link>
    ghost var known: set<Link>
    ghost var dropped: set<Link>
    ghost var dialed: map<Link, PeerId>
    var trace: seq<Notice>

    ghost function View(): Manager
      reads this
    {
      Manager(self, pending, connected, meshPeers, known, dropped, dialed, trace)
    }

    constructor (self: PeerId)
      ensures View() == NewManager(self)
    {
      this.self, pending, connected, meshPeers := self, [], map[], map[];
      known, dropped, dialed, trace := {}, {}, map[], [];
    }

    method AddOutgoing(expected: PeerId, link: Option<Link>)
      requires link.Some? ==> link.value !in known
      modifies this
      ensures View() == if link.None? then old(View()) else Step(old(View()), Dial(link.value, expected))
    {
      if link.None? { return; }
      trace := trace + [Announced(link.value)];
      pending := pending + [Pending(link.value, expected)];
      known, dialed := known + {link.value}, dialed[link.value := expected];
    }

    method AddIncoming(link: Option<Link>)
      requires link.Some? ==> link.value !in known
      modifies this
      ensures View() == if link.None? then old(View()) else Step(old(View()), Accept(link.value))
    {
      if link.None? { return; }
      trace := trace + [Announced(link.value)];
      pending := pending + [Pending(link.value, [])];
      known, dialed := known + {link.value}, dialed[link.value := []];
    }

    method PollLinks(w: Weather) returns (order: seq<PeerId>)
      modifies this
      ensures View() == Step(old(View()), PollNow(order, w))
      ensures forall id :: id in connected ==> w.upAfter(connected[id])
    {
      var todo := pending;
      pending := [];
      ghost var start := View();
      for i := 0 to |todo|
        invariant ResolveAll(View(), todo[i..], w) == ResolveAll(start, todo, w)
      {
        assert todo[i..][1..] == todo[i + 1..];
        ResolvePending(todo[i], w);
      }
      order := [];
      var left := connected.Keys;
      ghost var resolved := View();
      while left != {}
        invariant left <= resolved.connected.Keys && View() == resolved
        invariant forall id :: id in resolved.connected.Keys <==> id in order || id in left
        decreases left
      {
        var id :| id in left;
        order, left := order + [id], left - {id};
      }
      for i := 0 to |order|
        invariant ReapAll(View(), order[i..], w) == ReapAll(resolved, order, w)
      {
        assert order[i..][1..] == order[i + 1..];
        Reap(order[i], w);
      }
      PollReapsClosedLinks(old(View()), order, w);
    }

    method ResolvePending(p: Pending, w: Weather)
      modifies this
      ensures View() == Resolve(old(View()), p, w)
    {
      if !w.up(p.link) {
        dropped := dropped + {p.link};
        return;
      }
      match w.heard(p.link)
      case Broken => dropped := dropped + {p.link};
      case Silence => pending := pending + [p];
      case Junk => dropped := dropped + {p.link};
      case Hello(id) =>
        if |id| == 0 || id == self || (|p.expected| > 0 && id != p.expected) || id in connected {
          dropped := dropped + {p.link};
          return;
        }
        connected := connected[id := p.link];
        meshPeers := meshPeers[id := p.link];
        trace := trace + [PeerConnected(id)];
    }

    method Reap(id: PeerId, w: Weather)
      modifies this
      ensures View() == ReapOne(old(View()), id, w)
    {
      if id in connected && !w.upAfter(connected[id]) {
        dropped := dropped + {connected[id]};
        meshPeers := meshPeers - {id};
        trace := trace + [PeerDisconnected(id)];
        connected := connected - {id};
      }
    }
  }
}
