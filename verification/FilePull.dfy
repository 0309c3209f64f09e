/** The destination's pull (src/platform/tray_win.cpp:852-969): one shared session whose
    drain thread fills the receiver while readers are served from it, and the stream the
    shell reads (src/platform/filepromise_win.cpp:80-96). */
module FilePull {
  import opened ByteStrings
  import opened FileCodec
  import opened FileSession

  const INT_MAX: nat := 0x7FFF_FFFF

  /** `Served(b)` is a positive return value with the copied bytes, `EndOfFile` is 0, `Failed`
      is -1, `Overrun(b)` is a negative value all the same, after `b` has been copied, and
      `Waiting` means the reader sleeps and tries again. */
  datatype Outcome = Served(bytes: Bytes) | EndOfFile | Failed | Overrun(bytes: Bytes) | Waiting

  /** Offsets are 64-bit; capacities are positive 32-bit counts. */
  predicate Asks(cap: nat) { 0 < cap < U32 }

  datatype Session = Session(receiver: Receiver, failed: bool, dialed: bool, linked: bool, drained: nat)

  function NewSession(): Session { Session(NewReceiver(), false, false, false, 0) }

  /** One locked section of `read`: what it returns for (index, offset, cap). */
  function Poll(s: Session, index: nat, offset: nat, cap: nat): Outcome
    requires ReceiverTyped(s.receiver)
  {
    if s.failed then Failed
    else
      var haveFile := index < |s.receiver.entries|;
      var have := if haveFile then s.receiver.received[index] else 0;
      if offset < have then
        var n := Min(have - offset, cap);
        if n == 0 then EndOfFile
        else if offset + n > |s.receiver.buffers[index]| then Failed    // never while in order
        else
          var copied := s.receiver.buffers[index][offset..offset + n];
          if n > INT_MAX then Overrun(copied) else Served(copied)    // the cast to int is negative
      else if haveFile && Complete(s.receiver, index) then EndOfFile
      else Waiting
  }

  // ---------------------------------------------------------------- interleaved steps

  /** Each event is one section under the session's mutex:
      `Drain(m, up)`: the drain loop takes the next `m` messages that have arrived; `up` is
      whether the link is still connected afterwards. `Begin(ok)`: a reader enters and, the
      first time, dials. `Read`: a reader polls. `Stall`: a reader gives up after no progress. */
  datatype Event = Drain(m: nat, up: bool) | Begin(ok: bool) | Read(index: nat, offset: nat, cap: nat) | Stall

  /** What a reader was told. */
  datatype Reply = Reply(index: nat, offset: nat, cap: nat, outcome: Outcome)

  datatype World = World(session: Session, replies: seq<Reply>)

  /** The session after a step; reads leave it as it is. */
  function After(s: Session, msgs: seq<Bytes>, e: Event): (s': Session)
    requires ReceiverTyped(s.receiver)
    ensures ReceiverTyped(s'.receiver)
  {
    match e
    case Begin(ok) => if s.failed || s.dialed then s else s.(dialed := true, linked := ok, failed := !ok)
    case Drain(m, up) =>
      if !s.linked then s
      else
        var from, to := Min(s.drained, |msgs|), Min(s.drained + m, |msgs|);
        var r := FileSession.Drain(s.receiver, msgs[from..to]);
        s.(receiver := r, drained := to, linked := up && !AllComplete(r),
           failed := s.failed || (!AllComplete(r) && !up))
    case Read(_, _, _) => s
    case Stall => s.(failed := true)
  }

  function Step(w: World, msgs: seq<Bytes>, e: Event): (w': World)
    requires ReceiverTyped(w.session.receiver)
    ensures ReceiverTyped(w'.session.receiver)
  {
    World(After(w.session, msgs, e),
          if e.Read? then
            w.replies + [Reply(e.index, e.offset, e.cap, Poll(w.session, e.index, e.offset, e.cap))]
          else w.replies)
  }

  function Run(msgs: seq<Bytes>, events: seq<Event>): (w: World)
    ensures ReceiverTyped(w.session.receiver)
  {
    if events == [] then World(NewSession(), [])
    else Step(Run(msgs, events[..|events| - 1]), msgs, events[|events| - 1])
  }

  lemma DrainFurther(msgs: seq<Bytes>, from: nat, to: nat)
    requires from <= to <= |msgs|
    ensures FileSession.Drain(FileSession.Drain(NewReceiver(), msgs[..from]), msgs[from..to])
         == FileSession.Drain(NewReceiver(), msgs[..to])
  {
    DrainInBatches(NewReceiver(), msgs[..from], msgs[from..to]);
    assert msgs[..from] + msgs[from..to] == msgs[..to];
  }

  /** The session's receiver is the one an undisturbed in-order transfer would have. */
  ghost predicate Follows(s: Session, msgs: seq<Bytes>) {
    s.drained <= |msgs| && s.receiver == FileSession.Drain(NewReceiver(), msgs[..s.drained])
  }

  lemma AfterFollows(s: Session, msgs: seq<Bytes>, e: Event)
    requires ReceiverTyped(s.receiver) && Follows(s, msgs)
    ensures Follows(After(s, msgs, e), msgs)
  {
    if e.Drain? && s.linked { DrainFurther(msgs, s.drained, Min(s.drained + e.m, |msgs|)); }
  }

  lemma {:induction false} RunFollows(msgs: seq<Bytes>, events: seq<Event>)
    ensures Follows(Run(msgs, events).session, msgs)
  {
    if events == [] {
      assert msgs[..0] == [];
    } else {
      RunFollows(msgs, events[..|events| - 1]);
      AfterFollows(Run(msgs, events[..|events| - 1]).session, msgs, events[|events| - 1]);
    }
  }

  /** What a truthful answer about a source file is. */
  ghost predicate Truthful(files: seq<File>, index: nat, offset: nat, cap: nat, o: Outcome) {
    match o
    case Served(b) =>
      && index < |files| && 0 < |b| <= cap
      && offset + |b| <= |files[index].data|
      && b == files[index].data[offset..offset + |b|]
    case EndOfFile => index < |files| && offset >= |files[index].data|
    case Failed => true
    case Overrun(b) => INT_MAX < |b| <= cap
    case Waiting => true
  }

  lemma PollIsTruthful(files: seq<File>, s: Session, index: nat, offset: nat, cap: nat)
    requires ReceiverTyped(s.receiver) && Asks(cap)
    requires s.receiver == NewReceiver() || InOrder(files, s.receiver)
    ensures Truthful(files, index, offset, cap, Poll(s, index, offset, cap))
  {
    if !s.failed && index < |s.receiver.entries| {
      var have := s.receiver.received[index];
      if offset < have {
        var n := Min(have - offset, cap);
        SliceOfPrefix(s.receiver.buffers[index], files[index].data, have, offset, n);
      }
    }
  }

  lemma SliceOfPrefix(a: Bytes, b: Bytes, have: nat, offset: nat, n: nat)
    requires have <= |a| == |b| && a[..have] == b[..have] && offset + n <= have
    ensures a[offset..offset + n] == b[offset..offset + n]
  {
    assert a[offset..offset + n] == a[..have][offset..offset + n];
    assert b[offset..offset + n] == b[..have][offset..offset + n];
  }

  /** What a sender can check of its files and chunk size: either the metadata does not fit
      the receiver's buffer, and then nothing is served, or no file is torn. Chunks that fit
      the buffer tear no file. */
  ghost predicate Sound(files: seq<File>, chunk: nat)
    requires chunk > 0
  {
    MetaFits(files) ==> NoneTorn(files, chunk)
  }

  lemma SmallChunksAreSound(files: seq<File>, chunk: nat)
    requires 0 < chunk && chunk + 18 <= MAX_FILE_MESSAGE
    ensures Sound(files, chunk)
  {
  }

  /** In any state of the session over an in-order sender every reply would be truthful. */
  lemma FollowerIsTruthful(files: seq<File>, chunk: nat, s: Session, index: nat, offset: nat, cap: nat)
    requires Carriable(files) && LegalChunk(chunk) && Sound(files, chunk)
    requires ReceiverTyped(s.receiver) && Follows(s, Transmission(files, chunk)) && Asks(cap)
    ensures Truthful(files, index, offset, cap, Poll(s, index, offset, cap))
  {
    ReceiverAfter(files, chunk, s.drained);
    PollIsTruthful(files, s, index, offset, cap);
  }

  ghost predicate AllAsk(events: seq<Event>) {
    forall i :: 0 <= i < |events| && events[i].Read? ==> Asks(events[i].cap)
  }

  ghost predicate AllTruthful(files: seq<File>, replies: seq<Reply>) {
    forall k :: 0 <= k < |replies| ==>
      Truthful(files, replies[k].index, replies[k].offset, replies[k].cap, replies[k].outcome)
  }

  /** Pull under concurrency: in every interleaving of dials, drains, failures, stalls and
      reads over a sound sender, bytes served for (index, offset) are the source file's bytes
      there, and 0 is returned only at or past the true end of the file. */
  lemma {:induction false} EveryReplyIsTruthful(files: seq<File>, chunk: nat, events: seq<Event>)
    requires Carriable(files) && LegalChunk(chunk) && Sound(files, chunk) && AllAsk(events)
    ensures AllTruthful(files, Run(Transmission(files, chunk), events).replies)
  {
    if events != [] {
      var msgs, prefix, e := Transmission(files, chunk), events[..|events| - 1], events[|events| - 1];
      EveryReplyIsTruthful(files, chunk, prefix);
      if e.Read? {
        RunFollows(msgs, prefix);
        FollowerIsTruthful(files, chunk, Run(msgs, prefix).session, e.index, e.offset, e.cap);
      }
    }
  }

  /** The condition is exact: over a sender that is not sound some reader is served bytes
      the file does not hold. */
  lemma TornFileMisleads(files: seq<File>, chunk: nat) returns (events: seq<Event>)
    requires Carriable(files) && LegalChunk(chunk) && !Sound(files, chunk)
    ensures AllAsk(events) && !AllTruthful(files, Run(Transmission(files, chunk), events).replies)
  {
    var i: nat :| i < |files| && Torn(files[i].data, chunk);
    var n := LastChunk(|files[i].data|, chunk);
    var p: nat :| p < n && files[i].data[p] != Zeros(n)[p];
    events := WholeThenRead(files, chunk, i, p);
    TornRun(files, chunk, i, p);
    OnlyReply(files, Run(Transmission(files, chunk), events).replies);
  }

  /** Dial, drain everything, read one byte. */
  function WholeThenRead(files: seq<File>, chunk: nat, i: nat, p: nat): (events: seq<Event>)
    requires chunk > 0
    ensures AllAsk(events)
  {
    [Begin(true), Drain(|Transmission(files, chunk)|, true), Read(i, p, 1)]
  }

  lemma TornRun(files: seq<File>, chunk: nat, i: nat, p: nat)
    requires Carriable(files) && LegalChunk(chunk) && MetaFits(files) && i < |files|
    requires Torn(files[i].data, chunk) && p < LastChunk(|files[i].data|, chunk) && files[i].data[p] != 0
    ensures Run(Transmission(files, chunk), WholeThenRead(files, chunk, i, p)).replies == [Reply(i, p, 1, Served([0]))]
    ensures !Truthful(files, i, p, 1, Served([0]))
  {
    var msgs, events := Transmission(files, chunk), WholeThenRead(files, chunk, i, p);
    AfterWhole(files, chunk, i);
    DrainedWhole(msgs);
    TornReply(files, chunk, After(After(NewSession(), msgs, events[0]), msgs, events[1]), i, p);
    RunOfThree(msgs, events);
  }

  lemma OnlyReply(files: seq<File>, replies: seq<Reply>)
    requires |replies| == 1
    ensures AllTruthful(files, replies) <==>
            Truthful(files, replies[0].index, replies[0].offset, replies[0].cap, replies[0].outcome)
  {
  }

  lemma DrainedWhole(msgs: seq<Bytes>)
    requires msgs != []
    ensures var s := After(After(NewSession(), msgs, Begin(true)), msgs, Drain(|msgs|, true));
            !s.failed && s.receiver == FileSession.Drain(NewReceiver(), msgs[..|msgs|])
  {
    assert msgs[0..|msgs|] == msgs[..|msgs|];
  }

  lemma TornReply(files: seq<File>, chunk: nat, s: Session, i: nat, p: nat)
    requires chunk > 0 && i < |files| && Torn(files[i].data, chunk)
    requires p < LastChunk(|files[i].data|, chunk) && files[i].data[p] != 0
    requires ReceiverTyped(s.receiver) && !s.failed && |s.receiver.entries| == |files|
    requires s.receiver.received[i] == LastChunk(|files[i].data|, chunk)
    requires s.receiver.buffers[i] == FromEnd(files[i].data, LastChunk(|files[i].data|, chunk))
    ensures Poll(s, i, p, 1) == Served([0]) && !Truthful(files, i, p, 1, Served([0]))
  {
    var d, n := files[i].data, LastChunk(|files[i].data|, chunk);
    StartOfTail(d, n);
    assert FromEnd(d, n)[..n][p] == FromEnd(d, n)[p] == 0;
    assert d[p..p + 1][0] == d[p];
    assert FromEnd(d, n)[p..p + 1][0] == 0;
  }

  lemma AfterWhole(files: seq<File>, chunk: nat, i: nat)
    requires Carriable(files) && LegalChunk(chunk) && MetaFits(files)
    requires i < |files| && Torn(files[i].data, chunk)
    ensures var msgs := Transmission(files, chunk);
            var r := FileSession.Drain(NewReceiver(), msgs[..|msgs|]);
            var n := LastChunk(|files[i].data|, chunk);
            && r.entries == Entries(files) && |r.received| == |r.buffers| == |files|
            && r.received[i] == n && r.buffers[i] == FromEnd(files[i].data, n)
  {
    var msgs := Transmission(files, chunk);
    var j, c := TransferAt(files, chunk, |msgs|);
    var r := FileSession.Drain(NewReceiver(), msgs[..|msgs|]);
    assert j == |files|;
    assert FileIsAt(r, files, i, CursorOf(files, j, c, i), chunk);
  }

  lemma RunOfThree(msgs: seq<Bytes>, es: seq<Event>)
    requires |es| == 3 && !es[0].Read? && !es[1].Read? && es[2].Read?
    ensures var s := After(After(NewSession(), msgs, es[0]), msgs, es[1]);
            Run(msgs, es).replies == [Reply(es[2].index, es[2].offset, es[2].cap,
                                            Poll(s, es[2].index, es[2].offset, es[2].cap))]
  {
    assert es[..2][..1] == es[..1] && es[..1][..0] == [];
    assert Run(msgs, es[..1]) == Step(World(NewSession(), []), msgs, es[0]);
    assert Run(msgs, es[..2]) == Step(Run(msgs, es[..1]), msgs, es[1]);
    assert Run(msgs, es) == Step(Run(msgs, es[..2]), msgs, es[2]);
  }

  /** Every reply of every run is truthful if and only if the sender is sound. */
  lemma TruthfulIffSound(files: seq<File>, chunk: nat)
    requires Carriable(files) && LegalChunk(chunk)
    ensures (forall events :: AllAsk(events) ==> AllTruthful(files, Run(Transmission(files, chunk), events).replies))
            <==> Sound(files, chunk)
  {
    if Sound(files, chunk) {
      forall events | AllAsk(events)
        ensures AllTruthful(files, Run(Transmission(files, chunk), events).replies)
      {
        EveryReplyIsTruthful(files, chunk, events);
      }
    } else {
      var events := TornFileMisleads(files, chunk);
    }
  }

  /** Such a sender: one file of 1 MiB and one byte, starting with 7, in chunks of 1 MiB. Its
      first chunk does not fit the receiver's buffer, its second is one byte, and a reader of
      the first byte is served a zero. */
  lemma OversizedChunkServesZero()
    ensures var files, chunk := [File([], [7] + Zeros(MAX_FILE_MESSAGE))], MAX_FILE_MESSAGE;
            && Carriable(files) && LegalChunk(chunk) && !Sound(files, chunk)
            && Run(Transmission(files, chunk), WholeThenRead(files, chunk, 0, 0)).replies
                 == [Reply(0, 0, 1, Served([0]))]
  {
    var d := [7] + Zeros(MAX_FILE_MESSAGE);
    var files := [File([], d)];
    assert LastChunk(|d|, MAX_FILE_MESSAGE) == 1;
    assert d[..1][0] != Zeros(1)[0];
    assert Torn(files[0].data, MAX_FILE_MESSAGE);
    OneFileMeta(files);
    TornRun(files, MAX_FILE_MESSAGE, 0, 0);
  }

  lemma OneFileMeta(files: seq<File>)
    requires |files| == 1 && |files[0].name| == 0
    ensures |EncodeMeta(Entries(files))| == 14 && |MetaMessage(files)| == 20
  {
    var es := Entries(files);
    assert EncodeMeta(es) == BigEndian(1, 4) + (EncodeEntry(es[0]) + EncodeEntries(es[1..]));
  }

  /** Available bytes are refused only by failure or by the narrowing cast: a reader asking
      where bytes have arrived is served exactly when min(available, cap) fits an int. */
  lemma ServedIff(files: seq<File>, s: Session, index: nat, offset: nat, cap: nat)
    requires ReceiverTyped(s.receiver) && InOrder(files, s.receiver) && Asks(cap)
    requires !s.failed && index < |files| && offset < s.receiver.received[index]
    ensures Poll(s, index, offset, cap).Served? <==> Min(s.receiver.received[index] - offset, cap) <= INT_MAX
  {
  }

  // ---------------------------------------------------------------- one read, from entry to answer

  /** A reader's loop: poll, and while there is nothing to say let the other threads take the
      next step of `schedule`; at its end the reader gives up. The session and the answer. */
  function Wait(s: Session, msgs: seq<Bytes>, index: nat, offset: nat, cap: nat, schedule: seq<Event>)
    : (r: (Session, Outcome))
    requires ReceiverTyped(s.receiver)
    ensures ReceiverTyped(r.0.receiver)
    decreases schedule
  {
    var r := Poll(s, index, offset, cap);
    if !r.Waiting? then (s, r)
    else if schedule == [] then (After(s, msgs, Stall), Failed)
    else Wait(After(s, msgs, schedule[0]), msgs, index, offset, cap, schedule[1..])
  }

  function ReadAnswer(s: Session, msgs: seq<Bytes>, index: nat, offset: nat, cap: nat, dial: bool,
                      schedule: seq<Event>)
    : (r: (Session, Outcome))
    requires ReceiverTyped(s.receiver)
    ensures ReceiverTyped(r.0.receiver)
  {
    if s.failed then (s, Failed) else Wait(After(s, msgs, Begin(dial)), msgs, index, offset, cap, schedule)
  }

  /** Bytes of file `index` that have arrived. */
  function Have(s: Session, index: nat): nat {
    if index < |s.receiver.received| then s.receiver.received[index] else 0
  }

  ghost predicate WholeFile(files: seq<File>, s: Session, index: nat) {
    index < |files| && index < |s.receiver.received| && s.receiver.received[index] == |files[index].data|
  }

  /** The session's receiver is that of an in-order transfer of `files` so far. */
  ghost predicate Ordered(files: seq<File>, s: Session) {
    s.receiver == NewReceiver() || InOrder(files, s.receiver)
  }

  /** The bytes a reader asking where bytes have arrived is due: what is there, up to `cap`. */
  function Due(files: seq<File>, s: Session, index: nat, offset: nat, cap: nat): Bytes
    requires index < |files| && offset < Have(s, index) <= |files[index].data|
  {
    files[index].data[offset..offset + Min(Have(s, index) - offset, cap)]
  }

  /** A negative answer only for a count that does not fit an int. */
  function AsInt(b: Bytes): Outcome { if |b| <= INT_MAX then Served(b) else Overrun(b) }

  /** Where bytes have arrived, the first poll serves them, whatever the others would do next;
      at or past the end of a file that is whole, it says so. */
  lemma AnswersAtOnce(files: seq<File>, s: Session, msgs: seq<Bytes>, index: nat, offset: nat, cap: nat,
                      schedule: seq<Event>)
    requires ReceiverTyped(s.receiver) && Ordered(files, s) && Asks(cap) && !s.failed
    ensures offset < Have(s, index) ==>
              && index < |files| && Have(s, index) <= |files[index].data|
              && Wait(s, msgs, index, offset, cap, schedule) == (s, AsInt(Due(files, s, index, offset, cap)))
    ensures WholeFile(files, s, index) && offset >= |files[index].data| ==>
              Wait(s, msgs, index, offset, cap, schedule) == (s, EndOfFile)
  {
    if offset < Have(s, index) {
      var have := s.receiver.received[index];
      SliceOfPrefix(s.receiver.buffers[index], files[index].data, have, offset, Min(have - offset, cap));
    }
  }

  /** Nothing to tell a reader yet. */
  ghost predicate Idle(files: seq<File>, s: Session, index: nat, offset: nat) {
    !s.failed && Have(s, index) <= offset && !WholeFile(files, s, index)
  }

  function AfterAll(s: Session, msgs: seq<Bytes>, es: seq<Event>): (s': Session)
    requires ReceiverTyped(s.receiver)
    ensures ReceiverTyped(s'.receiver)
    decreases es
  {
    if es == [] then s else AfterAll(After(s, msgs, es[0]), msgs, es[1..])
  }

  lemma PollsIdle(files: seq<File>, s: Session, index: nat, offset: nat, cap: nat)
    requires ReceiverTyped(s.receiver) && Ordered(files, s) && Idle(files, s, index, offset)
    ensures Poll(s, index, offset, cap).Waiting?
  {
  }

  /** A reader waits exactly as long as there is nothing to tell: its answer is the one given
      in the first state of the schedule that is not idle. */
  lemma {:induction false} WaitsWhileIdle(files: seq<File>, chunk: nat, s: Session, index: nat, offset: nat,
                                          cap: nat, schedule: seq<Event>, i: nat)
    requires Carriable(files) && LegalChunk(chunk) && Sound(files, chunk) && Asks(cap) && i <= |schedule|
    requires ReceiverTyped(s.receiver) && Follows(s, Transmission(files, chunk))
    requires forall j :: 0 <= j < i ==>
               Idle(files, AfterAll(s, Transmission(files, chunk), schedule[..j]), index, offset)
    ensures var msgs := Transmission(files, chunk);
            var t := AfterAll(s, msgs, schedule[..i]);
            && Ordered(files, t)
            && Wait(s, msgs, index, offset, cap, schedule) == Wait(t, msgs, index, offset, cap, schedule[i..])
    decreases i
  {
    var msgs := Transmission(files, chunk);
    FollowerIsOrdered(files, chunk, s);
    if i == 0 {
      assert schedule[..0] == [] && schedule[0..] == schedule;
    } else {
      var rest := schedule[1..];
      assert schedule[..0] == [];
      PollsIdle(files, s, index, offset, cap);
      AfterFollows(s, msgs, schedule[0]);
      forall j | 0 <= j < i - 1
        ensures Idle(files, AfterAll(After(s, msgs, schedule[0]), msgs, rest[..j]), index, offset)
      {
        SkipFirst(s, msgs, schedule, j + 1);
      }
      WaitsWhileIdle(files, chunk, After(s, msgs, schedule[0]), index, offset, cap, rest, i - 1);
      SkipFirst(s, msgs, schedule, i);
      assert rest[i - 1..] == schedule[i..];
    }
  }

  lemma SkipFirst(s: Session, msgs: seq<Bytes>, es: seq<Event>, j: nat)
    requires ReceiverTyped(s.receiver) && 0 < j <= |es|
    ensures AfterAll(s, msgs, es[..j]) == AfterAll(After(s, msgs, es[0]), msgs, es[1..][..j - 1])
  {
    assert es[..j][0] == es[0] && es[..j][1..] == es[1..][..j - 1];
  }

  lemma FollowerIsOrdered(files: seq<File>, chunk: nat, s: Session)
    requires Carriable(files) && LegalChunk(chunk) && Sound(files, chunk)
    requires ReceiverTyped(s.receiver) && Follows(s, Transmission(files, chunk))
    ensures Ordered(files, s)
  {
    ReceiverAfter(files, chunk, s.drained);
  }

  /** So a reader is served as soon as bytes arrive where it asks, is told the end as soon as
      the file is whole, and fails only when the session does or nothing comes at all. */
  lemma ServedWhenItArrives(files: seq<File>, chunk: nat, s: Session, index: nat, offset: nat, cap: nat,
                            schedule: seq<Event>, i: nat)
    requires Carriable(files) && LegalChunk(chunk) && Sound(files, chunk) && Asks(cap) && i <= |schedule|
    requires ReceiverTyped(s.receiver) && Follows(s, Transmission(files, chunk))
    requires forall j :: 0 <= j < i ==>
               Idle(files, AfterAll(s, Transmission(files, chunk), schedule[..j]), index, offset)
    ensures var msgs := Transmission(files, chunk);
            var t, r := AfterAll(s, msgs, schedule[..i]), Wait(s, msgs, index, offset, cap, schedule).1;
            && (!t.failed && offset < Have(t, index) ==>
                  && index < |files| && Have(t, index) <= |files[index].data|
                  && r == AsInt(Due(files, t, index, offset, cap)))
            && (!t.failed && WholeFile(files, t, index) && offset >= |files[index].data| ==> r == EndOfFile)
            && (t.failed || (i == |schedule| && Idle(files, t, index, offset)) ==> r == Failed)
  {
    var msgs := Transmission(files, chunk);
    var t := AfterAll(s, msgs, schedule[..i]);
    WaitsWhileIdle(files, chunk, s, index, offset, cap, schedule, i);
    if !t.failed {
      AnswersAtOnce(files, t, msgs, index, offset, cap, schedule[i..]);
      if i == |schedule| && Idle(files, t, index, offset) { PollsIdle(files, t, index, offset, cap); }
    }
  }

  lemma {:induction false} WaitIsTruthful(files: seq<File>, chunk: nat, s: Session, index: nat, offset: nat,
                                          cap: nat, schedule: seq<Event>)
    requires Carriable(files) && LegalChunk(chunk) && Sound(files, chunk) && Asks(cap)
    requires ReceiverTyped(s.receiver) && Follows(s, Transmission(files, chunk))
    ensures var r := Wait(s, Transmission(files, chunk), index, offset, cap, schedule);
            !r.1.Waiting? && Truthful(files, index, offset, cap, r.1) && Follows(r.0, Transmission(files, chunk))
    decreases schedule
  {
    var msgs := Transmission(files, chunk);
    FollowerIsTruthful(files, chunk, s, index, offset, cap);
    if Poll(s, index, offset, cap).Waiting? {
      if schedule == [] {
        AfterFollows(s, msgs, Stall);
      } else {
        AfterFollows(s, msgs, schedule[0]);
        WaitIsTruthful(files, chunk, After(s, msgs, schedule[0]), index, offset, cap, schedule[1..]);
      }
    }
  }

  // ---------------------------------------------------------------- nothing fails without a cause

  /** Messages the drain loop has been given time to take. */
  function Taken(es: seq<Event>): nat {
    if es == [] then 0 else Taken(es[..|es| - 1]) + (if es[|es| - 1].Drain? then es[|es| - 1].m else 0)
  }

  /** No refused dial, no lost link, no reader that gave up. */
  ghost predicate Undisturbed(es: seq<Event>) {
    forall i :: 0 <= i < |es| ==>
      match es[i] case Begin(ok) => ok case Drain(_, up) => up case Read(_, _, _) => true case Stall => false
  }

  /** After a dial, an undisturbed session has taken what there was time for, and has not
      failed: it delivers every file whole once there was time for all messages. */
  lemma {:induction false} UndisturbedDelivers(files: seq<File>, chunk: nat, es: seq<Event>)
    requires Carriable(files) && files != [] && LegalChunk(chunk) && Fits(files, chunk)
    requires Undisturbed(es)
    ensures var msgs := Transmission(files, chunk);
            var s := Run(msgs, [Begin(true)] + es).session;
            && !s.failed && s.dialed && (s.linked <==> s.drained < |msgs|)
            && s.drained == Min(Taken(es), |msgs|)
            && (Taken(es) >= |msgs| ==> forall i :: 0 <= i < |files| ==> WholeFile(files, s, i))
  {
    var msgs, all := Transmission(files, chunk), [Begin(true)] + es;
    if es == [] {
      assert all[..0] == [] && all[|all| - 1] == Begin(true);
    } else {
      var prefix, e := es[..|es| - 1], es[|es| - 1];
      assert all[..|all| - 1] == [Begin(true)] + prefix && all[|all| - 1] == e;
      UndisturbedDelivers(files, chunk, prefix);
      var before := Run(msgs, [Begin(true)] + prefix).session;
      RunFollows(msgs, [Begin(true)] + prefix);
      AfterFollows(before, msgs, e);
      UndisturbedStep(files, chunk, before, e);
    }
    RunFollows(msgs, all);
    var s := Run(msgs, all).session;
    if Taken(es) >= |msgs| { WholeWhenDrained(files, chunk, s); }
  }

  lemma UndisturbedStep(files: seq<File>, chunk: nat, s: Session, e: Event)
    requires Carriable(files) && files != [] && LegalChunk(chunk) && Fits(files, chunk) && Undisturbed([e])
    requires ReceiverTyped(s.receiver) && Follows(s, Transmission(files, chunk))
    requires !s.failed && s.dialed && (s.linked <==> s.drained < |Transmission(files, chunk)|)
    ensures var msgs := Transmission(files, chunk);
            var t := After(s, msgs, e);
            && !t.failed && t.dialed && (t.linked <==> t.drained < |msgs|)
            && t.drained == Min(s.drained + (if e.Drain? then e.m else 0), |msgs|)
  {
    var msgs := Transmission(files, chunk);
    AfterFollows(s, msgs, e);
    assert [e][0] == e;
    ReceiverAfter(files, chunk, After(s, msgs, e).drained);
  }

  lemma WholeWhenDrained(files: seq<File>, chunk: nat, s: Session)
    requires Carriable(files) && files != [] && LegalChunk(chunk) && Fits(files, chunk)
    requires ReceiverTyped(s.receiver) && Follows(s, Transmission(files, chunk))
    requires s.drained == |Transmission(files, chunk)|
    ensures forall i :: 0 <= i < |files| ==> WholeFile(files, s, i)
  {
    FittingIsNotTorn(files, chunk);
    ReceiverAfter(files, chunk, s.drained);
    forall i | 0 <= i < |files|
      ensures WholeFile(files, s, i)
    {
      assert Complete(s.receiver, i);
    }
  }

  // ---------------------------------------------------------------- the stream

  /** The session object; between two of its own locked sections a reader lets the other
      threads take the steps of `schedule`. */
  class FilePullSession {
    const msgs: seq<Bytes>
    ghost const files: seq<File>
    var session: Session

    ghost predicate Valid()
      reads this
    {
      ReceiverTyped(session.receiver) && Follows(session, msgs) && SourceOk()
    }

    /** The messages are those of an in-order, sound sender of `files`. */
    ghost predicate SourceOk() {
      Carriable(files) &&
      exists chunk :: LegalChunk(chunk) && Sound(files, chunk) && msgs == Transmission(files, chunk)
    }

    constructor (ghost files: seq<File>, ghost chunk: nat, msgs: seq<Bytes>)
      requires Carriable(files) && LegalChunk(chunk) && Sound(files, chunk)
      requires msgs == Transmission(files, chunk)
      ensures Valid() && this.files == files && this.msgs == msgs && session == NewSession()
    {
      this.files, this.msgs, session := files, msgs, NewSession();
    }

    method Apply(e: Event)
      requires Valid()
      modifies this
      ensures Valid() && session == After(old(session), msgs, e)
    {
      AfterFollows(session, msgs, e);
      session := After(session, msgs, e);
    }

    /** `read`: enter, then poll, sleeping while others run, until served or given up. It is
        refused when the session has failed or cannot be dialed; otherwise bytes that have
        arrived are served and the end of a whole file is told, whatever the schedule. */
    method Read(index: nat, offset: nat, cap: nat, dial: bool, schedule: seq<Event>) returns (r: Outcome)
      requires Valid() && Asks(cap)
      modifies this
      ensures Valid() && !r.Waiting?
      ensures Truthful(files, index, offset, cap, r)
      ensures (session, r) == ReadAnswer(old(session), msgs, index, offset, cap, dial, schedule)
      ensures old(session).failed || !(old(session).dialed || dial) ==> r == Failed
      ensures !old(session).failed && (old(session).dialed || dial) && offset < Have(old(session), index) ==>
                && index < |files| && Have(old(session), index) <= |files[index].data|
                && r == AsInt(Due(files, old(session), index, offset, cap))
                && session == old(session).(dialed := true, linked := session.linked)
      ensures !old(session).failed && (old(session).dialed || dial)
              && WholeFile(files, old(session), index) && offset >= |files[index].data| ==>
                r == EndOfFile && session == old(session).(dialed := true, linked := session.linked)
    {
      Answered(index, offset, cap, dial, schedule);
      if session.failed { return Failed; }
      Apply(Begin(dial));
      var i := 0;
      while true
        invariant Valid() && i <= |schedule|
        invariant ReadAnswer(old(session), msgs, index, offset, cap, dial, schedule)
               == Wait(session, msgs, index, offset, cap, schedule[i..])
        decreases |schedule| - i
      {
        r := Poll(session, index, offset, cap);
        if !r.Waiting? { return; }
        if i == |schedule| { break; }
        assert schedule[i..][0] == schedule[i] && schedule[i..][1..] == schedule[i + 1..];
        Apply(schedule[i]);
        i := i + 1;
      }
      Apply(Stall);
      r := Failed;
    }

    /** What the answer of a read promises. */
    lemma Answered(index: nat, offset: nat, cap: nat, dial: bool, schedule: seq<Event>)
      requires Valid() && Asks(cap)
      ensures var (t, r) := ReadAnswer(session, msgs, index, offset, cap, dial, schedule);
              && !r.Waiting? && Truthful(files, index, offset, cap, r)
              && (session.failed || !(session.dialed || dial) ==> r == Failed)
              && (!session.failed && (session.dialed || dial) && offset < Have(session, index) ==>
                    && index < |files| && Have(session, index) <= |files[index].data|
                    && r == AsInt(Due(files, session, index, offset, cap))
                    && t == session.(dialed := true, linked := t.linked))
              && (!session.failed && (session.dialed || dial)
                  && WholeFile(files, session, index) && offset >= |files[index].data| ==>
                    r == EndOfFile && t == session.(dialed := true, linked := t.linked))
    {
      if !session.failed {
        var s := After(session, msgs, Begin(dial));
        BegunIsTruthful(s, index, offset, cap, dial, schedule);
        if !s.failed { AnswersAtOnce(files, s, msgs, index, offset, cap, schedule); }
      }
    }

    lemma BegunIsTruthful(s: Session, index: nat, offset: nat, cap: nat, dial: bool, schedule: seq<Event>)
      requires Valid() && Asks(cap) && !session.failed && s == After(session, msgs, Begin(dial))
      ensures Ordered(files, s)
      ensures var r := Wait(s, msgs, index, offset, cap, schedule).1;
              !r.Waiting? && Truthful(files, index, offset, cap, r)
    {
      var chunk :| LegalChunk(chunk) && Sound(files, chunk) && msgs == Transmission(files, chunk);
      AfterFollows(session, msgs, Begin(dial));
      FollowerIsOrdered(files, chunk, s);
      WaitIsTruthful(files, chunk, s, index, offset, cap, schedule);
    }
  }

  /** `got` is what file `index` holds from `from` on; nothing is claimed of no bytes. */
  ghost predicate IsSlice(got: Bytes, files: seq<File>, index: nat, from: nat) {
    got != [] ==>
      && index < |files| && from + |got| <= |files[index].data|
      && got == files[index].data[from..from + |got|]
  }

  lemma SliceGrows(all: Bytes, i: nat, j: nat, files: seq<File>, index: nat, from: nat, cap: nat)
    requires i <= j <= |all| && IsSlice(all[..i], files, index, from)
    requires Truthful(files, index, from + i, cap, Served(all[i..j]))
    ensures IsSlice(all[..j], files, index, from)
  {
    var data := files[index].data;
    assert all[..j] == all[..i] + all[i..j];
    assert data[from..from + i] + data[from + i..from + j] == data[from..from + j];
  }

  /** A session that can serve all of a file. */
  ghost predicate Ready(files: seq<File>, s: Session, index: nat) {
    !s.failed && WholeFile(files, s, index)
  }

  /** Bytes of a file from `from` on. */
  function Left(files: seq<File>, index: nat, from: nat): nat {
    if index < |files| && from <= |files[index].data| then |files[index].data| - from else 0
  }

  /** The stream's byte source: `read` into the caller's buffer, its result as an `int`. */
  method ReadInto(source: FilePullSession, index: nat, offset: nat, out: array<byte>, at: nat, cap: nat,
                  schedule: seq<Event>)
    returns (n: int)
    requires source.Valid() && Asks(cap) && at + cap <= out.Length
    modifies source, out
    ensures source.Valid() && n <= cap
    ensures out[..at] == old(out[..at])
    ensures n > 0 ==> Truthful(source.files, index, offset, cap, Served(out[at..at + n]))
    ensures n == 0 ==> Truthful(source.files, index, offset, cap, EndOfFile)
    ensures Ready(source.files, old(source.session), index) && cap <= INT_MAX ==>
              n == Min(Left(source.files, index, offset), cap) && Ready(source.files, source.session, index)
    ensures forall j :: at + (if n < 0 then cap else n) <= j < out.Length ==> out[j] == old(out[j])
  {
    var r := source.Read(index, offset, cap, true, schedule);
    match r
    case Failed => n := -1;
    case EndOfFile => n := 0;
    case Overrun(b) =>
      CopyOut(out, at, b);
      n := |b| - U32;
    case Served(b) =>
      CopyOut(out, at, b);
      assert out[at..at + |b|] == b;
      n := |b|;
  }

  class PromiseStream {
    const index: nat
    var pos: nat

    constructor (index: nat)
      ensures this.index == index && pos == 0
    {
      this.index, pos := index, 0;
    }

    /** One round of the loop: ask the source for what is missing, and move past what it gives. */
    method ReadMore(out: array<byte>, total: nat, cb: nat, source: FilePullSession, schedule: seq<Event>,
                    ghost from: nat)
      returns (n: int)
      requires source.Valid() && total < cb <= out.Length && cb < U32
      requires pos == from + total && IsSlice(out[..total], source.files, index, from)
      modifies this`pos, source, out
      ensures source.Valid() && n <= cb - total
      ensures var now := if n > 0 then total + n else total;
              pos == from + now && IsSlice(out[..now], source.files, index, from)
      ensures n == 0 ==> index < |source.files| && pos >= |source.files[index].data|
      ensures Ready(source.files, old(source.session), index) && cb <= INT_MAX ==>
                && n == Min(Left(source.files, index, old(pos)), cb - total)
                && Ready(source.files, source.session, index)
      ensures forall j :: (if n < 0 then cb else total + n) <= j < out.Length ==> out[j] == old(out[j])
    {
      n := ReadInto(source, index, pos, out, total, cb - total, schedule);
      if n > 0 {
        SliceGrows(out[..], total, total + n, source.files, index, from, cb - total);
        pos := pos + n;
      }
    }

    /** `IStream::Read`: consecutive reads deliver consecutive slices of the file; a short
        count with success means the end of the file has been reached. From a file that has
        wholly arrived every read succeeds with all it asked for or all that is left. A success
        leaves the buffer past `total` alone, a failure only past `cb`. `others(i)` are the
        steps other threads take during the `i`-th call of the source. */
    method Read(out: array<byte>, cb: nat, source: FilePullSession, others: nat -> seq<Event>)
      returns (total: nat, ok: bool)
      requires source.Valid() && cb <= out.Length && cb < U32
      modifies this`pos, source, out
      ensures source.Valid()
      ensures total <= cb && pos == old(pos) + total
      ensures IsSlice(out[..total], source.files, index, old(pos))
      ensures ok && total < cb ==> index < |source.files| && pos >= |source.files[index].data|
      ensures Ready(source.files, old(source.session), index) && cb <= INT_MAX ==>
                ok && total == Min(Left(source.files, index, old(pos)), cb)
      ensures forall j :: (if ok then total else cb) <= j < out.Length ==> out[j] == old(out[j])
    {
      total, ok := 0, true;
      var calls := 0;
      while total < cb
        invariant source.Valid() && total <= cb && pos == old(pos) + total
        invariant IsSlice(out[..total], source.files, index, old(pos))
        invariant Ready(source.files, old(source.session), index) && cb <= INT_MAX ==>
                    Ready(source.files, source.session, index) && total <= Left(source.files, index, old(pos))
        invariant forall j :: total <= j < out.Length ==> out[j] == old(out[j])
        decreases cb - total
      {
        var n := ReadMore(out, total, cb, source, others(calls), old(pos));
        calls := calls + 1;
        if n < 0 { return total, false; }
        if n == 0 { return; }
        total := total + n;
      }
    }
  }

  method CopyOut(out: array<byte>, at: nat, b: Bytes)
    requires at + |b| <= out.Length
    modifies out
    ensures out[..at] == old(out[..at]) && out[..at + |b|] == old(out[..at]) + b
    ensures forall j :: at + |b| <= j < out.Length ==> out[j] == old(out[j])
  {
    for i := 0 to |b|
      invariant forall j :: 0 <= j < at || at + i <= j < out.Length ==> out[j] == old(out[j])
      invariant forall j :: 0 <= j < i ==> out[at + j] == b[j]
    {
      out[at + i] := b[i];
    }
  }
}
