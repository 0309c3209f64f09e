/** File transfer (src/net/file_session.cpp, src/net/file_channel.cpp): a cursor-driven
    sender, an offset-addressed receiver, and the channel that drives both. */
module FileSession {
  import opened ByteStrings
  import opened FileCodec
  import M = MessageCodec

  const DEFAULT_CHUNK: nat := 64 * 1024
  const MAX_FILE_MESSAGE: nat := 1024 * 1024

  datatype File = File(name: Bytes, data: Bytes)

  /** File bytes that fit the receive buffer next to the two headers. */
  const ROOM: nat := MAX_FILE_MESSAGE - 18

  /** Files the wire format can carry. */
  ghost predicate Addressable(files: seq<File>) {
    |files| < U32 && forall i :: 0 <= i < |files| ==> |files[i].data| < U64
  }

  ghost predicate Carriable(files: seq<File>) {
    && Addressable(files)
    && (forall i :: 0 <= i < |files| ==> |files[i].name| <= MAX_NAME)
    && |EncodeMeta(Entries(files))| < U32
  }

  function Entries(files: seq<File>): (r: seq<FileEntry>)
    ensures |r| == |files|
  {
    seq(|files|, i requires 0 <= i < |files| => FileEntry(files[i].name, |files[i].data|))
  }

  // ---------------------------------------------------------------- what the sender emits

  function MetaMessage(files: seq<File>): Bytes {
    M.EncodeVar(M.FILE_PROMISE_META, EncodeMeta(Entries(files)))
  }

  function ChunkMessage(index: nat, offset: nat, data: Bytes): Bytes {
    M.EncodeVar(M.FILE_CHUNK, EncodeChunk(index, offset, data))
  }

  /** The chunk messages of one file from cursor `cur` on. */
  function FileMessages(index: nat, data: Bytes, cur: nat, chunk: nat): seq<Bytes>
    requires chunk > 0
    decreases |data| - cur
  {
    if cur >= |data| then []
    else
      var n := Min(chunk, |data| - cur);
      [ChunkMessage(index, cur, data[cur..cur + n])] + FileMessages(index, data, cur + n, chunk)
  }

  /** The chunk messages of files `i`, `i+1`, ..., each from its own cursor. */
  function AllMessages(files: seq<File>, cursors: seq<nat>, i: nat, chunk: nat): seq<Bytes>
    requires |cursors| == |files| && chunk > 0
    decreases |files| - i
  {
    if i >= |files| then []
    else FileMessages(i, files[i].data, cursors[i], chunk) + AllMessages(files, cursors, i + 1, chunk)
  }

  /** A count of zero for each of `n` files. */
  function NoneYet(n: nat): (r: seq<nat>)
    ensures |r| == n
  {
    seq(n, _ => 0)
  }

  function Transmission(files: seq<File>, chunk: nat): seq<Bytes>
    requires chunk > 0
  {
    [MetaMessage(files)] + AllMessages(files, NoneYet(|files|), 0, chunk)
  }

  // ---------------------------------------------------------------- the receiver

  datatype Receiver = Receiver(entries: seq<FileEntry>, buffers: seq<Bytes>, received: seq<nat>)

  ghost predicate ReceiverTyped(r: Receiver) {
    |r.buffers| == |r.entries| == |r.received|
  }

  function AfterMeta(entries: seq<FileEntry>): (r: Receiver)
    ensures ReceiverTyped(r)
  {
    Receiver(entries, seq(|entries|, i requires 0 <= i < |entries| => Zeros(entries[i].size)), NoneYet(|entries|))
  }

  /** `memcpy` at an offset. */
  function Overlay(buffer: Bytes, offset: nat, data: Bytes): (r: Bytes)
    requires offset + |data| <= |buffer|
    ensures |r| == |buffer|
  {
    buffer[..offset] + data + buffer[offset + |data|..]
  }

  function AcceptChunk(r: Receiver, c: Chunk): (r': Receiver)
    requires ReceiverTyped(r)
    ensures ReceiverTyped(r') && r'.entries == r.entries
  {
    if c.index >= |r.buffers| || c.offset + |c.data| > |r.buffers[c.index]| then r
    else r.(buffers := r.buffers[c.index := Overlay(r.buffers[c.index], c.offset, c.data)],
            received := r.received[c.index := r.received[c.index] + |c.data|])
  }

  /** One message of the channel; anything undecodable or of another kind is skipped. */
  function Accept(r: Receiver, msg: Bytes): (r': Receiver)
    requires ReceiverTyped(r)
    ensures ReceiverTyped(r')
  {
    match M.Decode(msg)
    case Var(kind, payload, _) =>
      if kind == M.FILE_PROMISE_META then
        match DecodeMeta(payload)
        case None => r
        case Some(entries) => AfterMeta(entries)
      else if kind == M.FILE_CHUNK then
        match DecodeChunk(payload)
        case None => r
        case Some(c) => AcceptChunk(r, c)
      else r
    case _ => r
  }

  /** What a `recv` into a buffer of `cap` bytes leaves of a message. */
  function Cut(msg: Bytes, cap: nat): Bytes { if |msg| <= cap then msg else msg[..cap] }

  /** One message as the receive loop hears it, through its 1 MiB buffer. */
  function Hear(r: Receiver, msg: Bytes): (r': Receiver)
    requires ReceiverTyped(r)
    ensures ReceiverTyped(r')
  {
    Accept(r, Cut(msg, MAX_FILE_MESSAGE))
  }

  function Drain(r: Receiver, msgs: seq<Bytes>): (r': Receiver)
    requires ReceiverTyped(r)
    ensures ReceiverTyped(r')
    decreases msgs
  {
    if msgs == [] then r else Drain(Hear(r, msgs[0]), msgs[1..])
  }

  /** Batching is irrelevant: draining in two calls is draining once. */
  lemma {:induction false} DrainInBatches(r: Receiver, a: seq<Bytes>, b: seq<Bytes>)
    requires ReceiverTyped(r)
    ensures Drain(r, a + b) == Drain(Drain(r, a), b)
    decreases a
  {
    if a == [] {
      assert a + b == b;
    } else {
      assert (a + b)[1..] == a[1..] + b;
      DrainInBatches(Hear(r, a[0]), a[1..], b);
    }
  }

  predicate Complete(r: Receiver, i: nat)
    requires ReceiverTyped(r)
  {
    i < |r.entries| && r.received[i] >= r.entries[i].size
  }

  predicate AllComplete(r: Receiver)
    requires ReceiverTyped(r)
  {
    r.entries != [] && forall i :: 0 <= i < |r.entries| ==> Complete(r, i)
  }

  function NewReceiver(): Receiver { Receiver([], [], []) }

  // ---------------------------------------------------------------- what the buffer lets through

  /** Chunk sizes whose length the frame header can state. */
  ghost predicate LegalChunk(chunk: nat) { 0 < chunk && chunk + 12 < U32 }

  /** The metadata message fits the receive buffer. */
  ghost predicate MetaFits(files: seq<File>) { |MetaMessage(files)| <= MAX_FILE_MESSAGE }

  /** Every message of the transmission fits the receive buffer. */
  ghost predicate Fits(files: seq<File>, chunk: nat) {
    MetaFits(files) && forall i :: 0 <= i < |files| ==> Min(chunk, |files[i].data|) <= ROOM
  }

  lemma Heard(r: Receiver, msg: Bytes)
    requires ReceiverTyped(r) && |msg| <= MAX_FILE_MESSAGE
    ensures Hear(r, msg) == Accept(r, msg)
  {
  }

  /** A message that does not fit is skipped. */
  lemma TooLongIsSkipped(r: Receiver, t: byte, payload: Bytes)
    requires ReceiverTyped(r) && M.IsKnown(t) && !M.IsFixed(t)
    requires MAX_FILE_MESSAGE < |payload| + 6 && |payload| < U32
    ensures Hear(r, M.EncodeVar(t, payload)) == r
  {
    M.TruncatedIsNoMessage(t, payload, MAX_FILE_MESSAGE);
  }

  /** The bytes in the last of the chunks that `rest` bytes are cut into. */
  function LastChunk(rest: nat, chunk: nat): (n: nat)
    requires chunk > 0
    ensures n <= chunk && n <= rest && (rest > 0 ==> n > 0)
    ensures rest > chunk ==> rest - n >= chunk
    decreases rest
  {
    if rest <= chunk then rest else LastChunk(rest - chunk, chunk)
  }

  /** How many bytes of a file have arrived when the sender's cursor is at `cur`: all of
      them while chunks fit the buffer; otherwise at most a shorter last chunk. */
  function Arrived(data: Bytes, cur: nat, chunk: nat): (n: nat)
    requires cur <= |data| && chunk > 0
    ensures n <= |data|
  {
    if chunk <= ROOM then cur
    else if cur < |data| || LastChunk(|data|, chunk) > ROOM then 0
    else LastChunk(|data|, chunk)
  }

  /** The buffer then: the start of the file, or only its end. */
  function Held(data: Bytes, cur: nat, chunk: nat): (r: Bytes)
    requires cur <= |data| && chunk > 0
    ensures |r| == |data|
  {
    if chunk <= ROOM then Partial(data, cur) else FromEnd(data, Arrived(data, cur, chunk))
  }

  function Partial(data: Bytes, have: nat): (r: Bytes)
    requires have <= |data|
    ensures |r| == |data| && r[..have] == data[..have]
  {
    data[..have] + Zeros(|data| - have)
  }

  function FromEnd(data: Bytes, have: nat): (r: Bytes)
    requires have <= |data|
    ensures |r| == |data|
  {
    Zeros(|data| - have) + data[|data| - have..]
  }

  // ---------------------------------------------------------------- end to end

  /** The cursors an in-order sender can have. */
  predicate OnGrid(data: Bytes, cur: nat, chunk: nat)
    requires chunk > 0
  {
    cur <= |data| && (cur < |data| ==> LastChunk(|data| - cur, chunk) == LastChunk(|data|, chunk))
  }

  /** Where the sender's cursor for file `k` is when it is at `cur` in file `i`. */
  function CursorOf(files: seq<File>, i: nat, cur: nat, k: nat): (n: nat)
    requires k < |files| && (i < |files| ==> cur <= |files[i].data|)
    ensures n <= |files[k].data|
  {
    if k < i then |files[k].data| else if k == i then cur else 0
  }

  /** `r` is the receiver when files before `i` and `cur` bytes of file `i` have been sent. */
  ghost predicate IsAt(r: Receiver, files: seq<File>, i: nat, cur: nat, chunk: nat)
    requires chunk > 0 && i <= |files| && (i < |files| ==> OnGrid(files[i].data, cur, chunk))
  {
    && r.entries == Entries(files) && |r.buffers| == |r.received| == |files|
    && forall k :: 0 <= k < |files| ==> FileIsAt(r, files, k, CursorOf(files, i, cur, k), chunk)
  }

  ghost predicate FileIsAt(r: Receiver, files: seq<File>, k: nat, cur: nat, chunk: nat)
    requires chunk > 0 && k < |files| == |r.buffers| == |r.received| && cur <= |files[k].data|
  {
    && r.received[k] == Arrived(files[k].data, cur, chunk)
    && r.buffers[k] == Held(files[k].data, cur, chunk)
  }

  /** What is still to come in that state. */
  function Rest(files: seq<File>, i: nat, cur: nat, chunk: nat): seq<Bytes>
    requires chunk > 0 && i <= |files| && (i < |files| ==> cur <= |files[i].data|)
  {
    if i == |files| then []
    else FileMessages(i, files[i].data, cur, chunk) + AllMessages(files, NoneYet(|files|), i + 1, chunk)
  }

  lemma MetaArrives(files: seq<File>, chunk: nat, r: Receiver)
    requires Carriable(files) && MetaFits(files) && chunk > 0 && ReceiverTyped(r)
    ensures IsAt(Hear(r, MetaMessage(files)), files, 0, 0, chunk)
  {
    var es := Entries(files);
    MetaRoundTrip(es);
    M.VarRoundTrip(M.FILE_PROMISE_META, EncodeMeta(es), []);
    assert MetaMessage(files) + [] == MetaMessage(files);
    Heard(r, MetaMessage(files));
    assert Accept(r, MetaMessage(files)) == AfterMeta(es);
    FreshIsAtStart(files, chunk);
  }

  lemma FreshIsAtStart(files: seq<File>, chunk: nat)
    requires chunk > 0
    ensures IsAt(AfterMeta(Entries(files)), files, 0, 0, chunk)
  {
    forall k | 0 <= k < |files|
      ensures Held(files[k].data, 0, chunk) == Zeros(|files[k].data|)
    {
    }
  }

  /** A chunk message that fits is accepted, one that does not is skipped. */
  lemma ChunkHeard(r: Receiver, index: nat, offset: nat, data: Bytes)
    requires ReceiverTyped(r) && index < U32 && offset < U64 && |data| + 12 < U32
    ensures Hear(r, ChunkMessage(index, offset, data)) ==
            if |data| <= ROOM then AcceptChunk(r, Chunk(index, offset, data)) else r
  {
    var payload := EncodeChunk(index, offset, data);
    var msg := ChunkMessage(index, offset, data);
    if |data| <= ROOM {
      ChunkRoundTrip(index, offset, data);
      M.VarRoundTrip(M.FILE_CHUNK, payload, []);
      assert msg + [] == msg;
      Heard(r, msg);
    } else {
      TooLongIsSkipped(r, M.FILE_CHUNK, payload);
    }
  }

  /** What one chunk does to the bytes held of its file. */
  lemma PieceLands(data: Bytes, cur: nat, n: nat, chunk: nat)
    requires chunk > 0 && OnGrid(data, cur, chunk) && cur < |data| && n == Min(chunk, |data| - cur)
    ensures OnGrid(data, cur + n, chunk)
    ensures n <= ROOM ==>
              && Overlay(Held(data, cur, chunk), cur, data[cur..cur + n]) == Held(data, cur + n, chunk)
              && Arrived(data, cur + n, chunk) == Arrived(data, cur, chunk) + n
    ensures n > ROOM ==>
              && Held(data, cur + n, chunk) == Held(data, cur, chunk)
              && Arrived(data, cur + n, chunk) == Arrived(data, cur, chunk)
  {
    if n <= ROOM {
      if chunk <= ROOM { OverlayExtends(data, cur, n); } else { OverlayAtEnd(data, cur); }
    }
  }

  lemma OverlayExtends(data: Bytes, cur: nat, n: nat)
    requires cur + n <= |data|
    ensures Overlay(Partial(data, cur), cur, data[cur..cur + n]) == Partial(data, cur + n)
  {
  }

  lemma OverlayAtEnd(data: Bytes, cur: nat)
    requires cur <= |data|
    ensures Overlay(FromEnd(data, 0), cur, data[cur..|data|]) == FromEnd(data, |data| - cur)
  {
  }

  lemma ChunkArrives(r: Receiver, files: seq<File>, i: nat, cur: nat, n: nat, chunk: nat)
    requires Addressable(files) && LegalChunk(chunk) && ReceiverTyped(r)
    requires i < |files| && OnGrid(files[i].data, cur, chunk) && cur < |files[i].data|
    requires n == Min(chunk, |files[i].data| - cur) && IsAt(r, files, i, cur, chunk)
    ensures OnGrid(files[i].data, cur + n, chunk)
    ensures IsAt(Hear(r, ChunkMessage(i, cur, files[i].data[cur..cur + n])), files, i, cur + n, chunk)
  {
    var piece := files[i].data[cur..cur + n];
    ChunkHeard(r, i, cur, piece);
    PieceLands(files[i].data, cur, n, chunk);
    assert FileIsAt(r, files, i, CursorOf(files, i, cur, i), chunk);
    var r', next := Hear(r, ChunkMessage(i, cur, piece)), cur + n;
    forall k | 0 <= k < |files|
      ensures FileIsAt(r', files, k, CursorOf(files, i, next, k), chunk)
    {
      assert FileIsAt(r, files, k, CursorOf(files, i, cur, k), chunk);
    }
  }

  /** A finished file leaves the receiver where the next file starts. */
  lemma NextFile(r: Receiver, files: seq<File>, i: nat, chunk: nat)
    requires i < |files| && chunk > 0 && IsAt(r, files, i, |files[i].data|, chunk)
    ensures IsAt(r, files, i + 1, 0, chunk)
    ensures Rest(files, i, |files[i].data|, chunk) == Rest(files, i + 1, 0, chunk)
  {
    var next := i + 1;
    forall k | 0 <= k < |files|
      ensures FileIsAt(r, files, k, CursorOf(files, next, 0, k), chunk)
    {
      assert FileIsAt(r, files, k, CursorOf(files, i, |files[i].data|, k), chunk);
    }
  }

  /** The next message is the chunk at the cursor. */
  lemma RestHead(files: seq<File>, i: nat, cur: nat, chunk: nat, n: nat)
    requires chunk > 0 && i < |files| && cur < |files[i].data| && n == Min(chunk, |files[i].data| - cur)
    ensures Rest(files, i, cur, chunk) ==
            [ChunkMessage(i, cur, files[i].data[cur..cur + n])] + Rest(files, i, cur + n, chunk)
  {
    Associate([ChunkMessage(i, cur, files[i].data[cur..cur + n])],
              FileMessages(i, files[i].data, cur + n, chunk), AllMessages(files, NoneYet(|files|), i + 1, chunk));
  }

  lemma Associate(a: seq<Bytes>, b: seq<Bytes>, c: seq<Bytes>)
    ensures (a + b) + c == a + (b + c)
  {
  }

  /** Skipping files that have been sent whole (empty ones included) changes nothing. */
  lemma {:induction false} SkipWhole(r: Receiver, files: seq<File>, i: nat, cur: nat, chunk: nat)
    returns (j: nat, c: nat)
    requires chunk > 0 && i <= |files| && (i < |files| ==> OnGrid(files[i].data, cur, chunk))
    requires IsAt(r, files, i, cur, chunk)
    ensures j <= |files| && (j < |files| ==> c < |files[j].data| && OnGrid(files[j].data, c, chunk))
    ensures Rest(files, j, c, chunk) == Rest(files, i, cur, chunk) && IsAt(r, files, j, c, chunk)
    decreases |files| - i
  {
    if i < |files| && cur == |files[i].data| {
      NextFile(r, files, i, chunk);
      j, c := SkipWhole(r, files, i + 1, 0, chunk);
    } else {
      j, c := i, cur;
    }
  }

  /** Hearing the next message goes with moving the cursor past its bytes. */
  lemma AdvanceOne(r: Receiver, files: seq<File>, i: nat, cur: nat, chunk: nat, a: seq<Bytes>, b: seq<Bytes>)
    returns (n: nat)
    requires Addressable(files) && LegalChunk(chunk) && ReceiverTyped(r)
    requires i < |files| && cur < |files[i].data| && OnGrid(files[i].data, cur, chunk)
    requires IsAt(r, files, i, cur, chunk) && a != [] && Rest(files, i, cur, chunk) == a + b
    ensures OnGrid(files[i].data, cur + n, chunk)
    ensures Rest(files, i, cur + n, chunk) == a[1..] + b
    ensures IsAt(Hear(r, a[0]), files, i, cur + n, chunk)
  {
    n := Min(chunk, |files[i].data| - cur);
    RestHead(files, i, cur, chunk, n);
    ChunkArrives(r, files, i, cur, n, chunk);
    DropFirst(a, b, ChunkMessage(i, cur, files[i].data[cur..cur + n]), Rest(files, i, cur + n, chunk));
  }

  lemma DropFirst(a: seq<Bytes>, b: seq<Bytes>, m: Bytes, rest: seq<Bytes>)
    requires a != [] && a + b == [m] + rest
    ensures a[0] == m && rest == a[1..] + b
  {
    assert (a + b)[0] == a[0];
    assert rest == ([m] + rest)[1..];
    assert a[1..] + b == (a + b)[1..];
  }

  /** Where a transfer stands after the chunk messages `a` when `b` are still to come. */
  lemma {:induction false} Advance(r: Receiver, files: seq<File>, i: nat, cur: nat, chunk: nat,
                                   a: seq<Bytes>, b: seq<Bytes>)
    returns (j: nat, c: nat)
    requires Addressable(files) && LegalChunk(chunk) && ReceiverTyped(r)
    requires i <= |files| && (i < |files| ==> OnGrid(files[i].data, cur, chunk))
    requires IsAt(r, files, i, cur, chunk) && Rest(files, i, cur, chunk) == a + b
    ensures j <= |files| && (j < |files| ==> c < |files[j].data| && OnGrid(files[j].data, c, chunk))
    ensures Rest(files, j, c, chunk) == b && IsAt(Drain(r, a), files, j, c, chunk)
    decreases a
  {
    if a == [] {
      j, c := SkipWhole(r, files, i, cur, chunk);
    } else {
      j, c := HearNext(r, files, i, cur, chunk, a, b);
      j, c := Advance(Hear(r, a[0]), files, j, c, chunk, a[1..], b);
    }
  }

  lemma HearNext(r: Receiver, files: seq<File>, i: nat, cur: nat, chunk: nat, a: seq<Bytes>, b: seq<Bytes>)
    returns (j: nat, c: nat)
    requires Addressable(files) && LegalChunk(chunk) && ReceiverTyped(r)
    requires i <= |files| && (i < |files| ==> OnGrid(files[i].data, cur, chunk))
    requires IsAt(r, files, i, cur, chunk) && a != [] && Rest(files, i, cur, chunk) == a + b
    ensures j <= |files| && (j < |files| ==> OnGrid(files[j].data, c, chunk))
    ensures Rest(files, j, c, chunk) == a[1..] + b && IsAt(Hear(r, a[0]), files, j, c, chunk)
  {
    j, c := SkipWhole(r, files, i, cur, chunk);
    var n := AdvanceOne(r, files, j, c, chunk, a, b);
    c := c + n;
  }

  ghost predicate Every(msgs: seq<Bytes>, p: Bytes -> bool) {
    forall k :: 0 <= k < |msgs| ==> p(msgs[k])
  }

  /** What holds of every chunk message holds of all messages of a file, and of all files. */
  lemma {:induction false} FileMessagesAre(index: nat, data: Bytes, cur: nat, chunk: nat, p: Bytes -> bool)
    requires 0 < chunk
    requires forall offset: nat, piece :: offset < |data| && |piece| <= chunk ==> p(ChunkMessage(index, offset, piece))
    ensures Every(FileMessages(index, data, cur, chunk), p)
    decreases |data| - cur
  {
    if cur < |data| { FileMessagesAre(index, data, cur + Min(chunk, |data| - cur), chunk, p); }
  }

  lemma {:induction false} AllMessagesAre(files: seq<File>, cursors: seq<nat>, i: nat, chunk: nat, p: Bytes -> bool)
    requires |cursors| == |files| && 0 < chunk
    requires forall index: nat, offset: nat, piece ::
               index < |files| && offset < |files[index].data| && |piece| <= chunk ==>
               p(ChunkMessage(index, offset, piece))
    ensures Every(AllMessages(files, cursors, i, chunk), p)
    decreases |files| - i
  {
    if i < |files| {
      FileMessagesAre(i, files[i].data, cursors[i], chunk, p);
      AllMessagesAre(files, cursors, i + 1, chunk, p);
    }
  }

  lemma {:induction false} DrainIgnored(r: Receiver, msgs: seq<Bytes>, p: Bytes -> bool)
    requires ReceiverTyped(r) && Every(msgs, p) && forall m :: p(m) ==> Hear(r, m) == r
    ensures Drain(r, msgs) == r
    decreases msgs
  {
    if msgs != [] {
      assert p(msgs[0]);
      DrainIgnored(r, msgs[1..], p);
    }
  }

  /** When the metadata does not fit the buffer, nothing is ever received. */
  lemma NothingWithoutMeta(files: seq<File>, chunk: nat, k: nat)
    requires Carriable(files) && !MetaFits(files) && LegalChunk(chunk)
    requires k <= |Transmission(files, chunk)|
    ensures Drain(NewReceiver(), Transmission(files, chunk)[..k]) == NewReceiver()
  {
    var msgs := Transmission(files, chunk);
    var p := (m: Bytes) => Hear(NewReceiver(), m) == NewReceiver();
    TooLongIsSkipped(NewReceiver(), M.FILE_PROMISE_META, EncodeMeta(Entries(files)));
    forall index: nat, offset: nat, piece | index < |files| && offset < |files[index].data| && |piece| <= chunk
      ensures p(ChunkMessage(index, offset, piece))
    {
      ChunkHeard(NewReceiver(), index, offset, piece);
    }
    AllMessagesAre(files, NoneYet(|files|), 0, chunk, p);
    FirstAndRest(msgs, k, p);
    DrainIgnored(NewReceiver(), msgs[..k], p);
  }

  lemma FirstAndRest(msgs: seq<Bytes>, k: nat, p: Bytes -> bool)
    requires msgs != [] && p(msgs[0]) && Every(msgs[1..], p) && k <= |msgs|
    ensures Every(msgs[..k], p)
  {
    assert forall i :: 0 < i < |msgs| ==> msgs[i] == msgs[1..][i - 1];
  }

  /** Where the receiver is after `k > 0` messages of a transfer with its metadata. */
  lemma TransferAt(files: seq<File>, chunk: nat, k: nat) returns (j: nat, c: nat)
    requires Carriable(files) && MetaFits(files) && LegalChunk(chunk)
    requires 0 < k <= |Transmission(files, chunk)|
    ensures j <= |files| && (j < |files| ==> c < |files[j].data| && OnGrid(files[j].data, c, chunk))
    ensures Rest(files, j, c, chunk) == Transmission(files, chunk)[k..]
    ensures IsAt(Drain(NewReceiver(), Transmission(files, chunk)[..k]), files, j, c, chunk)
  {
    var msgs := Transmission(files, chunk);
    MetaArrives(files, chunk, NewReceiver());
    assert msgs[1..] == Rest(files, 0, 0, chunk);
    SplitAfterFirst(msgs, k);
    var a, b := msgs[..k][1..], msgs[k..];
    j, c := Advance(Hear(NewReceiver(), msgs[0]), files, 0, 0, chunk, a, b);
  }

  lemma SplitAfterFirst(msgs: seq<Bytes>, k: nat)
    requires 0 < k <= |msgs|
    ensures msgs[1..] == msgs[..k][1..] + msgs[k..] && msgs[..k][0] == msgs[0]
  {
  }

  // ---------------------------------------------------------------- main results

  ghost predicate InOrder(files: seq<File>, r: Receiver) {
    && r.entries == Entries(files) && |r.received| == |r.buffers| == |files|
    && forall i :: 0 <= i < |files| ==>
         && r.received[i] <= |files[i].data| == |r.buffers[i]|
         && r.buffers[i][..r.received[i]] == files[i].data[..r.received[i]]
  }

  /** Only the last of several chunks fits the buffer, and its bytes are counted as if they
      were the start of the file, which is not zeros as the buffer there is. */
  predicate Torn(data: Bytes, chunk: nat)
    requires chunk > 0
  {
    && chunk > ROOM && |data| > chunk && LastChunk(|data|, chunk) <= ROOM
    && data[..LastChunk(|data|, chunk)] != Zeros(LastChunk(|data|, chunk))
  }

  ghost predicate NoneTorn(files: seq<File>, chunk: nat)
    requires chunk > 0
  {
    forall i :: 0 <= i < |files| ==> !Torn(files[i].data, chunk)
  }

  lemma HeldIsPrefix(data: Bytes, cur: nat, chunk: nat)
    requires chunk > 0 && cur <= |data| && !Torn(data, chunk)
    ensures var n := Arrived(data, cur, chunk); Held(data, cur, chunk)[..n] == data[..n]
  {
    if chunk > ROOM {
      var n := Arrived(data, cur, chunk);
      if n == |data| {
        AllFromEnd(data);
      } else if n > 0 {
        StartOfTail(data, n);
      }
    }
  }

  lemma AllFromEnd(data: Bytes)
    ensures FromEnd(data, |data|) == data
  {
  }

  lemma StartOfTail(data: Bytes, n: nat)
    requires 2 * n <= |data|
    ensures FromEnd(data, n)[..n] == Zeros(n)
  {
  }

  lemma AtIsInOrder(r: Receiver, files: seq<File>, j: nat, c: nat, chunk: nat)
    requires chunk > 0 && NoneTorn(files, chunk)
    requires j <= |files| && (j < |files| ==> OnGrid(files[j].data, c, chunk)) && IsAt(r, files, j, c, chunk)
    ensures InOrder(files, r)
  {
    forall i | 0 <= i < |files|
      ensures r.received[i] <= |files[i].data| == |r.buffers[i]|
      ensures r.buffers[i][..r.received[i]] == files[i].data[..r.received[i]]
    {
      assert FileIsAt(r, files, i, CursorOf(files, j, c, i), chunk);
      HeldIsPrefix(files[i].data, CursorOf(files, j, c, i), chunk);
    }
  }

  lemma CompleteWhen(r: Receiver, files: seq<File>, j: nat, c: nat, chunk: nat, i: nat)
    requires chunk > 0 && j <= |files| && (j < |files| ==> OnGrid(files[j].data, c, chunk))
    requires ReceiverTyped(r) && IsAt(r, files, j, c, chunk) && i < |files|
    ensures Complete(r, i) <==>
            |files[i].data| == 0
            || (CursorOf(files, j, c, i) == |files[i].data| && Min(chunk, |files[i].data|) <= ROOM)
  {
    assert FileIsAt(r, files, i, CursorOf(files, j, c, i), chunk);
  }

  /** Completion is reported exactly when nothing is still to come and nothing was too long. */
  lemma CompleteIffNothingLeft(r: Receiver, files: seq<File>, j: nat, c: nat, chunk: nat)
    requires files != [] && chunk > 0 && MetaFits(files)
    requires j <= |files| && (j < |files| ==> c < |files[j].data| && OnGrid(files[j].data, c, chunk))
    requires ReceiverTyped(r) && IsAt(r, files, j, c, chunk)
    ensures AllComplete(r) <==> Rest(files, j, c, chunk) == [] && Fits(files, chunk)
  {
    forall i | 0 <= i < |files|
      ensures Complete(r, i) <==>
              |files[i].data| == 0
              || (CursorOf(files, j, c, i) == |files[i].data| && Min(chunk, |files[i].data|) <= ROOM)
    {
      CompleteWhen(r, files, j, c, chunk, i);
    }
    if j < |files| { assert !Complete(r, j); }
  }

  /** The receiver after `k` messages of a transfer, drained through its 1 MiB buffer: it
      reports completion exactly when the last message has been drained and every message
      fits; and unless a file is torn it holds, of each file, a prefix of the source. */
  lemma ReceiverAfter(files: seq<File>, chunk: nat, k: nat)
    requires Carriable(files) && LegalChunk(chunk) && k <= |Transmission(files, chunk)|
    ensures var r := Drain(NewReceiver(), Transmission(files, chunk)[..k]);
            && (AllComplete(r) <==> k == |Transmission(files, chunk)| && files != [] && Fits(files, chunk))
            && (k == 0 || !MetaFits(files) ==> r == NewReceiver())
            && (k > 0 && MetaFits(files) && NoneTorn(files, chunk) ==> InOrder(files, r))
  {
    var msgs := Transmission(files, chunk);
    if !MetaFits(files) {
      NothingWithoutMeta(files, chunk, k);
    } else if k > 0 {
      var j, c := TransferAt(files, chunk, k);
      var r := Drain(NewReceiver(), msgs[..k]);
      if NoneTorn(files, chunk) { AtIsInOrder(r, files, j, c, chunk); }
      if files != [] { CompleteIffNothingLeft(r, files, j, c, chunk); }
    }
  }

  /** End to end: after the whole transmission, drained in any batching, completion is
      reported exactly when every message fits the buffer, and then the receiver holds
      exactly the names, sizes and bytes that were sent. */
  lemma TransferIsExact(files: seq<File>, chunk: nat)
    requires Carriable(files) && files != [] && LegalChunk(chunk)
    ensures var r := Drain(NewReceiver(), Transmission(files, chunk));
            && (AllComplete(r) <==> Fits(files, chunk))
            && (AllComplete(r) ==>
                  && r.entries == Entries(files)
                  && |r.buffers| == |files|
                  && forall i :: 0 <= i < |files| ==> r.buffers[i] == files[i].data)
  {
    var msgs := Transmission(files, chunk);
    ReceiverAfter(files, chunk, |msgs|);
    assert msgs[..|msgs|] == msgs;
    var r := Drain(NewReceiver(), msgs);
    if AllComplete(r) {
      FittingIsNotTorn(files, chunk);
      forall i | 0 <= i < |files|
        ensures r.buffers[i] == files[i].data
      {
        assert Complete(r, i);
        WholePrefix(r.buffers[i], files[i].data);
      }
    }
  }

  lemma FittingIsNotTorn(files: seq<File>, chunk: nat)
    requires chunk > 0 && Fits(files, chunk)
    ensures NoneTorn(files, chunk)
  {
  }

  lemma WholePrefix(a: Bytes, b: Bytes)
    requires |a| == |b| && a[..|b|] == b[..|b|]
    ensures a == b
  {
    assert a[..|b|] == a && b[..|b|] == b;
  }
}
