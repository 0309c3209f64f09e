/** The objects of the file channel as written (src/net/file_session.cpp,
    src/net/file_channel.cpp): each method against the functions of `FileSession`. */
module FileChannel {
  import opened ByteStrings
  import opened FileCodec
  import opened FileSession
  import M = MessageCodec

  /** The abstract message transport: `budget` more sends succeed; `inbox` has arrived. */
  class Transport {
    var outbox: seq<Bytes>
    var inbox: seq<Bytes>
    var budget: nat

    constructor (inbox: seq<Bytes>, budget: nat)
      ensures this.inbox == inbox && this.budget == budget && outbox == []
    {
      this.inbox, this.budget, outbox := inbox, budget, [];
    }

    method Send(msg: Bytes) returns (ok: bool)
      modifies this`outbox, this`budget
      ensures ok <==> old(budget) > 0
      ensures ok ==> outbox == old(outbox) + [msg] && budget == old(budget) - 1
      ensures !ok ==> outbox == old(outbox) && budget == old(budget)
    {
      ok := budget > 0;
      if ok { outbox, budget := outbox + [msg], budget - 1; }
    }

    /** The next message, cut to the buffer; empty when nothing is available. */
    method Recv(cap: nat) returns (msg: Bytes)
      modifies this`inbox
      ensures old(inbox) == [] ==> msg == [] && inbox == []
      ensures old(inbox) != [] ==> msg == Cut(old(inbox)[0], cap) && inbox == old(inbox)[1..]
    {
      if inbox == [] { return []; }
      msg := if |inbox[0]| <= cap then inbox[0] else inbox[0][..cap];
      inbox := inbox[1..];
    }
  }

  class FileSender {
    var files: seq<File>
    var cursors: seq<nat>

    ghost predicate Valid()
      reads this
    {
      |cursors| == |files|
    }

    constructor ()
      ensures Valid() && files == [] && cursors == []
    {
      files, cursors := [], [];
    }

    method AddFile(name: Bytes, data: Bytes)
      requires Valid()
      modifies this
      ensures Valid() && files == old(files) + [File(name, data)] && cursors == old(cursors) + [0]
    {
      files := files + [File(name, data)];
      cursors := cursors + [0];
    }

    method Meta() returns (b: Bytes)
      ensures b == EncodeMeta(Entries(files))
    {
      var entries: seq<FileEntry> := [];
      for i := 0 to |files|
        invariant entries == Entries(files)[..i]
      {
        entries := entries + [FileEntry(files[i].name, |files[i].data|)];
      }
      assert Entries(files)[..|files|] == Entries(files);
      b := EncodeFilePromiseMeta(entries);
    }

    method NextChunk(index: nat, chunkSize: nat) returns (chunk: Bytes)
      requires Valid()
      modifies this`cursors
      ensures Valid()
      ensures !(index < |files| && chunkSize > 0 && old(cursors)[index] < |files[index].data|) ==>
                chunk == [] && cursors == old(cursors)
      ensures index < |files| && chunkSize > 0 && old(cursors)[index] < |files[index].data| ==>
                var cur, d := old(cursors)[index], files[index].data;
                var n := Min(chunkSize, |d| - cur);
                && chunk == EncodeChunk(index, cur, d[cur..cur + n])
                && cursors == old(cursors)[index := cur + n]
    {
      if index >= |files| || chunkSize == 0 { return []; }
      var cur, d := cursors[index], files[index].data;
      if cur >= |d| { return []; }
      var n := Min(chunkSize, |d| - cur);
      chunk := EncodeChunk(index, cur, d[cur..cur + n]);
      cursors := cursors[index := cur + n];
    }

    predicate IsComplete(index: nat)
      requires Valid()
      reads this
    {
      index < |files| && cursors[index] >= |files[index].data|
    }
  }

  class FileReceiver {
    var entries: seq<FileEntry>
    var buffers: seq<Bytes>
    var received: seq<nat>

    ghost predicate Valid()
      reads this
    {
      ReceiverTyped(View())
    }

    function View(): Receiver
      reads this
    {
      Receiver(entries, buffers, received)
    }

    constructor ()
      ensures Valid() && View() == NewReceiver()
    {
      entries, buffers, received := [], [], [];
    }

    method AcceptMeta(data: Bytes) returns (ok: bool)
      requires Valid()
      modifies this
      ensures Valid() && (ok <==> DecodeMeta(data).Some?)
      ensures View() == match DecodeMeta(data) case None => old(View()) case Some(es) => AfterMeta(es)
    {
      var decoded := DecodeFilePromiseMeta(data);
      if decoded.None? { return false; }
      entries := decoded.value;
      buffers := [];
      received := NoneYet(|entries|);
      for i := 0 to |entries|
        invariant entries == decoded.value && received == NoneYet(|entries|)
        invariant buffers == AfterMeta(entries).buffers[..i]
      {
        buffers := buffers + [Zeros(entries[i].size)];
      }
      assert AfterMeta(entries).buffers[..|entries|] == AfterMeta(entries).buffers;
      ok := true;
    }

    method AcceptChunkBytes(data: Bytes) returns (ok: bool)
      requires Valid()
      modifies this`buffers, this`received
      ensures Valid()
      ensures View() == match DecodeChunk(data) case None => old(View()) case Some(c) => AcceptChunk(old(View()), c)
      ensures ok <==> match DecodeChunk(data)
                      case None => false
                      case Some(c) => c.index < |old(buffers)| && c.offset + |c.data| <= |old(buffers)[c.index]|
    {
      var decoded := DecodeChunk(data);
      if decoded.None? { return false; }
      var c := decoded.value;
      if c.index >= |buffers| { return false; }
      if c.offset + |c.data| > |buffers[c.index]| { return false; }
      buffers := buffers[c.index := Overlay(buffers[c.index], c.offset, c.data)];
      received := received[c.index := received[c.index] + |c.data|];
      ok := true;
    }

    method AllFilesComplete() returns (b: bool)
      requires Valid()
      ensures b <==> AllComplete(View())
    {
      for i := 0 to |entries|
        invariant forall k :: 0 <= k < i ==> Complete(View(), k)
      {
        if received[i] < entries[i].size {
          assert !Complete(View(), i);
          return false;
        }
      }
      b := |entries| > 0;
    }
  }

  // ---------------------------------------------------------------- sending

  /** One step of the inner loop: the chunk at the cursor heads what is left of the file. */
  lemma OneChunk(i: nat, d: Bytes, cur: nat, chunk: nat, all: seq<Bytes>, k: nat)
    requires chunk > 0 && cur < |d| && k <= |all| && all[k..] == FileMessages(i, d, cur, chunk)
    ensures var n := Min(chunk, |d| - cur);
            && k < |all| && all[..k + 1] == all[..k] + [ChunkMessage(i, cur, d[cur..cur + n])]
            && all[k + 1..] == FileMessages(i, d, cur + n, chunk)
  {
    var n := Min(chunk, |d| - cur);
    PopFront(all, k, ChunkMessage(i, cur, d[cur..cur + n]), FileMessages(i, d, cur + n, chunk));
  }

  lemma PopFront(all: seq<Bytes>, k: nat, m: Bytes, rest: seq<Bytes>)
    requires k <= |all| && all[k..] == [m] + rest
    ensures k < |all| && all[..k + 1] == all[..k] + [m] && all[k + 1..] == rest
  {
    assert all[k] == all[k..][0];
    assert all[k + 1..] == all[k..][1..];
  }

  /** Sends the rest of file `i`. A chunk whose send fails has left the cursor. */
  method SendFile(t: Transport, sender: FileSender, i: nat, chunk: nat) returns (ok: bool)
    requires sender.Valid() && i < |sender.files| && chunk > 0
    modifies t`outbox, t`budget, sender`cursors
    ensures sender.Valid()
    ensures var all := FileMessages(i, sender.files[i].data, old(sender.cursors)[i], chunk);
            && (ok <==> old(t.budget) >= |all|)
            && t.outbox == old(t.outbox) + all[..Min(old(t.budget), |all|)]
            && t.budget == old(t.budget) - Min(old(t.budget), |all|)
    ensures ok ==> sender.cursors[i] >= |sender.files[i].data|
    ensures forall k :: 0 <= k < |sender.files| && k != i ==> sender.cursors[k] == old(sender.cursors)[k]
  {
    ghost var d := sender.files[i].data;
    ghost var all := FileMessages(i, d, sender.cursors[i], chunk);
    ghost var k := 0;
    while !sender.IsComplete(i)
      invariant sender.Valid()
      invariant forall j :: 0 <= j < |sender.files| && j != i ==> sender.cursors[j] == old(sender.cursors)[j]
      invariant k <= |all| && all[k..] == FileMessages(i, d, sender.cursors[i], chunk)
      invariant t.outbox == old(t.outbox) + all[..k] && t.budget == old(t.budget) - k
      decreases |d| - sender.cursors[i]
    {
      OneChunk(i, d, sender.cursors[i], chunk, all, k);
      var piece := sender.NextChunk(i, chunk);
      if |piece| == 0 { break; }
      var sent := t.Send(M.EncodeVar(M.FILE_CHUNK, piece));
      if !sent { return false; }
      k := k + 1;
    }
    ok := true;
  }

  function ChunkOrDefault(chunkSize: nat): nat { if chunkSize == 0 then DEFAULT_CHUNK else chunkSize }

  /** Everything `sendAll` puts on the transport when no send fails. */
  function Outgoing(files: seq<File>, cursors: seq<nat>, chunkSize: nat): seq<Bytes>
    requires |cursors| == |files|
  {
    [MetaMessage(files)] + AllMessages(files, cursors, 0, ChunkOrDefault(chunkSize))
  }

  lemma Splice(out: seq<Bytes>, all: seq<Bytes>, k: nat, part: seq<Bytes>, rest: seq<Bytes>, b: nat)
    requires k <= |all| && all[k..] == part + rest && b <= |part|
    ensures k + b <= |all| && out + all[..k] + part[..b] == out + all[..k + b]
    ensures all[k + |part|..] == rest
  {
    assert all[k..][..b] == part[..b];
    assert all[..k + b] == all[..k] + all[k..][..b];
    assert all[k + |part|..] == all[k..][|part|..];
  }

  /** The final check of `sendAll`. */
  method AllSent(sender: FileSender) returns (b: bool)
    requires sender.Valid()
    ensures b <==> forall i :: 0 <= i < |sender.files| ==> sender.cursors[i] >= |sender.files[i].data|
  {
    for i := 0 to |sender.files|
      invariant forall j :: 0 <= j < i ==> sender.cursors[j] >= |sender.files[j].data|
    {
      if !sender.IsComplete(i) { return false; }
    }
    b := true;
  }

  /** The loop over the files. */
  method SendFiles(t: Transport, sender: FileSender, chunk: nat) returns (ok: bool)
    requires sender.Valid() && chunk > 0
    modifies t`outbox, t`budget, sender`cursors
    ensures sender.Valid()
    ensures var msgs := AllMessages(sender.files, old(sender.cursors), 0, chunk);
            && t.outbox == old(t.outbox) + msgs[..Min(old(t.budget), |msgs|)]
            && (ok <==> old(t.budget) >= |msgs|)
    ensures ok ==> forall i :: 0 <= i < |sender.files| ==> sender.cursors[i] >= |sender.files[i].data|
  {
    ghost var files, from := sender.files, sender.cursors;
    ghost var msgs := AllMessages(files, from, 0, chunk);
    ghost var k: nat := 0;
    assert msgs[0..] == msgs && old(t.outbox) + msgs[..0] == old(t.outbox);
    for i := 0 to |sender.files|
      invariant sender.Valid()
      invariant k <= |msgs| && msgs[k..] == AllMessages(files, from, i, chunk)
      invariant t.outbox == old(t.outbox) + msgs[..k] && t.budget == old(t.budget) - k
      invariant forall j :: i <= j < |files| ==> sender.cursors[j] == from[j]
      invariant forall j :: 0 <= j < i ==> sender.cursors[j] >= |files[j].data|
    {
      ghost var part := FileMessages(i, files[i].data, from[i], chunk);
      Splice(old(t.outbox), msgs, k, part, AllMessages(files, from, i + 1, chunk), Min(t.budget, |part|));
      ok := SendFile(t, sender, i, chunk);
      if !ok { return; }
      k := k + |part|;
    }
    ok := true;
  }

  /** `sendAll` terminates having sent the metadata and then every file's remaining chunks
      in order, or the longest prefix of that which the transport took. */
  method SendAll(t: Transport, sender: FileSender, chunkSize: nat) returns (ok: bool)
    requires sender.Valid() && |sender.files| < U32
    modifies t`outbox, t`budget, sender`cursors
    ensures sender.Valid()
    ensures var msgs := Outgoing(sender.files, old(sender.cursors), chunkSize);
            && t.outbox == old(t.outbox) + msgs[..Min(old(t.budget), |msgs|)]
            && (ok <==> old(t.budget) >= |msgs|)
    ensures ok ==> forall i :: 0 <= i < |sender.files| ==> sender.cursors[i] >= |sender.files[i].data|
  {
    var chunk := ChunkOrDefault(chunkSize);
    ghost var rest := AllMessages(sender.files, sender.cursors, 0, chunk);
    ghost var b := t.budget;
    var meta := sender.Meta();
    ok := t.Send(M.EncodeVar(M.FILE_PROMISE_META, meta));
    if !ok { return; }
    FirstThenRest(old(t.outbox), MetaMessage(sender.files), rest, b);
    ok := SendFiles(t, sender, chunk);
    if !ok { return; }
    ok := AllSent(sender);
  }

  lemma FirstThenRest(out: seq<Bytes>, m: Bytes, rest: seq<Bytes>, b: nat)
    requires b > 0
    ensures out + ([m] + rest)[..Min(b, 1 + |rest|)] == out + [m] + rest[..Min(b - 1, |rest|)]
  {
  }

  // ---------------------------------------------------------------- receiving

  /** The messages one `receiveAvailable` call hears: up to the first empty one. */
  function Available(inbox: seq<Bytes>): seq<Bytes>
    decreases inbox
  {
    if inbox == [] || inbox[0] == [] then [] else [inbox[0]] + Available(inbox[1..])
  }

  /** Messages that are not empty are all heard. */
  lemma {:induction false} AvailableIsAll(inbox: seq<Bytes>)
    requires forall i :: 0 <= i < |inbox| ==> inbox[i] != []
    ensures Available(inbox) == inbox
  {
    if inbox != [] {
      AvailableIsAll(inbox[1..]);
      assert inbox == [inbox[0]] + inbox[1..];
    }
  }

  lemma DrainFirst(r: Receiver, inbox: seq<Bytes>)
    requires ReceiverTyped(r) && inbox != [] && inbox[0] != []
    ensures Drain(r, Available(inbox)) == Drain(Hear(r, inbox[0]), Available(inbox[1..]))
  {
    assert ([inbox[0]] + Available(inbox[1..]))[1..] == Available(inbox[1..]);
  }

  method ReceiveAvailable(t: Transport, receiver: FileReceiver) returns (done: bool)
    requires receiver.Valid()
    modifies t`inbox, receiver
    ensures receiver.Valid()
    ensures receiver.View() == Drain(old(receiver.View()), Available(old(t.inbox)))
    ensures done <==> AllComplete(receiver.View())
  {
    ghost var target := Drain(receiver.View(), Available(t.inbox));
    while true
      invariant receiver.Valid()
      invariant Drain(receiver.View(), Available(t.inbox)) == target
      decreases |t.inbox|
    {
      if t.inbox != [] && t.inbox[0] != [] { DrainFirst(receiver.View(), t.inbox); }
      var msg := t.Recv(MAX_FILE_MESSAGE);
      if |msg| == 0 { break; }
      AcceptMessage(receiver, msg);
    }
    done := receiver.AllFilesComplete();
  }

  method AcceptMessage(receiver: FileReceiver, msg: Bytes)
    requires receiver.Valid()
    modifies receiver
    ensures receiver.Valid() && receiver.View() == Accept(old(receiver.View()), msg)
  {
    match M.Decode(msg)
    case Var(kind, payload, _) =>
      if kind == M.FILE_PROMISE_META {
        var _ := receiver.AcceptMeta(payload);
      } else if kind == M.FILE_CHUNK {
        var _ := receiver.AcceptChunkBytes(payload);
      }
    case _ =>
  }

  // ---------------------------------------------------------------- the two together

  /** What a fresh sender's `sendAll` puts on the transport, taken by a new receiver's
      `receiveAvailable` calls in two batches cut anywhere: the second call reports
      completion exactly when every message fits the 1 MiB buffer, the first exactly when
      moreover nothing was left for the second; and then everything has arrived exactly. */
  lemma SentIsReceived(files: seq<File>, chunkSize: nat, k: nat)
    requires Carriable(files) && files != [] && chunkSize + 12 < U32
    requires k <= |Outgoing(files, NoneYet(|files|), chunkSize)|
    ensures var msgs := Outgoing(files, NoneYet(|files|), chunkSize);
            var r1 := Drain(NewReceiver(), Available(msgs[..k]));
            var r2 := Drain(r1, Available(msgs[k..]));
            && (AllComplete(r2) <==> Fits(files, ChunkOrDefault(chunkSize)))
            && (AllComplete(r1) <==> k == |msgs| && Fits(files, ChunkOrDefault(chunkSize)))
            && (AllComplete(r2) ==>
                  && r2.entries == Entries(files) && |r2.buffers| == |files|
                  && forall i :: 0 <= i < |files| ==> r2.buffers[i] == files[i].data)
  {
    var chunk := ChunkOrDefault(chunkSize);
    var msgs := Outgoing(files, NoneYet(|files|), chunkSize);
    AllMessagesAre(files, NoneYet(|files|), 0, chunk, m => m != []);
    assert msgs[1..] == AllMessages(files, NoneYet(|files|), 0, chunk);
    assert forall i :: 0 < i < |msgs| ==> msgs[i] == msgs[1..][i - 1];
    AvailableIsAll(msgs[..k]);
    AvailableIsAll(msgs[k..]);
    DrainSplit(NewReceiver(), msgs, k);
    assert msgs == Transmission(files, chunk);
    ReceiverAfter(files, chunk, k);
    TransferIsExact(files, chunk);
  }

  lemma DrainSplit(r: Receiver, msgs: seq<Bytes>, k: nat)
    requires ReceiverTyped(r) && k <= |msgs|
    ensures Drain(Drain(r, msgs[..k]), msgs[k..]) == Drain(r, msgs)
  {
    assert msgs[..k] + msgs[k..] == msgs;
    DrainInBatches(r, msgs[..k], msgs[k..]);
  }
}
