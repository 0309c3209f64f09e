/** WebSocket framing (src/net/ws_frame.cpp; sections 5.2 and 5.3 of RFC 6455) and the
    reassembly of frames from an arbitrarily fragmented byte stream
    (src/net/frame_assembler.cpp). */
module WsFrames {
  import opened ByteStrings

  const MAX_PAYLOAD: nat := 100 * 1024 * 1024

  datatype Frame = Frame(fin: bool, opcode: nat, payload: Bytes)

  /** What the encoder is asked to send: a known opcode and a payload within the cap. */
  ghost predicate Sendable(f: Frame) { f.opcode < 16 && |f.payload| <= MAX_PAYLOAD }

  // ---------------------------------------------------------------- masking

  /** The payload transformation of section 5.3; `None` is an unmasked frame. */
  function Masked(s: Bytes, key: Option<Bytes>): (r: Bytes)
    requires key.Some? ==> |key.value| == 4
    ensures |r| == |s|
  {
    if key.None? then s else seq(|s|, i requires 0 <= i < |s| => Xor(s[i], key.value[i % 4]))
  }

  lemma MaskInvolution(s: Bytes, key: Option<Bytes>)
    requires key.Some? ==> |key.value| == 4
    ensures Masked(Masked(s, key), key) == s
  {
    if key.Some? {
      forall i | 0 <= i < |s|
        ensures Masked(Masked(s, key), key)[i] == s[i]
      {
        XorInvolution(s[i], key.value[i % 4]);
      }
    }
  }

  /** Bit `j` of a masked byte differs from the payload's exactly where the key byte has a one. */
  lemma MaskFlipsKeyBits(s: Bytes, key: Bytes, i: nat, j: nat)
    requires |key| == 4 && i < |s| && j < 8
    ensures Bit(Masked(s, Some(key))[i], j) != Bit(s[i], j) <==> Bit(key[i % 4], j) == 1
  {
    XorIsExclusiveOr(s[i], key[i % 4], j);
  }

  /** The all-zero key changes nothing. */
  lemma ZeroKeyIsNoMask(s: Bytes)
    ensures Masked(s, Some([0, 0, 0, 0])) == s
  {
    forall i | 0 <= i < |s|
      ensures Masked(s, Some([0, 0, 0, 0]))[i] == s[i]
    {
      Pow2Of8();
      XorBitsZero(s[i], 8);
    }
  }

  // ---------------------------------------------------------------- encoding

  function LengthBytes(maskBit: nat, len: nat): Bytes
    requires maskBit == 0 || maskBit == 128
  {
    if len < 126 then [maskBit + len]
    else if len <= 0xFFFF then [maskBit + 126] + BigEndian(len, 2)
    else [maskBit + 127] + BigEndian(len, 8)
  }

  function HeaderBytes(f: Frame, key: Option<Bytes>): Bytes
    requires f.opcode < 16
  {
    [(if f.fin then 128 else 0) + f.opcode]
    + LengthBytes(if key.Some? then 128 else 0, |f.payload|)
    + (if key.Some? then key.value else [])
  }

  function Encode(f: Frame, key: Option<Bytes>): Bytes
    requires f.opcode < 16 && (key.Some? ==> |key.value| == 4)
  {
    HeaderBytes(f, key) + Masked(f.payload, key)
  }

  /** The mask key: four random bytes, or zeros when the generator fails. */
  function MaskKey(random: Bytes): Bytes { if |random| == 4 then random else [0, 0, 0, 0] }

  method WsEncodeFrame(op: nat, payload: Bytes, masked: bool, fin: bool, random: Bytes) returns (f: Bytes)
    requires op < 16
    ensures f == Encode(Frame(fin, op, payload), if masked then Some(MaskKey(random)) else None)
  {
    ghost var key := if masked then Some(MaskKey(random)) else None;
    f := [(if fin then 128 else 0) + op];
    var maskBit := if masked then 128 else 0;
    var len := |payload|;
    if len < 126 {
      f := f + [maskBit + len];
    } else if len <= 0xFFFF {
      f := f + [maskBit + 126];
      var b := PutBigEndian(len, 2);
      f := f + b;
    } else {
      f := f + [maskBit + 127];
      var b := PutBigEndian(len, 8);
      f := f + b;
    }
    assert f == [(if fin then 128 else 0) + op] + LengthBytes(maskBit, len);
    if masked {
      var mk := MaskKey(random);
      f := f + mk;
      var body := ApplyMask(payload, Some(mk));
      f := f + body;
    } else {
      f := f + payload;
    }
  }

  /** On the wire: the four key bytes end the header, and after it bit `j` of byte `i` differs
      from the payload's exactly where the key has a one. */
  lemma MaskOnWire(f: Frame, key: Bytes, i: nat, j: nat)
    requires f.opcode < 16 && |key| == 4 && i < |f.payload| && j < 8
    ensures var w := Encode(f, Some(key));
            var h := |w| - |f.payload|;
            && h >= 4 && w[h - 4..h] == key
            && (Bit(w[h + i], j) != Bit(f.payload[i], j) <==> Bit(key[i % 4], j) == 1)
  {
    var w, head := Encode(f, Some(key)), HeaderBytes(f, Some(key));
    var h := |w| - |f.payload|;
    assert w[h - 4..h] == head[|head| - 4..];
    assert w[h + i] == Masked(f.payload, Some(key))[i];
    MaskFlipsKeyBits(f.payload, key, i, j);
  }

  /** The unmasked examples of section 5.7 of RFC 6455. */
  lemma RfcExamples()
    ensures var hello := [0x48, 0x65, 0x6c, 0x6c, 0x6f];
            && Encode(Frame(true, 1, hello), None) == [0x81, 0x05] + hello
            && (forall key: Bytes | |key| == 4 :: Encode(Frame(true, 1, hello), Some(key))[..2] == [0x81, 0x85])
            && Encode(Frame(false, 1, [0x48, 0x65, 0x6c]), None) == [0x01, 0x03, 0x48, 0x65, 0x6c]
    ensures forall b: Bytes | |b| == 256 :: Encode(Frame(true, 2, b), None)[..4] == [0x82, 0x7E, 0x01, 0x00]
    ensures forall b: Bytes | |b| == 65536 ::
              Encode(Frame(true, 2, b), None)[..10] == [0x82, 0x7F, 0, 0, 0, 0, 0, 1, 0, 0]
  {
    forall b: Bytes | |b| == 256
      ensures Encode(Frame(true, 2, b), None)[..4] == [0x82, 0x7E, 0x01, 0x00]
    {
      assert BigEndian(256, 2) == [1, 0];
    }
    forall b: Bytes | |b| == 65536
      ensures Encode(Frame(true, 2, b), None)[..10] == [0x82, 0x7F, 0, 0, 0, 0, 0, 1, 0, 0]
    {
      assert BigEndian(65536, 8) == [0, 0, 0, 0, 0, 1, 0, 0];
    }
  }

  // ---------------------------------------------------------------- decoding

  datatype Header = Short | TooLong | Header(fin: bool, opcode: nat, plen: nat, key: Option<Bytes>, start: nat)

  /** The length field: (payload length, position after it), or None when bytes are missing. */
  function ReadLength(buf: Bytes): Option<(nat, nat)>
    requires |buf| >= 2
  {
    var l := buf[1] % 128;
    if l == 126 then if |buf| < 4 then None else Some((Value(buf[2..4]), 4))
    else if l == 127 then if |buf| < 10 then None else Some((Value(buf[2..10]), 10))
    else Some((l, 2))
  }

  function ReadHeader(buf: Bytes): (h: Header)
    ensures h.Header? ==> 2 <= h.start <= |buf| && h.plen <= MAX_PAYLOAD && (h.key.Some? ==> |h.key.value| == 4)
  {
    if |buf| < 2 then Short
    else match ReadLength(buf)
         case None => Short
         case Some((plen, pos)) =>
           if plen > MAX_PAYLOAD then TooLong
           else if buf[1] < 128 then Header(buf[0] >= 128, buf[0] % 16, plen, None, pos)
           else if |buf| < pos + 4 then Short
           else Header(buf[0] >= 128, buf[0] % 16, plen, Some(buf[pos..pos + 4]), pos + 4)
  }

  datatype Decoded = NeedMore | ProtocolError | Got(frame: Frame, consumed: nat)

  function Decode(buf: Bytes): (d: Decoded)
    ensures d.Got? ==> 2 <= d.consumed <= |buf|
  {
    match ReadHeader(buf)
    case Short => NeedMore
    case TooLong => ProtocolError
    case Header(fin, opcode, plen, key, start) =>
      if |buf| < start + plen then NeedMore
      else Got(Frame(fin, opcode, Masked(buf[start..start + plen], key)), start + plen)
  }

  method DecodeLength(buf: Bytes) returns (r: Option<(nat, nat)>)
    requires |buf| >= 2
    ensures r == ReadLength(buf)
  {
    var plen: nat := buf[1] % 128;
    var pos := 2;
    if plen == 126 {
      if |buf| < pos + 2 { return None; }
      plen := GetBigEndian(buf[pos..], 2);
      assert buf[2..][..2] == buf[2..4];
      pos := pos + 2;
    } else if plen == 127 {
      if |buf| < pos + 8 { return None; }
      plen := GetBigEndian(buf[pos..], 8);
      assert buf[2..][..8] == buf[2..10];
      pos := pos + 8;
    }
    r := Some((plen, pos));
  }

  /** The header as written: the position advances over length and mask key. */
  method DecodeHeader(buf: Bytes) returns (h: Header)
    ensures h == ReadHeader(buf)
  {
    var len := |buf|;
    if len < 2 { return Short; }
    var fin := buf[0] >= 128;
    var opcode := buf[0] % 16;
    var masked := buf[1] >= 128;
    var length := DecodeLength(buf);
    if length.None? { return Short; }
    var plen, pos := length.value.0, length.value.1;
    if plen > MAX_PAYLOAD { return TooLong; }
    var mask: Option<Bytes> := None;
    if masked {
      if len < pos + 4 { return Short; }
      mask := Some(buf[pos..pos + 4]);
      pos := pos + 4;
    }
    h := Header(fin, opcode, plen, mask, pos);
  }

  /** The decoder as written; a loop fills the payload. */
  method WsDecodeFrame(buf: Bytes) returns (r: Decoded)
    ensures r == Decode(buf)
  {
    var h := DecodeHeader(buf);
    match h
    case Short => r := NeedMore;
    case TooLong => r := ProtocolError;
    case Header(fin, opcode, plen, mask, pos) =>
      if |buf| < pos + plen { return NeedMore; }
      var payload := ApplyMask(buf[pos..pos + plen], mask);
      r := Got(Frame(fin, opcode, payload), pos + plen);
  }

  /** The loop both directions share. */
  method ApplyMask(raw: Bytes, key: Option<Bytes>) returns (payload: Bytes)
    requires key.Some? ==> |key.value| == 4
    ensures payload == Masked(raw, key)
  {
    payload := [];
    for i := 0 to |raw|
      invariant payload == Masked(raw, key)[..i]
    {
      var b := raw[i];
      if key.Some? { b := Xor(b, key.value[i % 4]); }
      payload := payload + [b];
    }
  }

  // ---------------------------------------------------------------- one frame

  /** Bytes after a decidable prefix never change the verdict. */
  lemma HeaderExtends(b: Bytes, more: Bytes)
    requires !ReadHeader(b).Short?
    ensures ReadHeader(b + more) == ReadHeader(b)
  {
    assert (b + more)[0] == b[0] && (b + more)[1] == b[1];
    if |b| >= 4 { assert (b + more)[2..4] == b[2..4]; }
    if |b| >= 10 { assert (b + more)[2..10] == b[2..10]; }
    var pos := ReadLength(b).value.1;
    if |b| >= pos + 4 { assert (b + more)[pos..pos + 4] == b[pos..pos + 4]; }
  }

  lemma DecodeExtends(b: Bytes, more: Bytes)
    requires !Decode(b).NeedMore?
    ensures Decode(b + more) == Decode(b)
  {
    HeaderExtends(b, more);
    match ReadHeader(b)
    case Header(_, _, plen, _, start) =>
      assert (b + more)[start..start + plen] == b[start..start + plen];
    case _ =>
  }

  /** A number printed in an n-byte field is read back, whatever surrounds it. */
  lemma FieldReadsBack(a: Bytes, v: nat, n: nat, more: Bytes)
    requires v < Pow256(n)
    ensures Value((a + BigEndian(v, n) + more)[|a|..|a| + n]) == v
  {
    assert (a + BigEndian(v, n) + more)[|a|..|a| + n] == BigEndian(v, n);
    ValueOfBigEndian(v, n);
  }

  lemma ReadLengthOfEncoded(first: byte, maskBit: nat, len: nat, more: Bytes)
    requires (maskBit == 0 || maskBit == 128) && len <= MAX_PAYLOAD
    ensures var b := [first] + LengthBytes(maskBit, len) + more;
            && b[1] / 128 == maskBit / 128
            && ReadLength(b) == Some((len, 1 + |LengthBytes(maskBit, len)|))
  {
    var b := [first] + LengthBytes(maskBit, len) + more;
    WordSizes();
    if len < 126 {
      assert b[1] == maskBit + len;
    } else if len <= 0xFFFF {
      assert b == [first, maskBit + 126] + BigEndian(len, 2) + more;
      FieldReadsBack([first, maskBit + 126], len, 2, more);
    } else {
      assert b == [first, maskBit + 127] + BigEndian(len, 8) + more;
      FieldReadsBack([first, maskBit + 127], len, 8, more);
    }
  }

  lemma HeaderOfEncoded(f: Frame, key: Option<Bytes>, more: Bytes)
    requires Sendable(f) && (key.Some? ==> |key.value| == 4)
    ensures ReadHeader(HeaderBytes(f, key) + more) ==
            Header(f.fin, f.opcode, |f.payload|, key, |HeaderBytes(f, key)|)
  {
    var first := (if f.fin then 128 else 0) + f.opcode;
    var bit := if key.Some? then 128 else 0;
    var k := if key.Some? then key.value else [];
    var len := LengthBytes(bit, |f.payload|);
    var b := HeaderBytes(f, key) + more;
    assert b == [first] + len + (k + more);
    ReadLengthOfEncoded(first, bit, |f.payload|, k + more);
    var pos := 1 + |len|;
    if key.Some? { assert b[pos..pos + 4] == key.value; }
  }

  /** Decoding undoes encoding and consumes exactly one frame, whatever follows. */
  lemma DecodeOfEncode(f: Frame, key: Option<Bytes>, rest: Bytes)
    requires Sendable(f) && (key.Some? ==> |key.value| == 4)
    ensures Decode(Encode(f, key) + rest) == Got(f, |Encode(f, key)|)
  {
    var h, m := HeaderBytes(f, key), Masked(f.payload, key);
    HeaderOfEncoded(f, key, m + rest);
    var b := Encode(f, key) + rest;
    assert b == h + (m + rest);
    assert b[|h|..|h| + |m|] == m;
    MaskInvolution(f.payload, key);
  }

  // ---------------------------------------------------------------- the stream

  /** Reference reading of a whole stream: decode greedily from the front. */
  function Frames(b: Bytes): seq<Frame>
    decreases |b|
  {
    match Decode(b)
    case Got(f, n) => [f] + Frames(b[n..])
    case _ => []
  }

  datatype Sending = Sending(frame: Frame, key: Option<Bytes>)

  ghost predicate AllSendable(fs: seq<Sending>) {
    forall i :: 0 <= i < |fs| ==> Sendable(fs[i].frame) && (fs[i].key.Some? ==> |fs[i].key.value| == 4)
  }

  function Stream(fs: seq<Sending>): Bytes
    requires AllSendable(fs)
  {
    if fs == [] then [] else Encode(fs[0].frame, fs[0].key) + Stream(fs[1..])
  }

  function Payloads(fs: seq<Sending>): (r: seq<Frame>)
    ensures |r| == |fs|
  {
    seq(|fs|, i requires 0 <= i < |fs| => fs[i].frame)
  }

  lemma FramesOfEncoded(f: Frame, key: Option<Bytes>, rest: Bytes)
    requires Sendable(f) && (key.Some? ==> |key.value| == 4)
    ensures Frames(Encode(f, key) + rest) == [f] + Frames(rest)
  {
    DecodeOfEncode(f, key, rest);
    FramesCons(Encode(f, key), f, rest);
  }

  lemma FramesCons(e: Bytes, f: Frame, rest: Bytes)
    requires Decode(e + rest) == Got(f, |e|)
    ensures Frames(e + rest) == [f] + Frames(rest)
  {
    DropPrefix(e, rest);
  }

  lemma PayloadsCons(fs: seq<Sending>)
    requires fs != []
    ensures Payloads(fs) == [fs[0].frame] + Payloads(fs[1..])
  {
  }

  lemma DropPrefix(a: Bytes, b: Bytes)
    ensures (a + b)[|a|..] == b
  {
  }

  lemma {:induction false} FramesOfStream(fs: seq<Sending>)
    requires AllSendable(fs)
    ensures Frames(Stream(fs)) == Payloads(fs)
  {
    if fs != [] {
      FramesOfEncoded(fs[0].frame, fs[0].key, Stream(fs[1..]));
      FramesOfStream(fs[1..]);
      PayloadsCons(fs);
    }
  }

  // ---------------------------------------------------------------- the assembler

  class WsFrameAssembler {
    var buf: Bytes

    constructor ()
      ensures buf == []
    {
      buf := [];
    }

    method Feed(data: Bytes)
      modifies this
      ensures buf == old(buf) + data
    {
      buf := buf + data;
    }

    method Next() returns (out: Option<Frame>)
      modifies this
      ensures (buf, out) == NextStep(old(buf))
    {
      if buf == [] { return None; }
      var r := WsDecodeFrame(buf);
      match r
      case Got(f, consumed) =>
        buf := buf[consumed..];
        return Some(f);
      case ProtocolError =>
        buf := [];
        return None;
      case NeedMore =>
        return None;
    }
  }

  /** `next()`: the remaining buffer and the popped frame. */
  function NextStep(buf: Bytes): (Bytes, Option<Frame>) {
    match Decode(buf)
    case Got(f, n) => (buf[n..], Some(f))
    case ProtocolError => ([], None)
    case NeedMore => (buf, None)
  }

  datatype Event = Feed(data: Bytes) | Next

  /** An assembler with its history: bytes fed, frames popped, whether an error occurred. */
  datatype Assembly = Assembly(buf: Bytes, fed: Bytes, popped: seq<Frame>, broken: bool)

  function Step(s: Assembly, e: Event): Assembly {
    match e
    case Feed(data) => s.(buf := s.buf + data, fed := s.fed + data)
    case Next =>
      var (rest, out) := NextStep(s.buf);
      s.(buf := rest, popped := if out.Some? then s.popped + [out.value] else s.popped,
         broken := s.broken || Decode(s.buf).ProtocolError?)
  }

  function Run(events: seq<Event>): Assembly {
    if events == [] then Assembly([], [], [], false)
    else Step(Run(events[..|events| - 1]), events[|events| - 1])
  }

  /** Until the first protocol error, popping and buffering never change what the whole
      stream, past and future, denotes. */
  lemma {:induction false} PoppedPlusBuffered(events: seq<Event>, future: Bytes)
    requires !Run(events).broken
    ensures var s := Run(events); Frames(s.fed + future) == s.popped + Frames(s.buf + future)
  {
    if events != [] {
      var prefix, last := events[..|events| - 1], events[|events| - 1];
      var before := Run(prefix);
      if last.Feed? {
        PoppedPlusBuffered(prefix, last.data + future);
        FeedAssociates(before, last.data, future);
      } else {
        PoppedPlusBuffered(prefix, future);
        PopKeepsFrames(before, future);
      }
    }
  }

  lemma FeedAssociates(s: Assembly, data: Bytes, future: Bytes)
    ensures s.fed + (data + future) == Step(s, Feed(data)).fed + future
    ensures s.buf + (data + future) == Step(s, Feed(data)).buf + future
  {
  }

  lemma PopKeepsFrames(s: Assembly, future: Bytes)
    requires !Decode(s.buf).ProtocolError?
    ensures var t := Step(s, Next);
            s.popped + Frames(s.buf + future) == t.popped + Frames(t.buf + future)
  {
    if Decode(s.buf).Got? {
      var Got(f, n) := Decode(s.buf);
      DecodeExtends(s.buf, future);
      assert (s.buf + future)[n..] == s.buf[n..] + future;
      assert s.popped + ([f] + Frames(s.buf[n..] + future)) == (s.popped + [f]) + Frames(s.buf[n..] + future);
    }
  }

  /** When the error comes, exactly the frames before it have been popped, however the
      stream was cut. */
  lemma ErrorPoint(events: seq<Event>, future: Bytes)
    requires !Run(events).broken && Decode(Run(events).buf).ProtocolError?
    ensures Frames(Run(events).fed + future) == Run(events).popped
  {
    PoppedPlusBuffered(events, future);
    DecodeExtends(Run(events).buf, future);
  }

  /** Reassembly does not depend on fragmentation: however the encodings are cut into
      `feed` calls and however `next` calls are interleaved, no error occurs, what has been
      popped is a prefix of what was encoded, and once everything has been fed each `next`
      pops the following frame until all have been popped. */
  lemma ReassemblyIsFragmentationIndependent(fs: seq<Sending>, events: seq<Event>, rest: Bytes)
    requires AllSendable(fs) && Run(events).fed + rest == Stream(fs)
    ensures var s := Run(events);
            && !s.broken
            && s.popped <= Payloads(fs)
            && (rest == [] && s.popped != Payloads(fs) ==>
                  NextStep(s.buf).1 == Some(fs[|s.popped|].frame))
            && (Decode(s.buf).NeedMore? && rest == [] ==> s.popped == Payloads(fs))
  {
    StreamInvariant(fs, events, rest);
    var s := Run(events);
    assert s.buf + [] == s.buf;
    if s.popped != Payloads(fs) {
      assert |s.popped| < |fs|;
      NextOfStream(fs[|s.popped|..]);
    }
  }

  /** The buffer and what is still to come are the encodings of the frames not yet popped. */
  ghost predicate OnStream(fs: seq<Sending>, s: Assembly, rest: Bytes)
    requires AllSendable(fs)
  {
    && !s.broken && |s.popped| <= |fs|
    && s.popped == Payloads(fs)[..|s.popped|]
    && s.buf + rest == Stream(fs[|s.popped|..])
  }

  lemma {:induction false} StreamInvariant(fs: seq<Sending>, events: seq<Event>, rest: Bytes)
    requires AllSendable(fs) && Run(events).fed + rest == Stream(fs)
    ensures OnStream(fs, Run(events), rest)
  {
    if events == [] {
      assert fs[0..] == fs && [] + rest == rest;
    } else {
      var prefix := events[..|events| - 1];
      match events[|events| - 1]
      case Feed(data) =>
        FeedAssociates(Run(prefix), data, rest);
        StreamInvariant(fs, prefix, data + rest);
      case Next =>
        StreamInvariant(fs, prefix, rest);
        PopFromStream(fs, Run(prefix), rest);
    }
  }

  /** A well-formed stream starts with its first frame. */
  lemma NextOfStream(fs: seq<Sending>)
    requires AllSendable(fs) && fs != []
    ensures Decode(Stream(fs)) == Got(fs[0].frame, |Encode(fs[0].frame, fs[0].key)|)
    ensures Stream(fs)[|Encode(fs[0].frame, fs[0].key)|..] == Stream(fs[1..])
  {
    DecodeOfEncode(fs[0].frame, fs[0].key, Stream(fs[1..]));
    DropPrefix(Encode(fs[0].frame, fs[0].key), Stream(fs[1..]));
  }

  /** Taking the first frame off both the buffer and the stream it begins. */
  lemma BufferPops(buf: Bytes, rest: Bytes, fs: seq<Sending>)
    requires AllSendable(fs) && buf + rest == Stream(fs) && !Decode(buf).NeedMore?
    ensures fs != [] && Decode(buf).Got? && Decode(buf).frame == fs[0].frame
    ensures buf[Decode(buf).consumed..] + rest == Stream(fs[1..])
  {
    DecodeExtends(buf, rest);
    assert Stream(fs) != [];
    NextOfStream(fs);
    var n := Decode(buf).consumed;
    assert (buf + rest)[n..] == buf[n..] + rest;
  }

  lemma PopFromStream(fs: seq<Sending>, s: Assembly, rest: Bytes)
    requires AllSendable(fs) && OnStream(fs, s, rest)
    ensures OnStream(fs, Step(s, Next), rest)
  {
    if Decode(s.buf).NeedMore? {
      assert Step(s, Next) == s;
    } else {
      BufferPops(s.buf, rest, fs[|s.popped|..]);
      StepPops(s);
      OnStreamAfterPop(fs, s, Step(s, Next), rest);
    }
  }

  lemma OnStreamAfterPop(fs: seq<Sending>, s: Assembly, t: Assembly, rest: Bytes)
    requires AllSendable(fs) && OnStream(fs, s, rest) && |s.popped| < |fs| && !t.broken
    requires t.popped == s.popped + [fs[|s.popped|].frame] && t.buf + rest == Stream(fs[|s.popped|..][1..])
    ensures OnStream(fs, t, rest)
  {
    assert fs[|s.popped|..][1..] == fs[|t.popped|..];
    OnePopped(fs, s.popped, fs[|s.popped|].frame);
  }

  lemma StepPops(s: Assembly)
    requires Decode(s.buf).Got?
    ensures var Got(f, n) := Decode(s.buf);
            Step(s, Next) == Assembly(s.buf[n..], s.fed, s.popped + [f], s.broken)
  {
  }

  lemma OnePopped(fs: seq<Sending>, popped: seq<Frame>, f: Frame)
    requires |popped| < |fs| && popped == Payloads(fs)[..|popped|] && f == fs[|popped|].frame
    ensures popped + [f] == Payloads(fs)[..|popped| + 1]
  {
    assert Payloads(fs)[|popped|] == f;
  }
}
