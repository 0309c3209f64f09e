/** The wire messages (src/net/message_codec.cpp, src/core/event_types.h): the 12-byte input
    event and the length-prefixed variable message, behind a protocol-version gate. */
module MessageCodec {
  import opened ByteStrings

  const PROTOCOL_VERSION: byte := 1
  const MAX_VAR_PAYLOAD: nat := 64 * 1024 * 1024

  const MOUSE_MOVE: byte := 1
  const MOUSE_BUTTON: byte := 2
  const KEY_EVENT: byte := 3
  const SWITCH_OWNER: byte := 4
  const HEARTBEAT: byte := 5
  const CLIPBOARD_UPDATE: byte := 6
  const FILE_PROMISE_META: byte := 7
  const FILE_CHUNK: byte := 8

  predicate IsFixed(t: byte) { t == MOUSE_MOVE || t == MOUSE_BUTTON || t == KEY_EVENT || t == HEARTBEAT }

  predicate IsKnown(t: byte) { 1 <= t <= 9 || t == 11 }

  // ---------------------------------------------------------------- little-endian fields

  function LittleEndian(v: nat, n: nat): (r: Bytes)
    ensures |r| == n
  {
    if n == 0 then [] else [v % 256] + LittleEndian(v / 256, n - 1)
  }

  function LittleValue(s: Bytes): nat {
    if s == [] then 0 else s[0] + 256 * LittleValue(s[1..])
  }

  lemma {:induction false} LittleRoundTrip(v: nat, n: nat)
    ensures v < Pow256(n) ==> LittleValue(LittleEndian(v, n)) == v
    ensures LittleValue(LittleEndian(v, n)) < Pow256(n)
  {
    if n != 0 { LittleRoundTrip(v / 256, n - 1); }
  }

  lemma {:induction false} LittleOfValue(s: Bytes)
    ensures LittleEndian(LittleValue(s), |s|) == s && LittleValue(s) < Pow256(|s|)
  {
    if s != [] {
      LittleOfValue(s[1..]);
      assert s == [s[0]] + s[1..];
    }
  }

  // ---------------------------------------------------------------- encoding

  /** dx and dy are 16-bit two's complement. */
  datatype InputEvent = InputEvent(version: byte, kind: byte, dx: int, dy: int, code: byte, down: byte,
                                   timestamp: nat)

  ghost predicate EventTyped(e: InputEvent) {
    -0x8000 <= e.dx < 0x8000 && -0x8000 <= e.dy < 0x8000 && e.timestamp < U32
  }

  function ToWord(v: int): nat
    requires -0x8000 <= v < 0x8000
  {
    if v < 0 then v + 0x10000 else v
  }

  function FromWord(w: nat): int { if w >= 0x8000 then w - 0x10000 else w }

  function EncodeEvent(e: InputEvent): (b: Bytes)
    requires EventTyped(e)
    ensures |b| == 12
  {
    [e.version, e.kind] + LittleEndian(ToWord(e.dx), 2) + LittleEndian(ToWord(e.dy), 2)
    + [e.code, e.down] + LittleEndian(e.timestamp, 4)
  }

  function ReadEvent(b: Bytes): InputEvent
    requires |b| >= 12
  {
    InputEvent(b[0], b[1], FromWord(LittleValue(b[2..4])), FromWord(LittleValue(b[4..6])), b[6], b[7],
               LittleValue(b[8..12]))
  }

  /** The length field is a 32-bit cast of the payload size. */
  function EncodeVar(t: byte, payload: Bytes): Bytes {
    [PROTOCOL_VERSION, t] + LittleEndian(Cast32(|payload|), 4) + payload
  }

  // ---------------------------------------------------------------- decoding

  datatype Decoded = NeedMore | VersionMismatch | Malformed
                   | Fixed(event: InputEvent)
                   | Var(kind: byte, payload: Bytes, consumed: nat)

  function Decode(data: Bytes): (d: Decoded)
    ensures d.Var? ==> d.consumed == 6 + |d.payload| <= |data| && |d.payload| <= MAX_VAR_PAYLOAD
  {
    if |data| < 2 then NeedMore
    else if data[0] != PROTOCOL_VERSION then VersionMismatch
    else if !IsKnown(data[1]) then Malformed
    else if IsFixed(data[1]) then if |data| < 12 then NeedMore else Fixed(ReadEvent(data))
    else if |data| < 6 then NeedMore
    else
      var n := LittleValue(data[2..6]);
      if n > MAX_VAR_PAYLOAD then Malformed
      else if |data| < 6 + n then NeedMore
      else Var(data[1], data[6..6 + n], 6 + n)
  }

  /** A variable message comes back, whatever follows it, exactly when its payload is
      within the 64 MiB bound. */
  lemma VarRoundTrip(t: byte, payload: Bytes, rest: Bytes)
    requires IsKnown(t) && !IsFixed(t)
    ensures Decode(EncodeVar(t, payload) + rest) == Var(t, payload, |EncodeVar(t, payload)|) <==>
            |payload| <= MAX_VAR_PAYLOAD
  {
    var data := EncodeVar(t, payload) + rest;
    var n := LittleEndian(Cast32(|payload|), 4);
    WordSizes();
    LittleRoundTrip(Cast32(|payload|), 4);
    assert data == [PROTOCOL_VERSION, t] + n + (payload + rest);
    assert data[2..6] == n;
    if |payload| <= MAX_VAR_PAYLOAD { assert data[6..6 + |payload|] == payload; }
  }

  /** The number two octets denote, the least significant first; four in `Quad`. */
  function Pair(a: int, b: int): int { a + 0x100 * b }

  function Quad(a: int, b: int, c: int, d: int): int {
    a + 0x100 * b + 0x1_0000 * c + 0x100_0000 * d
  }

  /** The variable message on the wire: version, type, the length in four octets with the least
      significant first, the payload. */
  lemma VarLayout(t: byte, payload: Bytes)
    requires |payload| < U32
    ensures var b := EncodeVar(t, payload);
            && |b| == 6 + |payload| && b[0] == 1 && b[1] == t
            && Quad(b[2], b[3], b[4], b[5]) == |payload|
            && b[6..] == payload
  {
    var n := LittleEndian(Cast32(|payload|), 4);
    WordSizes();
    LittleRoundTrip(Cast32(|payload|), 4);
    FourLittle(n);
    assert EncodeVar(t, payload) == [PROTOCOL_VERSION, t] + n + payload;
  }

  lemma TwoLittle(n: Bytes)
    requires |n| == 2
    ensures LittleValue(n) == Pair(n[0], n[1])
  {
    assert n[1..][1..] == [];
    assert LittleValue(n[1..]) == n[1..][0] as int + 256 * LittleValue(n[1..][1..]);
  }

  lemma FourLittle(n: Bytes)
    requires |n| == 4
    ensures LittleValue(n) == Quad(n[0], n[1], n[2], n[3])
  {
    TwoLittle(n[2..]);
    assert n[1..][1..] == n[2..];
    assert LittleValue(n[1..]) == n[1..][0] as int + 256 * LittleValue(n[2..]);
  }

  /** The input event on the wire: version, type, two 16-bit two's complement movements, code,
      down flag, and 32 bits of time, least significant octets first. */
  lemma EventLayout(e: InputEvent)
    requires EventTyped(e)
    ensures var b := EncodeEvent(e);
            && b[0] == e.version && b[1] == e.kind && b[6] == e.code && b[7] == e.down
            && Pair(b[2], b[3]) == (if e.dx < 0 then e.dx + 0x1_0000 else e.dx)
            && Pair(b[4], b[5]) == (if e.dy < 0 then e.dy + 0x1_0000 else e.dy)
            && Quad(b[8], b[9], b[10], b[11]) == e.timestamp
  {
    var x, y, t := LittleEndian(ToWord(e.dx), 2), LittleEndian(ToWord(e.dy), 2), LittleEndian(e.timestamp, 4);
    WordSizes();
    LittleRoundTrip(ToWord(e.dx), 2);
    LittleRoundTrip(ToWord(e.dy), 2);
    LittleRoundTrip(e.timestamp, 4);
    TwoLittle(x);
    TwoLittle(y);
    FourLittle(t);
    assert EncodeEvent(e) == [e.version, e.kind] + x + y + [e.code, e.down] + t;
  }

  /** What is accepted as a variable message begins with the encoding of that message and of no
      other. */
  lemma VarAccepts(data: Bytes, t: byte, payload: Bytes, n: nat)
    ensures Decode(data) == Var(t, payload, n) <==>
            && IsKnown(t) && !IsFixed(t) && |payload| <= MAX_VAR_PAYLOAD
            && n == 6 + |payload| && EncodeVar(t, payload) <= data
  {
    WordSizes();
    if Decode(data) == Var(t, payload, n) {
      LittleOfValue(data[2..6]);
      assert data[..n] == [PROTOCOL_VERSION, t] + data[2..6] + payload;
    } else if IsKnown(t) && !IsFixed(t) && |payload| <= MAX_VAR_PAYLOAD && EncodeVar(t, payload) <= data {
      var rest := data[|EncodeVar(t, payload)|..];
      VarRoundTrip(t, payload, rest);
      assert EncodeVar(t, payload) + rest == data;
    }
  }

  /** What is accepted as an input event begins with the encoding of that event and of no other. */
  lemma EventAccepts(data: Bytes, e: InputEvent)
    ensures Decode(data) == Fixed(e) <==>
            e.version == PROTOCOL_VERSION && IsFixed(e.kind) && EventTyped(e) && EncodeEvent(e) <= data
  {
    if Decode(data) == Fixed(e) {
      EventBeginsWith(data, e);
    }
    if e.version == PROTOCOL_VERSION && IsFixed(e.kind) && EventTyped(e) && EncodeEvent(e) <= data {
      EventRoundTrip(e, data[12..]);
      assert EncodeEvent(e) + data[12..] == data;
    }
  }

  lemma EventBeginsWith(data: Bytes, e: InputEvent)
    requires |data| >= 12 && e == ReadEvent(data)
    ensures EventTyped(e) && EncodeEvent(e) <= data
  {
    WordSizes();
    LittleOfValue(data[2..4]);
    LittleOfValue(data[4..6]);
    LittleOfValue(data[8..12]);
    assert data[..12] == data[..2] + data[2..4] + data[4..6] + data[6..8] + data[8..12];
  }

  /** Another version is told apart before anything else is looked at. */
  lemma MismatchIff(data: Bytes)
    ensures Decode(data).VersionMismatch? <==> |data| >= 2 && data[0] != 1
  {
  }

  /** A variable message that has lost its end is never taken for a message. */
  lemma TruncatedIsNoMessage(t: byte, payload: Bytes, k: nat)
    requires IsKnown(t) && !IsFixed(t) && 6 <= k < 6 + |payload| && |payload| < U32
    ensures Decode(EncodeVar(t, payload)[..k]).NeedMore? || Decode(EncodeVar(t, payload)[..k]).Malformed?
  {
    var n := LittleEndian(Cast32(|payload|), 4);
    WordSizes();
    LittleRoundTrip(Cast32(|payload|), 4);
    assert EncodeVar(t, payload)[..k] == [PROTOCOL_VERSION, t] + n + payload[..k - 6];
    assert EncodeVar(t, payload)[..k][2..6] == n;
  }

  /** An input event comes back unchanged, sign included. */
  lemma EventRoundTrip(e: InputEvent, rest: Bytes)
    requires EventTyped(e) && e.version == PROTOCOL_VERSION && IsFixed(e.kind)
    ensures Decode(EncodeEvent(e) + rest) == Fixed(e)
  {
    var data := EncodeEvent(e) + rest;
    WordSizes();
    LittleRoundTrip(ToWord(e.dx), 2);
    LittleRoundTrip(ToWord(e.dy), 2);
    LittleRoundTrip(e.timestamp, 4);
    assert data[2..4] == LittleEndian(ToWord(e.dx), 2);
    assert data[4..6] == LittleEndian(ToWord(e.dy), 2);
    assert data[8..12] == LittleEndian(e.timestamp, 4);
  }
}
