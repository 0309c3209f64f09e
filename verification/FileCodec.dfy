/** File-transfer payloads (src/net/file_transfer.cpp): the promise metadata and the chunk. */
module FileCodec {
  import opened ByteStrings

  datatype FileEntry = FileEntry(name: Bytes, size: nat)

  const MAX_NAME: nat := 65535

  /** `static_cast<uint16_t>(name.size())`. */
  function Cast16(n: nat): nat { if n < 65536 then n else n % 65536 }

  function EncodeEntry(e: FileEntry): Bytes {
    BigEndian(Cast16(|e.name|), 2) + e.name + BigEndian(e.size, 8)
  }

  function EncodeEntries(es: seq<FileEntry>): Bytes {
    if es == [] then [] else EncodeEntry(es[0]) + EncodeEntries(es[1..])
  }

  function EncodeMeta(es: seq<FileEntry>): Bytes { BigEndian(Cast32(|es|), 4) + EncodeEntries(es) }

  /** One entry at the front, with what follows it. */
  function DecodeEntry(b: Bytes): (r: Option<(FileEntry, Bytes)>)
    ensures r.Some? ==> |r.value.0.name| <= MAX_NAME
  {
    if |b| < 2 then None
    else
      var nl := Value(b[..2]);
      WordSizes(); ValueBound(b[..2]);
      if |b| < 2 + nl + 8 then None
      else Some((FileEntry(b[2..2 + nl], Value(b[2 + nl..2 + nl + 8])), b[2 + nl + 8..]))
  }

  function DecodeEntries(b: Bytes, count: nat): (r: Option<seq<FileEntry>>)
    ensures r.Some? ==> |r.value| == count && forall i :: 0 <= i < count ==> |r.value[i].name| <= MAX_NAME
    decreases count
  {
    if count == 0 then Some([])
    else match DecodeEntry(b)
         case None => None
         case Some((e, rest)) =>
           match DecodeEntries(rest, count - 1)
           case None => None
           case Some(es) => Some([e] + es)
  }

  function DecodeMeta(b: Bytes): Option<seq<FileEntry>> {
    if |b| < 4 then None else DecodeEntries(b[4..], Value(b[..4]))
  }

  ghost predicate Sizes64(es: seq<FileEntry>) { forall i :: 0 <= i < |es| ==> es[i].size < U64 }

  ghost predicate ShortNames(es: seq<FileEntry>) { forall i :: 0 <= i < |es| ==> |es[i].name| <= MAX_NAME }

  lemma DecodeOfEncodedEntry(e: FileEntry, rest: Bytes)
    requires |e.name| <= MAX_NAME && e.size < U64
    ensures DecodeEntry(EncodeEntry(e) + rest) == Some((e, rest))
  {
    var n := |e.name|;
    var l, s := BigEndian(n, 2), BigEndian(e.size, 8);
    var b := EncodeEntry(e) + rest;
    WordSizes();
    ValueOfBigEndian(n, 2);
    ValueOfBigEndian(e.size, 8);
    assert b == l + e.name + s + rest;
    assert b[..2] == l && b[2..2 + n] == e.name && b[2 + n..2 + n + 8] == s && b[2 + n + 8..] == rest;
  }

  lemma {:induction false} DecodeOfEncodedEntries(es: seq<FileEntry>, rest: Bytes)
    requires ShortNames(es) && Sizes64(es)
    ensures DecodeEntries(EncodeEntries(es) + rest, |es|) == Some(es)
  {
    if es != [] {
      var tail := EncodeEntries(es[1..]);
      DecodeOfEncodedEntry(es[0], tail + rest);
      assert EncodeEntry(es[0]) + tail + rest == EncodeEntry(es[0]) + (tail + rest);
      DecodeOfEncodedEntries(es[1..], rest);
      assert es == [es[0]] + es[1..];
    }
  }

  lemma EntryBeginsWith(b: Bytes, e: FileEntry, rest: Bytes)
    requires DecodeEntry(b) == Some((e, rest))
    ensures |e.name| <= MAX_NAME && e.size < U64 && b == EncodeEntry(e) + rest
  {
    var n := |e.name|;
    var s := b[2 + n..2 + n + 8];
    WordSizes();
    ValueBound(s);
    BigEndianOfValue(s);
    BigEndianOfValue(b[..2]);
    assert b == b[..2] + b[2..2 + n] + s + rest;
  }

  lemma {:induction false} EntriesBeginWith(b: Bytes, es: seq<FileEntry>)
    requires DecodeEntries(b, |es|) == Some(es)
    ensures ShortNames(es) && Sizes64(es) && EncodeEntries(es) <= b
    decreases es
  {
    if es != [] {
      var (e, rest) := DecodeEntry(b).value;
      assert e == es[0] && DecodeEntries(rest, |es| - 1).value == es[1..];
      EntryBeginsWith(b, e, rest);
      EntriesBeginWith(rest, es[1..]);
      PrefixAfter(EncodeEntry(e), EncodeEntries(es[1..]), rest);
      forall i | 0 <= i < |es| ensures |es[i].name| <= MAX_NAME && es[i].size < U64 {
        assert i > 0 ==> es[i] == es[1..][i - 1];
      }
    }
  }

  lemma PrefixAfter(a: Bytes, b: Bytes, c: Bytes)
    requires b <= c
    ensures a + b <= a + c
  {
  }

  /** What is accepted as metadata begins with the encoding of those entries and of no others. */
  lemma MetaAccepts(b: Bytes, es: seq<FileEntry>)
    ensures DecodeMeta(b) == Some(es) <==> ShortNames(es) && Sizes64(es) && |es| < U32 && EncodeMeta(es) <= b
  {
    WordSizes();
    if DecodeMeta(b) == Some(es) {
      ValueBound(b[..4]);
      BigEndianOfValue(b[..4]);
      EntriesBeginWith(b[4..], es);
      assert b == b[..4] + b[4..];
    } else if |es| < U32 && ShortNames(es) && Sizes64(es) && EncodeMeta(es) <= b {
      var rest := b[|EncodeMeta(es)|..];
      assert b == BigEndian(|es|, 4) + (EncodeEntries(es) + rest);
      assert b[..4] == BigEndian(|es|, 4) && b[4..] == EncodeEntries(es) + rest;
      ValueOfBigEndian(|es|, 4);
      DecodeOfEncodedEntries(es, rest);
    }
  }

  /** The metadata comes back exactly when every name fits its 16-bit length and the count
      its 32-bit one. */
  lemma MetaRoundTrip(es: seq<FileEntry>)
    requires Sizes64(es)
    ensures DecodeMeta(EncodeMeta(es)) == Some(es) <==> ShortNames(es) && |es| < U32
  {
    var b := EncodeMeta(es);
    WordSizes();
    assert b[..4] == BigEndian(Cast32(|es|), 4);
    assert b[4..] == EncodeEntries(es);
    ValueOfBigEndian(Cast32(|es|), 4);
    if ShortNames(es) && |es| < U32 {
      DecodeOfEncodedEntries(es, []);
      assert EncodeEntries(es) + [] == EncodeEntries(es);
    }
  }

  function EncodeChunk(index: nat, offset: nat, data: Bytes): Bytes {
    BigEndian(index, 4) + BigEndian(offset, 8) + data
  }

  datatype Chunk = Chunk(index: nat, offset: nat, data: Bytes)

  function DecodeChunk(b: Bytes): Option<Chunk> {
    if |b| < 12 then None else Some(Chunk(Value(b[..4]), Value(b[4..12]), b[12..]))
  }

  lemma ChunkRoundTrip(index: nat, offset: nat, data: Bytes)
    requires index < U32 && offset < U64
    ensures DecodeChunk(EncodeChunk(index, offset, data)) == Some(Chunk(index, offset, data))
  {
    var b := EncodeChunk(index, offset, data);
    WordSizes();
    ValueOfBigEndian(index, 4);
    ValueOfBigEndian(offset, 8);
    assert b[..4] == BigEndian(index, 4) && b[4..12] == BigEndian(offset, 8) && b[12..] == data;
  }

  /** Any twelve octets or more are a chunk, and the encoding of that chunk. */
  lemma ChunkAccepts(b: Bytes, c: Chunk)
    ensures DecodeChunk(b) == Some(c) <==>
            c.index < U32 && c.offset < U64 && b == EncodeChunk(c.index, c.offset, c.data)
  {
    WordSizes();
    if DecodeChunk(b) == Some(c) {
      ValueBound(b[..4]);
      ValueBound(b[4..12]);
      BigEndianOfValue(b[..4]);
      BigEndianOfValue(b[4..12]);
      assert b == b[..4] + b[4..12] + b[12..];
    } else if c.index < U32 && c.offset < U64 {
      ChunkRoundTrip(c.index, c.offset, c.data);
    }
  }

  /** Where a chunk's parts are: four octets of index, eight of offset, the data. */
  lemma ChunkLayout(index: nat, offset: nat, data: Bytes)
    requires index < U32 && offset < U64
    ensures var b := EncodeChunk(index, offset, data);
            && |b| == 12 + |data| && Value(b[..4]) == index && Value(b[4..12]) == offset && b[12..] == data
  {
    var b := EncodeChunk(index, offset, data);
    WordSizes();
    ValueOfBigEndian(index, 4);
    ValueOfBigEndian(offset, 8);
    assert b[..4] == BigEndian(index, 4) && b[4..12] == BigEndian(offset, 8);
  }

  /** Where an entry's parts are: two octets of name length, the name, eight of size. */
  lemma EntryLayout(e: FileEntry)
    requires |e.name| <= MAX_NAME && e.size < U64
    ensures var b, n := EncodeEntry(e), |e.name|;
            && |b| == n + 10 && Value(b[..2]) == n && b[2..2 + n] == e.name && Value(b[2 + n..]) == e.size
  {
    var b, n := EncodeEntry(e), |e.name|;
    WordSizes();
    ValueOfBigEndian(n, 2);
    ValueOfBigEndian(e.size, 8);
    assert b[..2] == BigEndian(n, 2) && b[2 + n..] == BigEndian(e.size, 8);
  }

  /** The metadata: four octets of count, then the entries in order. */
  lemma MetaLayout(es: seq<FileEntry>, e: FileEntry)
    requires |es| + 1 < U32
    ensures var b := EncodeMeta(es);
            && Value(b[..4]) == |es|
            && EncodeMeta(es + [e])[4..] == b[4..] + EncodeEntry(e)
            && (es == [] ==> |b| == 4)
  {
    WordSizes();
    ValueOfBigEndian(|es|, 4);
    assert EncodeMeta(es)[..4] == BigEndian(|es|, 4) && EncodeMeta(es)[4..] == EncodeEntries(es);
    EntriesAppend(es, e);
  }

  lemma {:induction false} EntriesAppend(es: seq<FileEntry>, e: FileEntry)
    ensures EncodeEntries(es + [e]) == EncodeEntries(es) + EncodeEntry(e)
  {
    if es == [] {
      assert es + [e] == [e] && [e][1..] == [];
      assert EncodeEntries([e]) == EncodeEntry(e) + EncodeEntries([]);
    } else {
      assert (es + [e])[1..] == es[1..] + [e];
      EntriesAppend(es[1..], e);
    }
  }

  // ---------------------------------------------------------------- the loops as written

  method EncodeFilePromiseMeta(files: seq<FileEntry>) returns (b: Bytes)
    ensures b == EncodeMeta(files)
  {
    b := PutBigEndian(Cast32(|files|), 4);
    for i := 0 to |files|
      invariant b + EncodeEntries(files[i..]) == EncodeMeta(files)
    {
      var f := files[i];
      assert files[i..][1..] == files[i + 1..];
      var nl := PutBigEndian(Cast16(|f.name|), 2);
      var size := PutBigEndian(f.size, 8);
      assert b + (EncodeEntry(f) + EncodeEntries(files[i + 1..]))
          == (b + EncodeEntry(f)) + EncodeEntries(files[i + 1..]);
      assert b + EncodeEntry(f) == b + nl + f.name + size;
      b := b + nl + f.name + size;
    }
    assert b + EncodeEntries(files[|files|..]) == b;
  }

  method DecodeFilePromiseMeta(data: Bytes) returns (r: Option<seq<FileEntry>>)
    ensures r == DecodeMeta(data)
  {
    var out: seq<FileEntry> := [];
    if |data| < 4 { return None; }
    var count := GetBigEndian(data, 4);
    var pos := 4;
    PrependNothing(DecodeMeta(data));
    for i := 0 to count
      invariant 4 <= pos <= |data|
      invariant DecodeMeta(data) == Prepend(out, DecodeEntries(data[pos..], count - i))
    {
      var entry := GetEntry(data, pos);
      if entry.None? { return None; }
      PrependOne(out, entry.value.0, DecodeEntries(data[entry.value.1..], count - i - 1));
      pos := entry.value.1;
      out := out + [entry.value.0];
    }
    assert out + [] == out;
    r := Some(out);
  }

  method GetEntry(data: Bytes, pos: nat) returns (r: Option<(FileEntry, nat)>)
    requires pos <= |data|
    ensures r.Some? ==> pos < r.value.1 <= |data| && DecodeEntry(data[pos..]) == Some((r.value.0, data[r.value.1..]))
    ensures r.None? ==> DecodeEntry(data[pos..]).None?
  {
    if pos + 2 > |data| { return None; }
    var rest := data[pos..];
    var nl := GetBigEndian(rest, 2);
    if pos + 2 + nl + 8 > |data| { return None; }
    var size := GetBigEndian(rest[2 + nl..], 8);
    assert rest[2 + nl..][..8] == rest[2 + nl..2 + nl + 8];
    assert rest[2 + nl + 8..] == data[pos + 2 + nl + 8..];
    r := Some((FileEntry(rest[2..2 + nl], size), pos + 2 + nl + 8));
  }

  lemma PrependNothing(r: Option<seq<FileEntry>>)
    ensures Prepend([], r) == r
  {
    if r.Some? { assert [] + r.value == r.value; }
  }

  function Prepend(out: seq<FileEntry>, r: Option<seq<FileEntry>>): Option<seq<FileEntry>> {
    if r.None? then None else Some(out + r.value)
  }

  lemma PrependOne(out: seq<FileEntry>, e: FileEntry, r: Option<seq<FileEntry>>)
    ensures Prepend(out, if r.None? then None else Some([e] + r.value)) == Prepend(out + [e], r)
  {
    if r.Some? { assert out + ([e] + r.value) == out + [e] + r.value; }
  }
}
