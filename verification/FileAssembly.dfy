/** Reassembly by offset (src/net/file_session.cpp:36-68) when chunks arrive in any order. */
module FileAssembly {
  import opened ByteStrings
  import opened FileCodec
  import opened FileSession

  /** Receiving chunks one after another. */
  function AcceptAll(r: Receiver, cs: seq<Chunk>): (r': Receiver)
    requires ReceiverTyped(r)
    ensures ReceiverTyped(r') && r'.entries == r.entries
  {
    if cs == [] then r else AcceptChunk(AcceptAll(r, cs[..|cs| - 1]), cs[|cs| - 1])
  }

  ghost predicate Covers(c: Chunk, i: nat, p: int) {
    c.index == i && c.offset <= p < c.offset + |c.data|
  }

  /** Chunks of the promised files, inside them, no byte position delivered twice. */
  ghost predicate Deliverable(es: seq<FileEntry>, cs: seq<Chunk>) {
    && (forall k :: 0 <= k < |cs| ==> cs[k].index < |es| && cs[k].offset + |cs[k].data| <= es[cs[k].index].size)
    && (forall j, k, i: nat, p {:trigger Covers(cs[j], i, p), Covers(cs[k], i, p)} ::
          0 <= j < k < |cs| ==> !(Covers(cs[j], i, p) && Covers(cs[k], i, p)))
  }

  ghost predicate Delivers(cs: seq<Chunk>, i: nat, p: int) {
    exists k :: 0 <= k < |cs| && Covers(cs[k], i, p)
  }

  /** Positions of file `i` some chunk delivers. */
  ghost function Covered(cs: seq<Chunk>, i: nat, size: nat): set<int> {
    set p | 0 <= p < size && Delivers(cs, i, p)
  }

  ghost function Span(c: Chunk, i: nat): set<int> {
    if c.index != i then {} else Interval(c.offset, |c.data|)
  }

  function Interval(from: nat, len: nat): (r: set<int>)
    ensures forall p :: p in r <==> from <= p < from + len
  {
    if len == 0 then {} else Interval(from, len - 1) + {from + len - 1}
  }

  lemma {:induction false} IntervalSize(from: nat, len: nat)
    ensures |Interval(from, len)| == len
  {
    if len != 0 { IntervalSize(from, len - 1); }
  }

  lemma DeliverablePrefix(es: seq<FileEntry>, cs: seq<Chunk>)
    requires cs != [] && Deliverable(es, cs)
    ensures Deliverable(es, cs[..|cs| - 1])
  {
    var a := cs[..|cs| - 1];
    assert forall k :: 0 <= k < |a| ==> a[k] == cs[k];
  }

  lemma CoveredSplits(es: seq<FileEntry>, cs: seq<Chunk>, i: nat)
    requires cs != [] && Deliverable(es, cs) && i < |es|
    ensures var a, c := cs[..|cs| - 1], cs[|cs| - 1];
            && Covered(cs, i, es[i].size) == Covered(a, i, es[i].size) + Span(c, i)
            && Covered(a, i, es[i].size) !! Span(c, i)
  {
    var a, c := cs[..|cs| - 1], cs[|cs| - 1];
    forall p
      ensures Delivers(cs, i, p) <==> Delivers(a, i, p) || Covers(c, i, p)
      ensures !(Delivers(a, i, p) && Covers(c, i, p))
    {
      DeliversSplits(es, cs, i, p);
    }
  }

  lemma DeliversSplits(es: seq<FileEntry>, cs: seq<Chunk>, i: nat, p: int)
    requires cs != [] && Deliverable(es, cs)
    ensures var a, c := cs[..|cs| - 1], cs[|cs| - 1];
            && (Delivers(cs, i, p) <==> Delivers(a, i, p) || Covers(c, i, p))
            && !(Delivers(a, i, p) && Covers(c, i, p))
  {
    var a, last := cs[..|cs| - 1], |cs| - 1;
    assert forall k :: 0 <= k < |a| ==> a[k] == cs[k];
    if Delivers(a, i, p) {
      var k :| 0 <= k < |a| && Covers(a[k], i, p);
      assert Covers(cs[k], i, p) && !Covers(cs[last], i, p);
    }
    if Delivers(cs, i, p) {
      var k :| 0 <= k < |cs| && Covers(cs[k], i, p);
      assert k < |a| ==> Covers(a[k], i, p);
    }
  }

  /** In any order of arrival `received` counts exactly the positions delivered so far. */
  lemma {:induction false} ReceivedCountsDelivered(es: seq<FileEntry>, cs: seq<Chunk>, i: nat)
    requires Deliverable(es, cs) && i < |es|
    ensures var r := AcceptAll(AfterMeta(es), cs);
            r.received[i] == |Covered(cs, i, es[i].size)| && |r.buffers[i]| == es[i].size
  {
    if cs == [] {
      assert Covered(cs, i, es[i].size) == {};
    } else {
      var a, c := cs[..|cs| - 1], cs[|cs| - 1];
      DeliverablePrefix(es, cs);
      ReceivedCountsDelivered(es, a, i);
      BuffersKeepSize(es, a, c.index);
      CoveredSplits(es, cs, i);
      IntervalSize(c.offset, |c.data|);
    }
  }

  lemma {:induction false} BuffersKeepSize(es: seq<FileEntry>, cs: seq<Chunk>, i: nat)
    requires i < |es|
    ensures |AcceptAll(AfterMeta(es), cs).buffers[i]| == es[i].size
  {
    if cs != [] { BuffersKeepSize(es, cs[..|cs| - 1], i); }
  }

  /** A file is complete exactly when every one of its bytes has been delivered. */
  lemma CompleteIffCovered(es: seq<FileEntry>, cs: seq<Chunk>, i: nat)
    requires Deliverable(es, cs) && i < |es|
    ensures Complete(AcceptAll(AfterMeta(es), cs), i) <==> forall p :: 0 <= p < es[i].size ==> Delivers(cs, i, p)
  {
    var size := es[i].size;
    ReceivedCountsDelivered(es, cs, i);
    CountIsFullIffAll(cs, i, size);
  }

  lemma CountIsFullIffAll(cs: seq<Chunk>, i: nat, size: nat)
    ensures |Covered(cs, i, size)| >= size <==> forall p :: 0 <= p < size ==> Delivers(cs, i, p)
  {
    var covered, all := Covered(cs, i, size), Interval(0, size);
    IntervalSize(0, size);
    assert covered <= all;
    if |covered| >= size {
      SubsetOfSameSize(covered, all);
      forall p | 0 <= p < size
        ensures Delivers(cs, i, p)
      {
        assert p in all;
        assert p in covered;
      }
    }
    if forall p :: 0 <= p < size ==> Delivers(cs, i, p) { assert covered == all; }
  }

  lemma SubsetOfSameSize(a: set<int>, b: set<int>)
    requires a <= b && |a| >= |b|
    ensures a == b
  {
    assert |b - a| == |b| - |a|;
  }

  /** Every delivered byte is where its chunk says, and every other one is still zero. */
  lemma {:induction false} BufferHolds(es: seq<FileEntry>, cs: seq<Chunk>, i: nat, p: nat)
    requires Deliverable(es, cs) && i < |es| && p < es[i].size
    ensures |AcceptAll(AfterMeta(es), cs).buffers[i]| == es[i].size
    ensures forall k :: 0 <= k < |cs| && Covers(cs[k], i, p) ==>
              AcceptAll(AfterMeta(es), cs).buffers[i][p] == cs[k].data[p - cs[k].offset]
    ensures !Delivers(cs, i, p) ==> AcceptAll(AfterMeta(es), cs).buffers[i][p] == 0
  {
    BuffersKeepSize(es, cs, i);
    if cs != [] {
      var a, c := cs[..|cs| - 1], cs[|cs| - 1];
      DeliverablePrefix(es, cs);
      BufferHolds(es, a, i, p);
      BuffersKeepSize(es, a, c.index);
      DeliversSplits(es, cs, i, p);
      assert forall k :: 0 <= k < |a| ==> a[k] == cs[k];
    }
  }

  /** The assembled file does not depend on the order in which its chunks arrived. */
  lemma OrderIsIrrelevant(es: seq<FileEntry>, cs: seq<Chunk>, ds: seq<Chunk>, i: nat)
    requires Deliverable(es, cs) && Deliverable(es, ds) && multiset(cs) == multiset(ds) && i < |es|
    ensures AcceptAll(AfterMeta(es), cs).buffers[i] == AcceptAll(AfterMeta(es), ds).buffers[i]
    ensures AcceptAll(AfterMeta(es), cs).received[i] == AcceptAll(AfterMeta(es), ds).received[i]
  {
    forall p
      ensures Delivers(cs, i, p) <==> Delivers(ds, i, p)
    {
      SameDelivered(cs, ds, i, p);
      SameDelivered(ds, cs, i, p);
    }
    ReceivedCountsDelivered(es, cs, i);
    ReceivedCountsDelivered(es, ds, i);
    assert Covered(cs, i, es[i].size) == Covered(ds, i, es[i].size);
    forall p | 0 <= p < es[i].size
      ensures AcceptAll(AfterMeta(es), cs).buffers[i][p] == AcceptAll(AfterMeta(es), ds).buffers[i][p]
    {
      ByteIsOrderFree(es, cs, ds, i, p);
    }
  }

  lemma ByteIsOrderFree(es: seq<FileEntry>, cs: seq<Chunk>, ds: seq<Chunk>, i: nat, p: nat)
    requires Deliverable(es, cs) && Deliverable(es, ds) && multiset(cs) == multiset(ds)
    requires i < |es| && p < es[i].size
    ensures |AcceptAll(AfterMeta(es), cs).buffers[i]| == |AcceptAll(AfterMeta(es), ds).buffers[i]| == es[i].size
    ensures AcceptAll(AfterMeta(es), cs).buffers[i][p] == AcceptAll(AfterMeta(es), ds).buffers[i][p]
  {
    BufferHolds(es, cs, i, p);
    BufferHolds(es, ds, i, p);
    SameDelivered(ds, cs, i, p);
    if Delivers(cs, i, p) {
      var k :| 0 <= k < |cs| && Covers(cs[k], i, p);
      var j := Occurs(cs, ds, k);
      assert Covers(ds[j], i, p);
    }
  }

  lemma Occurs(cs: seq<Chunk>, ds: seq<Chunk>, k: nat) returns (j: nat)
    requires multiset(cs) == multiset(ds) && k < |cs|
    ensures j < |ds| && ds[j] == cs[k]
  {
    assert cs[k] in multiset(cs);
    assert cs[k] in multiset(ds);
    j :| 0 <= j < |ds| && ds[j] == cs[k];
  }

  lemma SameDelivered(cs: seq<Chunk>, ds: seq<Chunk>, i: nat, p: int)
    requires multiset(cs) == multiset(ds)
    ensures Delivers(cs, i, p) ==> Delivers(ds, i, p)
  {
    if Delivers(cs, i, p) {
      var k :| 0 <= k < |cs| && Covers(cs[k], i, p);
      var j := Occurs(cs, ds, k);
      assert Covers(ds[j], i, p);
    }
  }

  /** Reassembly: once chunks cut from a file's bytes cover it, the buffer is the file. */
  lemma AssembledIsSource(es: seq<FileEntry>, cs: seq<Chunk>, i: nat, source: Bytes)
    requires Deliverable(es, cs) && i < |es| && es[i].size == |source|
    requires forall k :: 0 <= k < |cs| && cs[k].index == i ==>
               cs[k].data == source[cs[k].offset..cs[k].offset + |cs[k].data|]
    requires Complete(AcceptAll(AfterMeta(es), cs), i)
    ensures AcceptAll(AfterMeta(es), cs).buffers[i] == source
  {
    CompleteIffCovered(es, cs, i);
    BuffersKeepSize(es, cs, i);
    forall p | 0 <= p < |source|
      ensures AcceptAll(AfterMeta(es), cs).buffers[i][p] == source[p]
    {
      assert Delivers(cs, i, p);
      var k :| 0 <= k < |cs| && Covers(cs[k], i, p);
      BufferHolds(es, cs, i, p);
    }
  }
}
