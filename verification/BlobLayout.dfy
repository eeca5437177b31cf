/** Where blob data goes: payloads are placed one after the other in the order in which their
    calls take the lock, each aligned to 32 bytes, and a payload whose checksum has been seen
    shares the place of the first one. */
module BlobLayout {
  import opened Bytes

  const HEADER_SIZE: nat := 36

  datatype Payload = Payload(csum: seq<Byte>, data: seq<Byte>)

  /** The first payload with the checksum of payload `i`. */
  function FirstSame(ps: seq<Payload>, i: nat): (j: nat)
    requires i < |ps|
    ensures j <= i && ps[j].csum == ps[i].csum
  {
    FirstWith(ps, ps[i].csum, 0, i)
  }

  function FirstWith(ps: seq<Payload>, csum: seq<Byte>, j: nat, i: nat): (k: nat)
    requires j <= i < |ps| && ps[i].csum == csum
    ensures j <= k <= i && ps[k].csum == csum
    decreases i - j
  {
    if ps[j].csum == csum then j else FirstWith(ps, csum, j + 1, i)
  }

  lemma {:induction false} FirstWithBound(ps: seq<Payload>, csum: seq<Byte>, j: nat, i: nat, k: nat)
    requires j <= k <= i < |ps| && ps[i].csum == csum && ps[k].csum == csum
    ensures FirstWith(ps, csum, j, i) <= k
    decreases k - j
  {
    if ps[j].csum != csum {
      FirstWithBound(ps, csum, j + 1, i, k);
    }
  }

  /** It is the first: no earlier payload has that checksum. */
  lemma FirstSameBound(ps: seq<Payload>, i: nat, k: nat)
    requires k <= i < |ps| && ps[k].csum == ps[i].csum
    ensures FirstSame(ps, i) <= k
  {
    FirstWithBound(ps, ps[i].csum, 0, i, k);
  }

  predicate IsFirst(ps: seq<Payload>, i: nat)
    requires i < |ps|
  {
    FirstSame(ps, i) == i
  }

  /** The write offset after all of `ps`: a fold over first occurrences only. */
  function WriteOffset(ps: seq<Payload>): (o: nat)
    ensures o >= HEADER_SIZE
  {
    if ps == [] then HEADER_SIZE
    else
      var before := WriteOffset(ps[..|ps| - 1]);
      if IsFirst(ps, |ps| - 1) then Align(before + |ps[|ps| - 1].data|) else before
  }

  function DataStart(ps: seq<Payload>, i: nat): (o: nat)
    requires i < |ps|
    ensures o >= HEADER_SIZE
  {
    WriteOffset(ps[..FirstSame(ps, i)])
  }

  /** The writer's table from checksums to data starts. */
  function CsumTable(ps: seq<Payload>): map<seq<Byte>, nat> {
    if ps == [] then map[]
    else
      var before := CsumTable(ps[..|ps| - 1]);
      var csum := ps[|ps| - 1].csum;
      if csum in before then before else before[csum := WriteOffset(ps[..|ps| - 1])]
  }

  /** The place noted for a checksum as the writer sees it, through a 32-bit cast; 0 if there is none. */
  function Found(table: map<seq<Byte>, nat>, csum: seq<Byte>): nat {
    if csum in table then table[csum] % TWO_32 else 0
  }

  // ---------- Growing by one payload ----------

  lemma FirstSamePrefix(ps: seq<Payload>, qs: seq<Payload>, i: nat)
    requires ps <= qs && i < |ps|
    ensures FirstSame(qs, i) == FirstSame(ps, i)
    ensures DataStart(qs, i) == DataStart(ps, i) && (IsFirst(qs, i) <==> IsFirst(ps, i))
  {
    var j, k := FirstSame(ps, i), FirstSame(qs, i);
    assert ps[j] == qs[j] && ps[k] == qs[k] && ps[i] == qs[i];
    FirstSameBound(ps, i, k);
    FirstSameBound(qs, i, j);
    assert ps[..j] == qs[..j];
  }

  /** The table holds the data start of every checksum seen. */
  lemma {:induction false} TableHas(ps: seq<Payload>, i: nat)
    requires i < |ps|
    ensures ps[i].csum in CsumTable(ps) && CsumTable(ps)[ps[i].csum] == DataStart(ps, i)
    decreases |ps|
  {
    var n, j := |ps| - 1, FirstSame(ps, i);
    var init := ps[..n];
    if j < n {
      hide DataStart, WriteOffset;
      TableHas(init, j);
      FirstSamePrefix(init, ps, j);
      SameFirst(ps, i);
    } else if ps[n].csum in CsumTable(init) {
      var k := TableOnly(init, ps[n].csum);
      FirstSameBound(ps, i, k);
      assert false;
    }
  }

  lemma SameFirst(ps: seq<Payload>, i: nat)
    requires i < |ps|
    ensures var j := FirstSame(ps, i); FirstSame(ps, j) == j && DataStart(ps, j) == DataStart(ps, i)
  {
    FirstSameBound(ps, i, FirstSame(ps, FirstSame(ps, i)));
  }

  /** And nothing else. */
  lemma {:induction false} TableOnly(ps: seq<Payload>, c: seq<Byte>) returns (i: nat)
    requires c in CsumTable(ps)
    ensures i < |ps| && ps[i].csum == c
    decreases |ps|
  {
    var n := |ps| - 1;
    if c == ps[n].csum {
      i := n;
    } else {
      i := TableOnly(ps[..n], c);
    }
  }

  /** What the locked step of a call does to table and write offset when the checksum is there. */
  lemma ReserveSeen(ps: seq<Payload>, p: Payload)
    requires p.csum in CsumTable(ps)
    ensures var qs := ps + [p];
            && !IsFirst(qs, |ps|)
            && DataStart(qs, |ps|) == CsumTable(ps)[p.csum] <= WriteOffset(ps)
            && WriteOffset(qs) == WriteOffset(ps) && CsumTable(qs) == CsumTable(ps)
  {
    var qs, n := ps + [p], |ps|;
    assert qs[..n] == ps;
    var k := TableOnly(ps, p.csum);
    FirstSameBound(qs, n, k);
    hide DataStart;
    SeenBefore(ps, p, FirstSame(qs, n));
  }

  /** And when it is not. */
  lemma ReserveFresh(ps: seq<Payload>, p: Payload)
    requires p.csum !in CsumTable(ps)
    ensures var qs := ps + [p];
            && IsFirst(qs, |ps|)
            && DataStart(qs, |ps|) == WriteOffset(ps)
            && WriteOffset(qs) == Align(WriteOffset(ps) + |p.data|)
            && CsumTable(qs) == CsumTable(ps)[p.csum := WriteOffset(ps)]
  {
    hide WriteOffset, Align, CsumTable, FirstSame;
    var qs := ps + [p];
    var n := |qs| - 1;
    NewIsFirst(ps, p);
    assert qs[..n] == ps && qs[n] == p;
    OffsetOfFirst(qs);
    TableOfFirst(qs);
  }

  lemma TableOfFirst(qs: seq<Payload>)
    requires qs != [] && qs[|qs| - 1].csum !in CsumTable(qs[..|qs| - 1])
    ensures CsumTable(qs) == CsumTable(qs[..|qs| - 1])[qs[|qs| - 1].csum := WriteOffset(qs[..|qs| - 1])]
  {
  }

  lemma OffsetOfFirst(qs: seq<Payload>)
    requires qs != [] && IsFirst(qs, |qs| - 1)
    ensures WriteOffset(qs) == Align(WriteOffset(qs[..|qs| - 1]) + |qs[|qs| - 1].data|)
  {
  }

  lemma NewIsFirst(ps: seq<Payload>, p: Payload)
    requires p.csum !in CsumTable(ps)
    ensures FirstSame(ps + [p], |ps|) == |ps|
  {
    var j := FirstSame(ps + [p], |ps|);
    if j < |ps| {
      TableHas(ps, j);
      assert false;
    }
  }

  lemma SeenBefore(ps: seq<Payload>, p: Payload, j: nat)
    requires j < |ps| && j == FirstSame(ps + [p], |ps|)
    ensures p.csum in CsumTable(ps) && DataStart(ps + [p], |ps|) == CsumTable(ps)[p.csum] <= WriteOffset(ps)
  {
    var qs := ps + [p];
    assert qs[j] == ps[j] && qs[..j] == ps[..j];
    TableHas(ps, j);
    FirstSamePrefix(ps, qs, j);
    SameFirst(qs, |ps|);
    OffsetMonotone(ps, FirstSame(ps, j));
  }

  /** A noted place is never the sentinel 0, and survives a 32-bit cast exactly if it is below 4 GiB. */
  lemma TableValueAnswered(ps: seq<Payload>, csum: seq<Byte>)
    requires csum in CsumTable(ps)
    ensures CsumTable(ps)[csum] > 0
    ensures CsumTable(ps)[csum] % TWO_32 == CsumTable(ps)[csum] <==> CsumTable(ps)[csum] < TWO_32
  {
    hide WriteOffset, CsumTable, DataStart, IsFirst;
    ReserveSeen(ps, Payload(csum, []));
  }

  /** Every repeated checksum has its place below 4 GiB. */
  ghost predicate PlacesBelow(ps: seq<Payload>) {
    forall i | 0 <= i < |ps| && !IsFirst(ps, i) :: DataStart(ps, i) < TWO_32
  }

  /** So the lookup for one more payload, if it finds anything, finds a place below 4 GiB. */
  lemma NextPlaceBelow(ps: seq<Payload>, p: Payload)
    requires PlacesBelow(ps + [p])
    ensures PlacesBelow(ps)
    ensures p.csum in CsumTable(ps) ==> CsumTable(ps)[p.csum] < TWO_32
  {
    hide WriteOffset, CsumTable, DataStart, IsFirst;
    var qs := ps + [p];
    forall i | 0 <= i < |ps|
      ensures DataStart(qs, i) == DataStart(ps, i) && (IsFirst(qs, i) <==> IsFirst(ps, i))
    {
      FirstSamePrefix(ps, qs, i);
    }
    if p.csum in CsumTable(ps) {
      ReserveSeen(ps, p);
    }
  }

  // ---------- Layout properties ----------

  lemma {:induction false} OffsetMonotone(ps: seq<Payload>, i: nat)
    requires i <= |ps|
    ensures WriteOffset(ps[..i]) <= WriteOffset(ps)
    decreases |ps|
  {
    if i < |ps| {
      OffsetMonotone(ps[..|ps| - 1], i);
      assert ps[..|ps| - 1][..i] == ps[..i];
    } else {
      assert ps[..i] == ps;
    }
  }

  /** A payload that is placed ends before everything placed later starts. */
  lemma PlacedBefore(ps: seq<Payload>, j: nat, i: nat)
    requires j < i <= |ps| && IsFirst(ps, j)
    ensures DataStart(ps, j) + |ps[j].data| <= WriteOffset(ps[..i])
  {
    var qs := ps[..j + 1];
    FirstSamePrefix(qs, ps, j);
    assert qs[..j] == ps[..j];
    OffsetMonotone(ps[..i], j + 1);
    assert ps[..i][..j + 1] == qs;
  }

  /** The ranges of two payloads are the same place or disjoint. */
  lemma RangesDisjoint(ps: seq<Payload>, i: nat, j: nat)
    requires i < |ps| && j < |ps| && IsFirst(ps, i) && IsFirst(ps, j) && i != j
    ensures DataStart(ps, i) + |ps[i].data| <= DataStart(ps, j) || DataStart(ps, j) + |ps[j].data| <= DataStart(ps, i)
  {
    if i < j {
      PlacedBefore(ps, i, j);
    } else {
      PlacedBefore(ps, j, i);
    }
  }

  /** All data lies between the header and the write offset. */
  lemma RangeInside(ps: seq<Payload>, i: nat)
    requires i < |ps| && IsFirst(ps, i)
    ensures HEADER_SIZE <= DataStart(ps, i) && DataStart(ps, i) + |ps[i].data| <= WriteOffset(ps)
  {
    PlacedBefore(ps, i, |ps|);
    assert ps[..|ps|] == ps;
  }

  /** No two payloads of the run have the same checksum and different data. */
  ghost predicate CollisionFree(ps: seq<Payload>) {
    forall i, j | 0 <= i < |ps| && 0 <= j < |ps| :: ps[i].csum == ps[j].csum ==> ps[i].data == ps[j].data
  }

  /** De-duplication: non-empty payloads share a place iff their checksums are equal. */
  lemma ShareIffSameChecksum(ps: seq<Payload>, i: nat, j: nat)
    requires i < |ps| && j < |ps| && ps[i].data != [] && ps[j].data != [] && CollisionFree(ps)
    ensures DataStart(ps, i) == DataStart(ps, j) <==> ps[i].csum == ps[j].csum
  {
    var a, b := FirstSame(ps, i), FirstSame(ps, j);
    SameFirst(ps, i);
    SameFirst(ps, j);
    if ps[i].csum == ps[j].csum {
      FirstSameBound(ps, i, Min(a, b));
      FirstSameBound(ps, j, Min(a, b));
    }
    if a != b {
      RangesDisjoint(ps, a, b);
    }
  }
}
