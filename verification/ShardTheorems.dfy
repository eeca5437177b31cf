/** What a V2 shard promises end to end: what was added is what is read back. */
module ShardTheorems {
  import opened Bytes
  import opened CStrings
  import opened BlobLayout
  import opened BlobStore
  import opened ShardFormat
  import opened ShardLayout
  import opened ShardReader
  import opened Sorting
  import Pool = ConstantPool
  import W = ShardWriter

  /** A file that a shard has been finished in, with every number in the range of its field. */
  ghost predicate Finished(c: Codec, bs: seq<BlobSpec>, plan: Plan, file: seq<Byte>) {
    && plan.Valid() && plan.In(file) && DataInPlace(file, Payloads(c, bs))
    && plan.base == WriteOffset(Payloads(c, bs))
    && |plan.headers| == |bs| && plan.names == W.SpecNames(bs)
    && (forall i | 0 <= i < |bs| ::
          && Acceptable(bs[i]) && bs[i].name in plan.strings && bs[i].contentType in plan.strings
          && plan.headers[i] == StoredBlob(c, bs, plan.strings, i))
    && InRange(c, bs, plan)
  }

  predicate InRange(c: Codec, bs: seq<BlobSpec>, plan: Plan) {
    && plan.End() < TWO_63
    && forall i | 0 <= i < |bs| :: |Packed(c, bs[i])| < TWO_63 && |bs[i].contents| < TWO_63
  }

  /** What a record's blob of a given name is expected to read as: the first one added under it. */
  function FirstAdded(bs: seq<BlobSpec>, ids: seq<nat>, name: CString): (r: Option<nat>)
    requires forall i | 0 <= i < |ids| :: ids[i] < |bs|
    ensures r.Some? ==> r.value < |bs| && bs[r.value].name == name
  {
    if ids == [] then None else if bs[ids[0]].name == name then Some(ids[0]) else FirstAdded(bs, ids[1..], name)
  }

  /** It is the first of the identifiers whose blob has the name. */
  lemma {:induction false} FirstAddedMeaning(bs: seq<BlobSpec>, ids: seq<nat>, name: CString, i: nat)
    requires (forall x | 0 <= x < |ids| :: ids[x] < |bs|) && i <= |ids|
    requires forall x | 0 <= x < i :: bs[ids[x]].name != name
    ensures i == |ids| ==> FirstAdded(bs, ids, name) == None
    ensures i < |ids| && bs[ids[i]].name == name ==> FirstAdded(bs, ids, name) == Some(ids[i])
    decreases i
  {
    if i > 0 {
      assert forall x | 0 <= x < i - 1 :: ids[1..][x] == ids[x + 1];
      FirstAddedMeaning(bs, ids[1..], name, i - 1);
    }
  }

  function ExpectedBlob(c: Codec, bs: seq<BlobSpec>, id: nat): Option<Blob>
    requires id < |bs|
  {
    var (b, p) := (bs[id], PayloadOf(c, bs[id]));
    if b.contents == [] then None
    else Some(Blob(b.flags % 65536, b.contentType[..Min(|b.contentType|, MAX_CONTENT_TYPE_SIZE - 1)], c.sha256(p.data),
                   |p.data|, |b.contents|, DataStart(Payloads(c, bs), id)))
  }

  function Expected(c: Codec, bs: seq<BlobSpec>, ids: seq<nat>, name: CString): Option<Blob>
    requires forall i | 0 <= i < |ids| :: ids[i] < |bs|
  {
    var id := FirstAdded(bs, ids, name);
    if id.None? then None else ExpectedBlob(c, bs, id.value)
  }

  /** What a blob loses on the way, exactly: its flags are kept if they fit 16 bits; its content
      type is kept up to 254 bytes, one less than the documented maximum; without contents
      nothing is read back. */
  lemma KeptExactly(c: Codec, bs: seq<BlobSpec>, id: nat)
    requires id < |bs|
    ensures var (b, r) := (bs[id], ExpectedBlob(c, bs, id));
            && (r.None? <==> b.contents == [])
            && (r.Some? ==> (r.value.contentType == b.contentType <==> |b.contentType| <= 254))
            && (r.Some? ==> (r.value.flags == b.flags <==> b.flags < 65536))
            && (r.Some? ==> r.value.uncompressedSize == |b.contents| && r.value.checksum == c.sha256(Packed(c, b)))
            && (r.Some? ==> (Compressed(r.value.flags) <==> Compressed(b.flags)))
            && (r.Some? ==> r.value.contentType == b.contentType[..Min(|b.contentType|, 254)] && r.value.flags == b.flags % 65536)
            && (r.Some? ==> var data := if b.flags % 2 == 1 then c.deflate(b.contents) else b.contents;
                            r.value.size == |data| && r.value.checksum == c.sha256(data))
  {
    W.PackedIs(c, bs[id]);
    var t := bs[id].contentType;
    if |t| <= 254 {
      assert t[..|t|] == t;
    } else {
      assert |t[..254]| == 254;
    }
  }

  // ---------- Strings ----------

  /** A pool string reads back whole if the buffer is large enough, else cut off. */
  lemma StringRead(file: seq<Byte>, hdr: Header, strings: seq<CString>, s: CString, n: nat)
    requires Has(file, hdr.stringTableStart, Pool.PoolBytes(strings)) && s in strings
    requires hdr.stringTableStart + |Pool.PoolBytes(strings)| < TWO_64 && n >= 2
    ensures var r := StringConstant(file, hdr, n, Pool.PoolOffset(strings, s));
            r.Some? && CStringOf(r.value) == s[..Min(|s|, n - 1)]
  {
    hide Pool.PoolBytes, Pool.PoolOffset, At, Slice, CStringOf, Zeros, Terminated;
    Pool.OffsetInside(strings, s);
    Pool.StringStored(file, hdr.stringTableStart, strings, s);
    BufferRead(file, hdr.stringTableStart + Pool.PoolOffset(strings, s), s, n);
  }

  lemma BufferRead(file: seq<Byte>, at: nat, s: CString, n: nat)
    requires At(file, at, Terminated(s)) && n >= 2
    ensures var got := Slice(file, n - 1, at);
            |got| > 0 && CStringOf(got + Zeros(n - |got|)) == s[..Min(|s|, n - 1)]
  {
    var got := Slice(file, n - 1, at);
    var (buf, k) := (got + Zeros(n - |got|), Min(|s|, n - 1));
    forall i | 0 <= i < k
      ensures buf[i] == s[i]
    {
      AtByte(file, at, Terminated(s), i);
    }
    if |s| < n - 1 {
      AtByte(file, at, Terminated(s), |s|);
    }
    NulFromUnique(buf, 0, k);
    assert buf[..k] == s[..k];
  }

  // ---------- Blob tables ----------

  /** Entry `i` of a record's table leads to the header of the blob it stands for. */
  lemma TableBlobRead(plan: Plan, file: seq<Byte>, k: nat, i: nat)
    requires plan.Valid() && plan.In(file) && plan.End() < TWO_63
    requires k < |plan.records| && i < |plan.records[k].blobs|
    ensures |plan.TableIds(k)| == |plan.records[k].blobs| && plan.TableIds(k)[i] < |plan.headers|
    ensures TableBlob(file, plan.RecordAt(k), i) == Some(Narrow(plan.headers[plan.TableIds(k)[i]]))
  {
    hide At, Concat, EncodeHeader, EncodeBlob, DecodeBlob, Slice, Sorted, Le, FromLe, Pool.PoolBytes,
      Plan.RecordParts, Align;
    var ids := plan.TableIds(k);
    TableIdsBelow(plan, k);
    plan.Regions();
    plan.TableInside(k);
    TableEntryAt(plan, file, k, i);
    AtSlice(file, plan.TableStart(k) + TABLE_ENTRY_BYTES * i, Le(plan.BlobStart(ids[i]), 8));
    Le8(plan.BlobStart(ids[i]));
    BlobHeaderAt(plan, file, ids[i]);
    AtSlice(file, plan.BlobStart(ids[i]), EncodeBlob(plan.headers[ids[i]]));
    BlobRoundTrip(plan.headers[ids[i]]);
  }

  lemma TableIdsBelow(plan: Plan, k: nat)
    requires plan.Valid() && k < |plan.records|
    ensures |plan.TableIds(k)| == |plan.records[k].blobs|
    ensures forall i | 0 <= i < |plan.TableIds(k)| :: plan.TableIds(k)[i] < |plan.headers|
  {
    hide Sorted;
    var ids := plan.TableIds(k);
    SortedLength(plan.records[k].blobs, ByBlobName(plan.names));
    forall i | 0 <= i < |ids|
      ensures ids[i] < |plan.headers|
    {
      assert ids[i] in ids;
    }
  }

  lemma TableEntryAt(plan: Plan, file: seq<Byte>, k: nat, i: nat)
    requires plan.Valid() && Has(file, plan.TablesStart(), Concat(plan.Tables())) && k < |plan.records| && i < |plan.TableIds(k)|
    ensures At(file, plan.TableStart(k) + TABLE_ENTRY_BYTES * i, Le(plan.BlobStart(plan.TableIds(k)[i]), 8))
  {
    hide At, Concat, Sorted, Le;
    ConcatHas(file, plan.TablesStart(), plan.Tables(), k);
    ConcatHas(file, plan.TableStart(k), plan.TableParts(k), i);
    ConcatSize(plan.TableParts(k)[..i], TABLE_ENTRY_BYTES);
  }

  lemma BlobHeaderAt(plan: Plan, file: seq<Byte>, id: nat)
    requires plan.Valid() && Has(file, plan.base, Concat(plan.HeaderParts())) && id < |plan.headers|
    ensures At(file, plan.BlobStart(id), EncodeBlob(plan.headers[id]))
  {
    hide At, Concat, EncodeBlob;
    ConcatHas(file, plan.base, plan.HeaderParts(), id);
    ConcatSize(plan.HeaderParts()[..id], BLOB_BYTES);
  }

  // ---------- Finding a blob ----------

  /** A stored header is recognised by its own name and by no other. */
  lemma NameRead(c: Codec, bs: seq<BlobSpec>, plan: Plan, file: seq<Byte>, id: nat, name: CString)
    requires Finished(c, bs, plan, file) && id < |bs|
    ensures IsNamed(file, plan.FileHeader(), Narrow(plan.headers[id]), name) <==> bs[id].name == name
  {
    hide Pool.PoolBytes, Pool.PoolOffset, Plan.HeaderParts, Plan.Tables, Plan.RecordParts, Concat, EncodeHeader,
      StringConstant, At, Has, CStringOf, StrNCmp, FirstBytes, Plan.RecordsStart, Plan.PoolStart, DataInPlace,
      DataStart, Payloads, Packed, WriteOffset;
    var stored := bs[id].name;
    HeaderSmall(c, bs, plan, file, id);
    StringRead(file, plan.FileHeader(), plan.strings, stored, MAX_NAME_SIZE + 1);
    var r := StringConstant(file, plan.FileHeader(), MAX_NAME_SIZE + 1, Pool.PoolOffset(plan.strings, stored));
    assert stored[..|stored|] == stored;
    StrNCmpEqual(r.value, FirstBytes(name, MAX_NAME_SIZE + 1));
    FirstBytesString(name, MAX_NAME_SIZE + 1);
  }

  /** All numbers of a header but its flags fit their fields. */
  lemma HeaderSmall(c: Codec, bs: seq<BlobSpec>, plan: Plan, file: seq<Byte>, id: nat)
    requires Finished(c, bs, plan, file) && id < |bs|
    ensures Narrow(plan.headers[id]) == plan.headers[id].(flags := bs[id].flags % 65536)
    ensures plan.headers[id] == StoredBlob(c, bs, plan.strings, id)
  {
    hide Pool.PoolBytes, Pool.PoolOffset, Plan.In, Concat, Plan.Tables, DataInPlace, DataStart, Payloads, WriteOffset,
      Align;
    Pool.OffsetInside(plan.strings, bs[id].name);
    Pool.OffsetInside(plan.strings, bs[id].contentType);
    DataStartBelow(Payloads(c, bs), id);
    plan.Regions();
  }

  lemma DataStartBelow(ps: seq<Payload>, i: nat)
    requires i < |ps|
    ensures DataStart(ps, i) <= WriteOffset(ps)
  {
    OffsetMonotone(ps, FirstSame(ps, i));
  }

  function NarrowOf(plan: Plan, id: Option<nat>): Option<SBlob>
    requires id.Some? ==> id.value < |plan.headers|
  {
    if id.None? then None else Some(Narrow(plan.headers[id.value]))
  }

  /** The record header with another count of blobs. */
  function Counting(plan: Plan, k: nat, l: nat): (r: SRecord)
    requires k < |plan.records|
    ensures r.blobTableLength == l && r.blobTableStart == plan.RecordAt(k).blobTableStart
  {
    plan.RecordAt(k).(blobTableLength := l)
  }

  lemma SameTable(file: seq<Byte>, r: SRecord, x: SRecord, i: nat)
    requires r.blobTableStart == x.blobTableStart
    ensures TableBlob(file, r, i) == TableBlob(file, x, i)
  {
    hide FromLe, DecodeBlob;
  }

  /** The linear search finds the first entry with the name, among as many as are counted. */
  lemma {:induction false} SearchFrom(c: Codec, bs: seq<BlobSpec>, plan: Plan, file: seq<Byte>, k: nat, l: nat,
                                      name: CString, i: nat, ids: seq<nat>)
    requires Finished(c, bs, plan, file) && k < |plan.records| && |plan.headers| == |bs|
    requires i <= l <= |plan.TableIds(k)| && ids == plan.TableIds(k)[i..l] && forall j | 0 <= j < |ids| :: ids[j] < |bs|
    ensures FirstNamed(file, plan.FileHeader(), Counting(plan, k, l), name, i) == NarrowOf(plan, FirstAdded(bs, ids, name))
    decreases |ids|
  {
    hide Sorted, Narrow, IsNamed, TableBlob, Plan.In, DataInPlace, DataStart, Payloads, Packed, WriteOffset, Concat,
      Plan.Tables, StoredBlob, InRange, Plan.FileHeader, Plan.TableIds, Plan.Valid, Counting;
    TableIdsBelow(plan, k);
    if i < l {
      TableBlobRead(plan, file, k, i) by { EndSmall(c, bs, plan); }
      SameTable(file, plan.RecordAt(k), Counting(plan, k, l), i);
      NameRead(c, bs, plan, file, plan.TableIds(k)[i], name);
      assert ids[1..] == plan.TableIds(k)[i + 1..l] && ids[0] == plan.TableIds(k)[i];
      SearchFrom(c, bs, plan, file, k, l, name, i + 1, ids[1..]);
    }
  }

  lemma EndSmall(c: Codec, bs: seq<BlobSpec>, plan: Plan)
    requires InRange(c, bs, plan)
    ensures plan.End() < TWO_63
  {
  }

  /** Sorting a table by name does not change which blob comes first under a name. */
  lemma FirstAddedSorted(bs: seq<BlobSpec>, ids: seq<nat>, name: CString)
    requires forall i | 0 <= i < |ids| :: ids[i] < |bs|
    ensures var t := Sorted<nat>(ids, ByBlobName(W.SpecNames(bs)));
            (forall i | 0 <= i < |t| :: t[i] < |bs|) && FirstAdded(bs, t, name) == FirstAdded(bs, ids, name)
  {
    hide Sorted, WithKey;
    var key := ByBlobName(W.SpecNames(bs));
    var t := Sorted<nat>(ids, key);
    SortedLength(ids, key);
    forall i | 0 <= i < |t|
      ensures t[i] < |bs|
    {
      assert t[i] in t;
    }
    SortedStable(ids, key, name);
    FirstAddedIs(bs, ids, name);
    FirstAddedIs(bs, t, name);
  }

  lemma {:induction false} FirstAddedIs(bs: seq<BlobSpec>, ids: seq<nat>, name: CString)
    requires forall i | 0 <= i < |ids| :: ids[i] < |bs|
    ensures var w := WithKey(ids, ByBlobName(W.SpecNames(bs)), name);
            FirstAdded(bs, ids, name) == if w == [] then None else Some(w[0])
  {
    if ids != [] {
      FirstAddedIs(bs, ids[1..], name);
    }
  }

  // ---------- Reading a blob ----------

  /** What a header is handed out as. */
  lemma BlobRead(c: Codec, bs: seq<BlobSpec>, plan: Plan, file: seq<Byte>, id: nat)
    requires Finished(c, bs, plan, file) && id < |bs|
    ensures BlobNew(file, plan.FileHeader(), Narrow(plan.headers[id])) == ExpectedBlob(c, bs, id)
  {
    hide Pool.PoolBytes, Pool.PoolOffset, Plan.HeaderParts, Plan.Tables, Plan.RecordParts, Concat, EncodeHeader,
      StringConstant, At, Has, CStringOf, Plan.RecordsStart, Plan.PoolStart, DataInPlace, DataStart, Payloads, Packed,
      WriteOffset, Narrow;
    HeaderSmall(c, bs, plan, file, id);
    StringRead(file, plan.FileHeader(), plan.strings, bs[id].contentType, MAX_CONTENT_TYPE_SIZE);
  }

  /** What a record keeps of its blobs: all of them up to 255. The count is stored in one byte, so
      of more only the first in the order of names are left, as many as the byte says. */
  function KeptIds(bs: seq<BlobSpec>, ids: seq<nat>): (kept: seq<nat>)
    ensures |kept| == |ids| % 256
  {
    SortedLength(ids, ByBlobName(W.SpecNames(bs)));
    if |ids| <= 255 then ids else Sorted<nat>(ids, ByBlobName(W.SpecNames(bs)))[..|ids| % 256]
  }

  lemma KeptIdsBelow(bs: seq<BlobSpec>, ids: seq<nat>, n: nat)
    requires forall i | 0 <= i < |ids| :: ids[i] < n
    ensures forall i | 0 <= i < |KeptIds(bs, ids)| :: KeptIds(bs, ids)[i] < n
  {
    hide Sorted;
    var key := ByBlobName(W.SpecNames(bs));
    SortedLength(ids, key);
    forall i | 0 <= i < |KeptIds(bs, ids)|
      ensures KeptIds(bs, ids)[i] < n
    {
      if |ids| > 255 {
        assert Sorted<nat>(ids, key)[i] in Sorted<nat>(ids, key);
      }
    }
  }

  /** Reading the blob of a name from a stored record gives the first blob that was added under it,
      of those the record keeps: same flags, content type up to 254 bytes, checksum, sizes and place. */
  lemma ReadBlobIs(c: Codec, bs: seq<BlobSpec>, plan: Plan, file: seq<Byte>, k: nat, name: CString)
    requires Finished(c, bs, plan, file) && k < |plan.records|
    ensures var ids := plan.records[k].blobs;
            && (forall i | 0 <= i < |ids| :: ids[i] < |bs|)
            && (forall i | 0 <= i < |KeptIds(bs, ids)| :: KeptIds(bs, ids)[i] < |bs|)
            && ReadBlob(file, plan.FileHeader(), Counting(plan, k, |ids| % 256), name)
            == Expected(c, bs, KeptIds(bs, ids), name)
  {
    hide Sorted, Narrow, BlobNew, FirstNamed, Plan.In, DataInPlace, DataStart, Payloads, Packed, WriteOffset, Concat,
      Plan.Tables, StoredBlob, InRange, Plan.FileHeader, ExpectedBlob, Plan.RecordAt, Counting, KeptIds;
    var (ids, l) := (plan.records[k].blobs, |plan.records[k].blobs| % 256);
    KeptIdsBelow(bs, ids, |bs|);
    TableIdsBelow(plan, k);
    assert plan.TableIds(k)[..l] == plan.TableIds(k)[0..l];
    SearchFrom(c, bs, plan, file, k, l, name, 0, plan.TableIds(k)[..l]);
    KeptSorted(bs, ids, name);
    var id := FirstAdded(bs, KeptIds(bs, ids), name);
    if id.Some? {
      BlobRead(c, bs, plan, file, id.value);
    }
  }

  /** Among those a record keeps, the table has the same first blob under a name. */
  lemma KeptSorted(bs: seq<BlobSpec>, ids: seq<nat>, name: CString)
    requires forall i | 0 <= i < |ids| :: ids[i] < |bs|
    requires forall i | 0 <= i < |KeptIds(bs, ids)| :: KeptIds(bs, ids)[i] < |bs|
    ensures var t := Sorted<nat>(ids, ByBlobName(W.SpecNames(bs)));
            && |t| == |ids| && (forall i | 0 <= i < |t| :: t[i] < |bs|)
            && FirstAdded(bs, t[..|ids| % 256], name) == FirstAdded(bs, KeptIds(bs, ids), name)
  {
    hide Sorted, FirstAdded;
    var t := Sorted<nat>(ids, ByBlobName(W.SpecNames(bs)));
    SortedLength(ids, ByBlobName(W.SpecNames(bs)));
    FirstAddedSorted(bs, ids, name);
    assert t[..|t|] == t;
  }

  /** Listing the blobs of a record gives all of them, in the reverse of their order by name. */
  lemma {:induction false} ListedBlobs(c: Codec, bs: seq<BlobSpec>, plan: Plan, file: seq<Byte>, k: nat, n: nat)
    requires Finished(c, bs, plan, file) && k < |plan.records| && n <= |plan.records[k].blobs|
    ensures var (l, ids) := (Listed(file, plan.FileHeader(), plan.RecordAt(k), n), plan.TableIds(k));
            |l| == n <= |ids| && forall i | 0 <= i < n :: ids[n - 1 - i] < |bs| && l[i] == ExpectedBlob(c, bs, ids[n - 1 - i])
  {
    hide Narrow, BlobNew, TableBlob, Plan.In, DataInPlace, Payloads, Packed, WriteOffset, Concat, Plan.Tables, StoredBlob,
      InRange, Plan.FileHeader, ExpectedBlob, Plan.RecordAt, Plan.TableIds;
    TableIdsBelow(plan, k);
    if n > 0 {
      ListedBlobs(c, bs, plan, file, k, n - 1);
      EndSmall(c, bs, plan);
      TableBlobRead(plan, file, k, n - 1);
      BlobRead(c, bs, plan, file, plan.TableIds(k)[n - 1]);
    }
  }

  /** The range of a blob that is handed out holds its packed bytes, also if it shares its place
      with another blob. */
  lemma PackedRead(c: Codec, bs: seq<BlobSpec>, plan: Plan, file: seq<Byte>, id: nat)
    requires Finished(c, bs, plan, file) && id < |bs| && bs[id].contents != [] && CollisionFree(Payloads(c, bs))
    ensures var r := ExpectedBlob(c, bs, id);
            && r.Some? && r.value.size == |Packed(c, bs[id])| < TWO_63
            && Slice(file, r.value.size, r.value.offs) == Packed(c, bs[id])
  {
    hide Plan.Valid, Plan.In, DataInPlace, DataStart, Payloads, WriteOffset, StoredBlob, At, Slice, Packed;
    if Packed(c, bs[id]) != [] {
      PackedBytesStored(c, bs, file, id);
      AtSlice(file, DataStart(Payloads(c, bs), id), Packed(c, bs[id]));
    }
  }

  /** A blob as it was added: its packed bytes are at its place, and loading it gives its
      contents, whatever was in the buffer; for a compressed blob, exactly as much of them as
      the inflating stream delivers in its one read. */
  ghost predicate Delivers(c: Codec, b: BlobSpec, file: seq<Byte>, blob: Blob) {
    && blob.size == |Packed(c, b)| && Slice(file, blob.size, blob.offs) == Packed(c, b)
    && (c.inflate(c.deflate(b.contents)) == b.contents ==>
          forall buf, n: nat | |buf| == blob.size :: LoadBlob(c, file, blob, buf, n)
            == Some(if Compressed(b.flags) then b.contents[..Min(|b.contents|, n)] else b.contents))
  }

  lemma LoadedContents(c: Codec, bs: seq<BlobSpec>, plan: Plan, file: seq<Byte>, id: nat)
    requires Finished(c, bs, plan, file) && id < |bs| && bs[id].contents != [] && CollisionFree(Payloads(c, bs))
    ensures ExpectedBlob(c, bs, id).Some? && Delivers(c, bs[id], file, ExpectedBlob(c, bs, id).value)
  {
    hide Finished, CollisionFree, DataStart, Payloads, Slice, ExpectedBlob, LoadBlob, Packed;
    PackedRead(c, bs, plan, file, id);
    KeptExactly(c, bs, id);
    var (b, blob) := (bs[id], ExpectedBlob(c, bs, id).value);
    forall buf, n: nat | |buf| == blob.size && c.inflate(c.deflate(b.contents)) == b.contents
      ensures LoadBlob(c, file, blob, buf, n)
           == Some(if Compressed(b.flags) then b.contents[..Min(|b.contents|, n)] else b.contents)
    {
      LoadPacked(c, b, file, blob, buf, n);
    }
  }

  lemma LoadPacked(c: Codec, b: BlobSpec, file: seq<Byte>, blob: Blob, buf: seq<Byte>, n: nat)
    requires blob.size == |Packed(c, b)| == |buf| && Slice(file, blob.size, blob.offs) == Packed(c, b)
    requires blob.checksum == c.sha256(Packed(c, b)) && blob.uncompressedSize == |b.contents|
    requires Compressed(blob.flags) <==> Compressed(b.flags)
    requires c.inflate(c.deflate(b.contents)) == b.contents
    ensures LoadBlob(c, file, blob, buf, n)
         == Some(if Compressed(b.flags) then b.contents[..Min(|b.contents|, n)] else b.contents)
  {
    var packed := Packed(c, b);
    assert packed + buf[|packed|..] == packed;
  }
}
