/** From adding to reading, over whole runs of the writer and the reader, and over whole
    schedules of concurrent calls. */
module ShardRoundTrip {
  import opened Bytes
  import opened CStrings
  import opened HexName
  import opened BlobLayout
  import opened BlobStore
  import opened ShardFormat
  import opened ShardLayout
  import opened ShardReader
  import opened ShardTheorems
  import opened Sorting
  import Pool = ConstantPool
  import W = ShardWriter

  // ---------- The finished file ----------

  /** The record table as it reads back. The count of blobs is kept in one byte. */
  function StoredTable(plan: Plan): (rs: seq<SRecord>)
    ensures |rs| == |plan.records|
  {
    seq(|plan.records|, k requires 0 <= k < |plan.records| => Counting(plan, k, |plan.records[k].blobs| % 256))
  }

  lemma RecordRead(plan: Plan, file: seq<Byte>, k: nat)
    requires plan.Valid() && plan.In(file) && plan.End() < TWO_63 && k < |plan.records|
    ensures var bytes := Slice(file, RECORD_BYTES * |plan.records|, plan.RecordsStart());
            && |bytes| == RECORD_BYTES * |plan.records|
            && DecodeRecord(bytes[RECORD_BYTES * k..RECORD_BYTES * k + RECORD_BYTES]) == StoredTable(plan)[k]
  {
    hide At, Concat, EncodeHeader, EncodeRecord, DecodeRecord, Pool.PoolBytes, Plan.HeaderParts, Plan.RecordAt,
      Plan.Tables;
    var (start, parts) := (plan.RecordsStart(), plan.RecordParts());
    plan.Sizes();
    ConcatHas(file, start, parts, k);
    ConcatSize(parts[..k], RECORD_BYTES);
    RecordInside(file, start, parts, |plan.records|, k);
    RecordFits(plan, k);
    RecordRoundTrip(plan.RecordAt(k));
  }

  lemma RecordFits(plan: Plan, k: nat)
    requires plan.Valid() && plan.End() < TWO_63 && k < |plan.records|
    ensures var r := plan.RecordAt(k);
            && |r.rawName| == RAW_NAME_SIZE && r.flags == 0
            && r.blobTableLength == |plan.records[k].blobs| && r.blobTableStart < TWO_64
  {
    hide Concat, Pool.PoolBytes, Plan.Tables;
    ConcatPrefix(plan.Tables(), k);
  }

  lemma RecordInside(file: seq<Byte>, start: nat, parts: seq<seq<Byte>>, n: nat, k: nat)
    requires n > 0 && Has(file, start, Concat(parts)) && |Concat(parts)| == RECORD_BYTES * n && k < n == |parts|
    requires |parts[k]| == RECORD_BYTES && Has(file, start + RECORD_BYTES * k, parts[k])
    ensures var bytes := Slice(file, RECORD_BYTES * n, start);
            |bytes| == RECORD_BYTES * n && bytes[RECORD_BYTES * k..RECORD_BYTES * k + RECORD_BYTES] == parts[k]
  {
    hide Concat;
    AtSlice(file, start, Concat(parts));
    SlicePart(file, start, RECORD_BYTES * n, RECORD_BYTES * k, RECORD_BYTES);
    AtSlice(file, start + RECORD_BYTES * k, parts[k]);
  }

  /** A finished file opens, and its record table is the one that was laid out. */
  lemma OpensAs(plan: Plan, file: seq<Byte>)
    requires plan.Valid() && plan.In(file) && plan.End() < TWO_63
    ensures Readable(file) && DecodeHeader(file[..HEADER_SIZE]) == plan.FileHeader()
    ensures ParseRecords(Slice(file, RECORD_BYTES * |plan.records|, plan.RecordsStart()), |plan.records|) == StoredTable(plan)
  {
    hide Concat, EncodeHeader, DecodeHeader, DecodeRecord, Pool.PoolBytes, Plan.HeaderParts, Plan.RecordAt,
      Plan.Tables, Plan.RecordParts, StoredTable;
    var h := EncodeHeader(plan.FileHeader());
    assert file[..HEADER_SIZE] == file[0..0 + |h|] == h;
    assert file[..8] == h[..8];
    HeaderFits(plan);
    HeaderRoundTrip(plan.FileHeader());
    forall k | 0 <= k < |plan.records|
      ensures var bytes := Slice(file, RECORD_BYTES * |plan.records|, plan.RecordsStart());
              && |bytes| == RECORD_BYTES * |plan.records|
              && DecodeRecord(bytes[RECORD_BYTES * k..RECORD_BYTES * k + RECORD_BYTES]) == StoredTable(plan)[k]
    {
      RecordRead(plan, file, k);
    }
    NoRecordsRead(plan, file);
    if |plan.records| > 0 {
      RecordRead(plan, file, 0);
    }
  }

  lemma NoRecordsRead(plan: Plan, file: seq<Byte>)
    ensures |plan.records| == 0 ==> |Slice(file, RECORD_BYTES * |plan.records|, plan.RecordsStart())| == 0
  {
  }

  lemma HeaderFits(plan: Plan)
    requires plan.End() < TWO_63
    ensures var h := plan.FileHeader();
            h.recordsLength % TWO_64 == h.recordsLength && h.recordsStart % TWO_64 == h.recordsStart
            && h.stringTableStart % TWO_64 == h.stringTableStart
  {
    hide Concat, Pool.PoolBytes, Plan.Tables, Align;
    SmallMod(|plan.records|);
    SmallMod(plan.RecordsStart());
    SmallMod(plan.PoolStart());
  }

  lemma SmallMod(v: nat)
    ensures v < TWO_63 ==> v % TWO_64 == v
  {
  }

  /** Sorting the records leaves a sorted table. */
  lemma TableSorted(plan: Plan, rs: seq<RecordEntry>)
    requires plan.records == Sorted(rs, ByRawName())
    ensures SortedTable(StoredTable(plan))
    ensures DistinctBy(rs, ByRawName()) ==> DistinctNames(StoredTable(plan))
  {
    hide Sorted, Plan.TableStart, Compare;
    SortedAscending(rs, ByRawName());
    if DistinctBy(rs, ByRawName()) {
      SortedDistinct(rs, ByRawName());
    }
    forall i, j | 0 <= i < j < |plan.records|
      ensures Compare(StoredTable(plan)[i].rawName, StoredTable(plan)[j].rawName) <= 0
    {
      assert Compare(ByRawName()(plan.records[i]), ByRawName()(plan.records[j])) <= 0;
    }
    if DistinctBy(rs, ByRawName()) {
      forall i, j | 0 <= i < j < |plan.records|
        ensures StoredTable(plan)[i].rawName != StoredTable(plan)[j].rawName
      {
        assert ByRawName()(plan.records[i]) != ByRawName()(plan.records[j]);
      }
    }
  }

  /** One byte is enough exactly for the documented 255 blobs of a record. */
  lemma BlobCountKept(plan: Plan, k: nat)
    requires k < |plan.records|
    ensures StoredTable(plan)[k] == plan.RecordAt(k) <==> |plan.records[k].blobs| <= 255
  {
  }

  /** With 256 it reads as none. */
  lemma BlobCountLost(plan: Plan, file: seq<Byte>, k: nat, name: CString)
    requires k < |plan.records| && |plan.records[k].blobs| == 256
    ensures ReadBlob(file, plan.FileHeader(), StoredTable(plan)[k], name) == None
  {
    assert StoredTable(plan)[k].blobTableLength == 0;
  }

  // ---------- Finishing ----------

  /** Finishing a settled writer leaves a finished file: the data stays where it is. */
  lemma SettledFinished(c: Codec, bs: seq<BlobSpec>, file: seq<Byte>, table: map<seq<Byte>, nat>, plan: Plan)
    requires Settled(c, bs, file, plan.base, table, plan.strings, plan.headers)
    requires plan.Valid() && plan.names == W.SpecNames(bs) && InRange(c, bs, plan)
    ensures Finished(c, bs, plan, plan.Written(file))
  {
    hide Plan.Valid, Plan.In, Plan.Written, StoredBlob, WriteOffset, CsumTable, DataStart, IsFirst, At,
      Pool.NoDuplicates, InRange;
    plan.WrittenIn(file);
    var ps := Payloads(c, bs);
    forall i | 0 <= i < |ps| && IsFirst(ps, i) && ps[i].data != []
      ensures At(plan.Written(file), DataStart(ps, i), ps[i].data)
    {
      RangeInside(ps, i);
      plan.WrittenKeeps(file, DataStart(ps, i), ps[i].data);
    }
  }

  // ---------- Whole runs ----------

  /** One call to the writer. */
  datatype Op =
    | AddBlob(blob: BlobSpec)
    | AddRecord(hexName: CString)
    | AddBlobToRecord(recordId: nat, blobId: nat)

  /** A record that was added: its hexadecimal name, and the identifiers of its blobs. */
  datatype RecordSpec = RecordSpec(hexName: CString, blobs: seq<nat>)

  /** What a run has added: the blobs that were not refused, and the records. */
  datatype Added = Added(blobs: seq<BlobSpec>, records: seq<RecordSpec>)

  /** A call names only what is there. */
  predicate Callable(a: Added, op: Op) {
    op.AddBlobToRecord? ==> op.recordId < |a.records| && op.blobId < |a.blobs|
  }

  function Next(a: Added, op: Op): Added {
    match op
    case AddBlob(b) => if Acceptable(b) then a.(blobs := a.blobs + [b]) else a
    case AddRecord(hexName) => a.(records := a.records + [RecordSpec(hexName, [])])
    case AddBlobToRecord(r, b) =>
      if Callable(a, op) then a.(records := a.records[r := a.records[r].(blobs := a.records[r].blobs + [b])]) else a
  }

  function After(ops: seq<Op>): Added {
    if ops == [] then Added([], []) else Next(After(ops[..|ops| - 1]), ops[|ops| - 1])
  }

  predicate CallableRun(ops: seq<Op>) {
    forall i | 0 <= i < |ops| :: Callable(After(ops[..i]), ops[i])
  }

  /** Blobs and records that fit each other. */
  predicate WellNamed(a: Added) {
    && (forall i | 0 <= i < |a.blobs| :: Acceptable(a.blobs[i]))
    && (forall k, i | 0 <= k < |a.records| && 0 <= i < |a.records[k].blobs| :: a.records[k].blobs[i] < |a.blobs|)
  }

  lemma {:induction false} AfterWellNamed(ops: seq<Op>)
    ensures WellNamed(After(ops))
  {
    if ops != [] {
      AfterWellNamed(ops[..|ops| - 1]);
    }
  }

  /** Blobs keep their identifiers. */
  lemma {:induction false} AfterGrows(ops: seq<Op>, i: nat)
    requires i <= |ops|
    ensures After(ops[..i]).blobs <= After(ops).blobs
    decreases |ops|
  {
    if i < |ops| {
      AfterGrows(ops[..|ops| - 1], i);
      assert ops[..|ops| - 1][..i] == ops[..i];
    } else {
      assert ops[..i] == ops;
    }
  }

  function RawName(r: RecordSpec): (raw: seq<Byte>)
    ensures |raw| == RAW_NAME_SIZE
  {
    Decoded(r.hexName, Zeros(RAW_NAME_SIZE))
  }

  function Entries(rs: seq<RecordSpec>): (es: seq<RecordEntry>)
    ensures |es| == |rs|
  {
    seq(|rs|, i requires 0 <= i < |rs| => RecordEntry(RawName(rs[i]), rs[i].blobs, 0))
  }

  function PoolOf(bs: seq<BlobSpec>): seq<CString> {
    if bs == [] then [] else PoolWith(PoolOf(bs[..|bs| - 1]), bs[|bs| - 1])
  }

  /** The layout is a function of what was added. */
  function PlanOf(c: Codec, bs: seq<BlobSpec>, rs: seq<RecordSpec>): Plan {
    Plan(WriteOffset(Payloads(c, bs)), W.SpecNames(bs),
         seq(|bs|, i requires 0 <= i < |bs| => StoredBlob(c, bs, PoolOf(bs), i)),
         Sorted(Entries(rs), ByRawName()), PoolOf(bs))
  }

  /** What the writer looks up for these blobs survives its 32-bit casts: the place of every
      repeated checksum, and the offset of every repeated string, is below 4 GiB. */
  ghost predicate Castable(c: Codec, bs: seq<BlobSpec>) {
    && PlacesBelow(Payloads(c, bs))
    && forall i | 0 <= i < |bs| :: StringsAnswerable(PoolOf(bs[..i]), bs[i])
  }

  lemma {:induction false} PlacesBelowPrefix(c: Codec, bs: seq<BlobSpec>, i: nat)
    requires PlacesBelow(Payloads(c, bs)) && i <= |bs|
    ensures PlacesBelow(Payloads(c, bs[..i]))
    decreases |bs|
  {
    hide PlacesBelow, PayloadOf;
    if i < |bs| {
      var (init, last) := (bs[..|bs| - 1], bs[|bs| - 1]);
      PayloadsGrow(c, init, last);
      assert init + [last] == bs;
      NextPlaceBelow(Payloads(c, init), PayloadOf(c, last));
      PlacesBelowPrefix(c, init, i);
      assert init[..i] == bs[..i];
    } else {
      assert bs[..i] == bs;
    }
  }

  /** So the next call of a run may be made. */
  lemma NextLookups(w: W.ShardWriterV2, bs: seq<BlobSpec>, before: seq<BlobSpec>, b: BlobSpec)
    requires w.Valid() && w.specs == before && w.cpool.strings == PoolOf(before)
    requires Castable(w.codec, bs) && before + [b] <= bs
    ensures LookupsExact(w.codec, w.csumToDataStart, w.cpool.strings, b)
  {
    hide PlacesBelow, StringsAnswerable, PoolWith, PayloadOf, DataInPlace, WriteOffset, CsumTable, StoredBlob, Payloads;
    var i := |before|;
    assert bs[..i] == before && bs[i] == b && bs[..i + 1] == before + [b];
    PlacesBelowPrefix(w.codec, bs, i + 1);
    PayloadsGrow(w.codec, before, b);
    NextPlaceBelow(Payloads(w.codec, before), PayloadOf(w.codec, b));
    assert (before + [b])[..i] == before;
  }

  /** Any run of calls, in any order, refused ones included, leaves exactly what was added, and
      everything in its place if what is looked up survives its casts. */
  method Run(w: W.ShardWriterV2, ops: seq<Op>)
    requires w.Valid() && w.specs == [] && w.records == [] && w.cpool.strings == []
    requires CallableRun(ops)
    modifies w, w.fd, w.cpool
    ensures w.Kept() && w.specs == After(ops).blobs && w.records == Entries(After(ops).records)
    ensures w.cpool.strings == PoolOf(After(ops).blobs)
    ensures Castable(w.codec, After(ops).blobs) ==> w.Valid()
  {
    ValidKept(w);
    hide W.ShardWriterV2.Valid, W.ShardWriterV2.Kept, Castable, LookupsExact, PoolWith, Decoded, Acceptable, PoolOf;
    PoolOfNone();
    for i := 0 to |ops|
      invariant w.Kept() && w.specs == After(ops[..i]).blobs && w.records == Entries(After(ops[..i]).records)
      invariant w.cpool.strings == PoolOf(After(ops[..i]).blobs)
      invariant Castable(w.codec, After(ops).blobs) ==> w.Valid()
    {
      ghost var a := After(ops[..i]);
      assert ops[..i + 1][..i] == ops[..i];
      AfterGrows(ops, i + 1);
      assert Callable(a, ops[i]);
      RunOne(w, ops[i], a, After(ops).blobs);
    }
    assert ops[..|ops|] == ops;
  }

  lemma PoolOfNone()
    ensures PoolOf([]) == []
  {
  }

  lemma ValidKept(w: W.ShardWriterV2)
    requires w.Valid()
    ensures w.Kept()
  {
  }

  method RunOne(w: W.ShardWriterV2, op: Op, ghost a: Added, ghost bs: seq<BlobSpec>)
    requires w.Kept() && w.specs == a.blobs && w.records == Entries(a.records) && w.cpool.strings == PoolOf(a.blobs)
    requires Callable(a, op) && Next(a, op).blobs <= bs && (Castable(w.codec, bs) ==> w.Valid())
    modifies w, w.fd, w.cpool
    ensures w.Kept() && w.specs == Next(a, op).blobs && w.records == Entries(Next(a, op).records)
    ensures w.cpool.strings == PoolOf(Next(a, op).blobs) && (Castable(w.codec, bs) ==> w.Valid())
  {
    hide W.ShardWriterV2.Valid, W.ShardWriterV2.Kept, Castable, LookupsExact, PoolWith, Decoded, Acceptable, PoolOf;
    match op {
      case AddBlob(b) =>
        if Acceptable(b) {
          PoolOfMore(a.blobs, b);
          if Castable(w.codec, bs) {
            NextLookups(w, bs, a.blobs, b);
          }
        }
        var id := w.AddBlob(b);
      case AddRecord(hexName) =>
        var id := w.AddRecord(hexName);
        assert w.records == Entries(Next(a, op).records);
      case AddBlobToRecord(recordId, blobId) =>
        w.AddBlobToRecord(recordId, blobId);
        assert w.records == Entries(Next(a, op).records);
    }
  }

  lemma PoolOfMore(bs: seq<BlobSpec>, b: BlobSpec)
    ensures PoolOf(bs + [b]) == PoolWith(PoolOf(bs), b)
  {
    hide PoolWith;
  }

  /** A run on a new shard, finished and opened. */
  method StoreAndOpen(c: Codec, fd: File, ops: seq<Op>) returns (shard: ShardFileV2)
    requires CallableRun(ops) && Castable(c, After(ops).blobs)
    requires InRange(c, After(ops).blobs, PlanOf(c, After(ops).blobs, After(ops).records))
    modifies fd
    ensures var (bs, rs) := (After(ops).blobs, After(ops).records);
            && Finished(c, bs, PlanOf(c, bs, rs), fd.bytes)
            && shard.fd == fd && shard.hdr == PlanOf(c, bs, rs).FileHeader() && shard.records == StoredTable(PlanOf(c, bs, rs))
  {
    hide Settled, Castable, Finished, InRange, W.Headers, W.SpecNames, W.Names, StoredBlob, Plan.Written, Plan.In, Plan.Valid,
      StoredTable, Readable, After, CallableRun, PoolOf, Entries;
    ghost var (bs, rs) := (After(ops).blobs, After(ops).records);
    ghost var plan := PlanOf(c, bs, rs);
    var w := new W.ShardWriterV2.NewForFd(fd, c);
    EntriesOfNone();
    Run(w, ops);
    SettledPlan(c, bs, rs, fd.bytes, w.offset, w.csumToDataStart, w.cpool.strings, W.Headers(w.blobs));
    SettledFinishedWhenValid(c, bs, fd.bytes, w.csumToDataStart, plan);
    w.Finish();
    assert Finished(c, bs, plan, fd.bytes);
    shard := OpenFinished(c, bs, plan, fd);
  }

  lemma EntriesOfNone()
    ensures Entries([]) == []
  {
  }

  /** Opening a finished file. */
  method OpenFinished(ghost c: Codec, ghost bs: seq<BlobSpec>, ghost plan: Plan, fd: File) returns (shard: ShardFileV2)
    requires Finished(c, bs, plan, fd.bytes)
    ensures shard.fd == fd && shard.hdr == plan.FileHeader() && shard.records == StoredTable(plan)
  {
    hide Finished, Readable, StoredTable, Plan.FileHeader, DecodeHeader, ParseRecords;
    OpensFinished(c, bs, plan, fd.bytes);
    HeaderCounts(plan);
    var found := NewForFd(fd);
    shard := found;
  }

  lemma HeaderCounts(plan: Plan)
    ensures plan.FileHeader().recordsLength == |plan.records| && plan.FileHeader().recordsStart == plan.RecordsStart()
  {
  }

  lemma SettledPlan(c: Codec, bs: seq<BlobSpec>, rs: seq<RecordSpec>, file: seq<Byte>, offset: nat,
                    table: map<seq<Byte>, nat>, strings: seq<CString>, headers: seq<SBlob>)
    requires Settled(c, bs, file, offset, table, strings, headers) && strings == PoolOf(bs)
    ensures PlanOf(c, bs, rs) == Plan(offset, W.SpecNames(bs), headers, Sorted(Entries(rs), ByRawName()), strings)
  {
    hide WriteOffset, Payloads, StoredBlob, DataInPlace, CsumTable, Pool.NoDuplicates, Sorted, PoolOf;
    assert PlanOf(c, bs, rs).headers == headers;
  }

  lemma SettledFinishedWhenValid(c: Codec, bs: seq<BlobSpec>, file: seq<Byte>, table: map<seq<Byte>, nat>, plan: Plan)
    requires Settled(c, bs, file, plan.base, table, plan.strings, plan.headers)
    requires plan.names == W.SpecNames(bs) && InRange(c, bs, plan)
    ensures plan.Valid() ==> Finished(c, bs, plan, plan.Written(file))
  {
    hide *;
    if plan.Valid() {
      SettledFinished(c, bs, file, table, plan);
    }
  }

  lemma OpensFinished(c: Codec, bs: seq<BlobSpec>, plan: Plan, file: seq<Byte>)
    requires Finished(c, bs, plan, file)
    ensures Readable(file) && DecodeHeader(file[..HEADER_SIZE]) == plan.FileHeader()
    ensures ParseRecords(Slice(file, RECORD_BYTES * |plan.records|, plan.RecordsStart()), |plan.records|) == StoredTable(plan)
  {
    hide Plan.Valid, Plan.In, DataInPlace, StoredBlob, Payloads, WriteOffset, Readable, DecodeHeader, ParseRecords,
      StoredTable, Plan.FileHeader;
    OpensAs(plan, file);
  }

  // ---------- Reading records ----------

  /** The plan lays out these records, and they name blobs that are there. */
  ghost predicate LaysOut(plan: Plan, rs: seq<RecordSpec>, n: nat) {
    && plan.records == Sorted(Entries(rs), ByRawName())
    && forall k, i | 0 <= k < |rs| && 0 <= i < |rs[k].blobs| :: rs[k].blobs[i] < n
  }

  /** Every stored record is one that was added. */
  lemma StoredWasAdded(plan: Plan, rs: seq<RecordSpec>, n: nat, m: nat) returns (j: nat)
    requires LaysOut(plan, rs, n) && m < |plan.records|
    ensures j < |rs| && plan.records[m] == Entries(rs)[j]
  {
    hide Sorted, Plan.RecordAt, Decoded;
    SortedLength(Entries(rs), ByRawName());
    assert plan.records[m] in plan.records;
    j :| 0 <= j < |Entries(rs)| && plan.records[m] == Entries(rs)[j];
  }

  /** Every added record is stored. */
  lemma AddedIsStored(plan: Plan, rs: seq<RecordSpec>, n: nat, k: nat) returns (m: nat)
    requires LaysOut(plan, rs, n) && k < |rs|
    ensures m < |plan.records| && plan.records[m] == Entries(rs)[k]
  {
    hide Sorted, Decoded;
    SortedLength(Entries(rs), ByRawName());
    assert Entries(rs)[k] in Entries(rs);
    m :| 0 <= m < |plan.records| && plan.records[m] == Entries(rs)[k];
  }

  /** What is read under a name is the first blob added under it, with its bytes and contents. */
  ghost predicate ReadsAs(c: Codec, bs: seq<BlobSpec>, file: seq<Byte>, ids: seq<nat>, name: CString, x: Option<Blob>) {
    && (forall i | 0 <= i < |ids| :: ids[i] < |bs|)
    && x == Expected(c, bs, ids, name)
    && (x.Some? && CollisionFree(Payloads(c, bs)) ==>
          FirstAdded(bs, ids, name).Some? && Delivers(c, bs[FirstAdded(bs, ids, name).value], file, x.value))
  }

  lemma ReadDelivers(c: Codec, bs: seq<BlobSpec>, plan: Plan, file: seq<Byte>, k: nat, name: CString)
    requires Finished(c, bs, plan, file) && k < |plan.records|
    ensures ReadsAs(c, bs, file, KeptIds(bs, plan.records[k].blobs), name,
                    ReadBlob(file, plan.FileHeader(), StoredTable(plan)[k], name))
  {
    hide Finished, ReadBlob, ExpectedBlob, CollisionFree, Payloads, Delivers, FirstAdded, KeptIds, Counting;
    ReadBlobIs(c, bs, plan, file, k, name);
    var id := FirstAdded(bs, KeptIds(bs, plan.records[k].blobs), name);
    if id.Some? && ExpectedBlob(c, bs, id.value).Some? && CollisionFree(Payloads(c, bs)) {
      KeptExactly(c, bs, id.value);
      LoadedContents(c, bs, plan, file, id.value);
    }
  }

  /** A stored record reads as a record that was added. */
  lemma RecordReads(c: Codec, bs: seq<BlobSpec>, rs: seq<RecordSpec>, plan: Plan, file: seq<Byte>, m: nat, name: CString)
      returns (j: nat)
    requires LaysOut(plan, rs, |bs|) && m < |plan.records| && Finished(c, bs, plan, file)
    ensures j < |rs|
    ensures var (hdr, srecord, ids) := (plan.FileHeader(), StoredTable(plan)[m], KeptIds(bs, rs[j].blobs));
            && srecord.rawName == RawName(rs[j]) && !IsTombstone(srecord)
            && ReadsAs(c, bs, file, ids, [36, 109, 101, 116, 97, 100, 97, 116, 97], RecordOf(file, hdr, srecord).metadata)
            && ReadsAs(c, bs, file, ids, [36, 100, 97, 116, 97], RecordOf(file, hdr, srecord).data)
            && ReadsAs(c, bs, file, ids, name, ReadBlob(file, hdr, srecord, name))
  {
    hide Finished, ReadsAs, ReadBlob, StoredTable, Plan.FileHeader, Decoded, Sorted, KeptIds;
    j := StoredWasAdded(plan, rs, |bs|, m);
    StoredNames(plan, m);
    ReadDelivers(c, bs, plan, file, m, METADATA_NAME);
    ReadDelivers(c, bs, plan, file, m, DATA_NAME);
    ReadDelivers(c, bs, plan, file, m, name);
  }

  /** The metadata and the data of a record are what is read under "$metadata" and "$data". */
  ghost predicate ReadsOwn(c: Codec, bs: seq<BlobSpec>, file: seq<Byte>, ids: seq<nat>, record: Record) {
    && ReadsAs(c, bs, file, ids, [36, 109, 101, 116, 97, 100, 97, 116, 97], record.metadata)
    && ReadsAs(c, bs, file, ids, [36, 100, 97, 116, 97], record.data)
  }

  /** A record to which a blob "$metadata" and a blob "$data" were added has the one as its
      metadata and the other as its data. */
  lemma OwnBlobs(c: Codec, bs: seq<BlobSpec>, plan: Plan, file: seq<Byte>, k: nat, i: nat, j: nat)
    requires Finished(c, bs, plan, file) && k < |plan.records| && |plan.records[k].blobs| <= 255
    requires i < |plan.records[k].blobs| && j < |plan.records[k].blobs|
    requires forall x | 0 <= x < |plan.records[k].blobs| :: plan.records[k].blobs[x] < |bs|
    requires bs[plan.records[k].blobs[i]].name == [36, 109, 101, 116, 97, 100, 97, 116, 97]
    requires forall x | 0 <= x < i :: bs[plan.records[k].blobs[x]].name != [36, 109, 101, 116, 97, 100, 97, 116, 97]
    requires bs[plan.records[k].blobs[j]].name == [36, 100, 97, 116, 97]
    requires forall x | 0 <= x < j :: bs[plan.records[k].blobs[x]].name != [36, 100, 97, 116, 97]
    ensures var (ids, r) := (plan.records[k].blobs, RecordOf(file, plan.FileHeader(), StoredTable(plan)[k]));
            r.metadata == ExpectedBlob(c, bs, ids[i]) && r.data == ExpectedBlob(c, bs, ids[j])
  {
    hide Finished, ReadBlob, ExpectedBlob, Counting, FirstAdded;
    var ids := plan.records[k].blobs;
    RecordMeaning(file, plan.FileHeader(), StoredTable(plan)[k]);
    ReadBlobIs(c, bs, plan, file, k, [36, 109, 101, 116, 97, 100, 97, 116, 97]);
    ReadBlobIs(c, bs, plan, file, k, [36, 100, 97, 116, 97]);
    FirstAddedMeaning(bs, ids, [36, 109, 101, 116, 97, 100, 97, 116, 97], i);
    FirstAddedMeaning(bs, ids, [36, 100, 97, 116, 97], j);
  }

  ghost predicate HasRecord(rs: seq<RecordSpec>, rawName: seq<Byte>) {
    exists k :: 0 <= k < |rs| && RawName(rs[k]) == rawName
  }

  /** Looking a record and one of its blobs up in a finished shard: a record is found exactly if
      one of that name was added, and it, its metadata, its data and the named blob read as they
      were added. If several were added under one name, one of them is found. */
  method FindAndRead(ghost c: Codec, ghost bs: seq<BlobSpec>, ghost rs: seq<RecordSpec>, ghost plan: Plan,
                     shard: ShardFileV2, hexName: CString, name: CString)
      returns (record: Option<Record>, blob: Option<Blob>, ghost j: nat)
    requires Finished(c, bs, plan, shard.fd.bytes) && LaysOut(plan, rs, |bs|)
    requires shard.hdr == plan.FileHeader() && shard.records == StoredTable(plan)
    ensures record.Some? <==> IsHexName(hexName) && HasRecord(rs, Decoded(hexName, Zeros(RAW_NAME_SIZE)))
    ensures record.Some? ==> record.value.rawName == Decoded(hexName, Zeros(RAW_NAME_SIZE))
    ensures record.None? || (name != [] && name[0] == 36) ==> blob == None
    ensures record.Some? ==> j < |rs| && RawName(rs[j]) == record.value.rawName
    ensures record.Some? ==>
              var ids := KeptIds(bs, rs[j].blobs);
              && ReadsOwn(c, bs, shard.fd.bytes, ids, record.value)
              && (name == [] || name[0] != 36 ==> ReadsAs(c, bs, shard.fd.bytes, ids, name, blob))
  {
    hide Finished, ReadsAs, ReadBlob, StoredTable, Plan.FileHeader, Decoded, RecordOf, IsTombstone, SortedTable, Sorted,
      DistinctNames, IsRecordOf, HasName, IsDeleted, HasRecord, LaysOut, KeptIds;
    ghost var (file, rawName) := (shard.fd.bytes, Decoded(hexName, Zeros(RAW_NAME_SIZE)));
    record := shard.FindRecordByHexName(hexName);
    blob := None;
    j := 0;
    NamesStored(plan, rs, |bs|, rawName);
    if record.Some? {
      ghost var m := FoundAt(shard.records, file, shard.hdr, rawName, record.value);
      j := RecordReads(c, bs, rs, plan, file, m, name);
      RecordOfParts(file, shard.hdr, shard.records[m]);
      NameAdded(rs, j);
      blob := shard.LookupBlob(record.value, name);
    }
  }

  lemma NameAdded(rs: seq<RecordSpec>, j: nat)
    requires j < |rs|
    ensures HasRecord(rs, RawName(rs[j]))
  {
  }

  lemma RecordOfParts(file: seq<Byte>, hdr: Header, srecord: SRecord)
    ensures RecordOf(file, hdr, srecord).private == srecord && RecordOf(file, hdr, srecord).rawName == srecord.rawName
  {
    hide ReadBlob;
  }

  lemma FoundAt(table: seq<SRecord>, file: seq<Byte>, hdr: Header, rawName: seq<Byte>, x: Record) returns (m: nat)
    requires IsRecordOf(file, hdr, table, rawName, x)
    ensures m < |table| && table[m].rawName == rawName && x == RecordOf(file, hdr, table[m])
  {
    hide RecordOf;
    m :| 0 <= m < |table| && table[m].rawName == rawName && x == RecordOf(file, hdr, table[m]);
  }

  /** The stored table is sorted, has exactly the names that were added, and nothing deleted. */
  lemma NamesStored(plan: Plan, rs: seq<RecordSpec>, n: nat, rawName: seq<Byte>)
    requires LaysOut(plan, rs, n)
    ensures SortedTable(StoredTable(plan)) && !IsDeleted(StoredTable(plan), rawName)
    ensures HasRecord(rs, rawName) ==> HasName(StoredTable(plan), rawName)
  {
    hide StoredTable, Decoded, SortedTable, Sorted, IsTombstone;
    TableSorted(plan, Entries(rs));
    forall i | 0 <= i < |StoredTable(plan)|
      ensures !IsTombstone(StoredTable(plan)[i])
    {
      StoredNames(plan, i);
    }
    if k :| 0 <= k < |rs| && RawName(rs[k]) == rawName {
      var m := AddedIsStored(plan, rs, n, k);
      StoredNames(plan, m);
    }
  }

  lemma StoredNames(plan: Plan, m: nat)
    requires m < |plan.records|
    ensures StoredTable(plan)[m].rawName == plan.records[m].rawName && !IsTombstone(StoredTable(plan)[m])
  {
    hide Plan.TableStart;
  }

  /** With distinct names it is the record itself. */
  lemma SameNameSame(rs: seq<RecordSpec>, j: nat, k: nat)
    requires j < |rs| && k < |rs| && RawName(rs[j]) == RawName(rs[k])
    ensures DistinctBy(Entries(rs), ByRawName()) ==> j == k
  {
    hide Decoded;
    var (key, es) := (ByRawName(), Entries(rs));
    assert key(es[j]) == key(es[k]);
  }

  /** The round trip: any run of calls, finished and opened, and any lookup in it. */
  method RoundTrip(c: Codec, fd: File, ops: seq<Op>, hexName: CString, name: CString)
      returns (record: Option<Record>, blob: Option<Blob>, ghost j: nat)
    requires CallableRun(ops) && Castable(c, After(ops).blobs)
    requires InRange(c, After(ops).blobs, PlanOf(c, After(ops).blobs, After(ops).records))
    modifies fd
    ensures WellNamed(After(ops))
    ensures var (bs, rs) := (After(ops).blobs, After(ops).records);
            var rawName := Decoded(hexName, Zeros(RAW_NAME_SIZE));
            && Finished(c, bs, PlanOf(c, bs, rs), fd.bytes)
            && (record.Some? <==> IsHexName(hexName) && HasRecord(rs, rawName))
            && (record.None? || (name != [] && name[0] == 36) ==> blob == None)
            && (record.Some? ==> j < |rs| && RawName(rs[j]) == rawName == record.value.rawName)
            && (record.Some? && DistinctBy(Entries(rs), ByRawName()) ==>
                  forall k | 0 <= k < |rs| && RawName(rs[k]) == rawName :: k == j)
    ensures var (bs, rs) := (After(ops).blobs, After(ops).records);
            record.Some? ==>
              var ids := KeptIds(bs, rs[j].blobs);
              && ReadsOwn(c, bs, fd.bytes, ids, record.value)
              && (name == [] || name[0] != 36 ==> ReadsAs(c, bs, fd.bytes, ids, name, blob))
  {
    hide Finished, ReadsAs, Castable, InRange, PlanOf, StoredTable, Plan.FileHeader, Decoded, DistinctBy, Entries, CallableRun,
      After, HasRecord, KeptIds;
    AfterWellNamed(ops);
    ghost var (bs, rs) := (After(ops).blobs, After(ops).records);
    var shard := StoreAndOpen(c, fd, ops);
    PlanLaysOut(c, bs, rs);
    record, blob, j := FindAndRead(c, bs, rs, PlanOf(c, bs, rs), shard, hexName, name);
    if record.Some? {
      forall k | 0 <= k < |rs| && RawName(rs[k]) == RawName(rs[j])
        ensures DistinctBy(Entries(rs), ByRawName()) ==> k == j
      {
        SameNameSame(rs, k, j);
      }
    }
  }

  lemma PlanLaysOut(c: Codec, bs: seq<BlobSpec>, rs: seq<RecordSpec>)
    requires WellNamed(Added(bs, rs))
    ensures LaysOut(PlanOf(c, bs, rs), rs, |bs|)
  {
    hide Sorted, WriteOffset, Payloads, PoolOf, StoredBlob;
  }
}
