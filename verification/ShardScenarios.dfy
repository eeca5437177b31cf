/** What the parts promise together: concurrent calls, finishing and reading; and a dictionary
    inside a shard. */
module ShardScenarios {
  import opened Bytes
  import opened CStrings
  import opened HexName
  import opened BlobLayout
  import opened BlobStore
  import opened ShardFormat
  import opened ShardLayout
  import opened ShardReader
  import opened ShardTheorems
  import opened ShardRoundTrip
  import opened Sorting
  import M = AddBlobMachine
  import Stream = BlobStream
  import W = ShardWriter
  import DF = DictionaryFormat
  import DR = DictionaryReader
  import DT = DictionaryTheorems
  import DW = DictionaryWriter
  import Pool = ConstantPool

  // ---------- Concurrent calls ----------

  /** The blobs of a run, by the identifiers the calls returned. */
  function RunBlobs(tasks: seq<BlobSpec>, s: M.State): seq<BlobSpec> {
    if forall i | 0 <= i < |s.order| :: s.order[i] < |tasks| then M.Specs(tasks, s.order) else []
  }

  /** The layout after a run, for records that name the blobs by those identifiers. */
  function PlanAfter(tasks: seq<BlobSpec>, s: M.State, rs: seq<RecordSpec>): Plan {
    Plan(s.offset, W.SpecNames(RunBlobs(tasks, s)), s.blobs, Sorted(Entries(rs), ByRawName()), s.strings)
  }

  predicate RecordsProper(rs: seq<RecordSpec>, n: nat) {
    forall k, i | 0 <= k < |rs| && 0 <= i < |rs[k].blobs| :: rs[k].blobs[i] < n
  }

  /** A call that returned an identifier: the identifier stands for its blob, and the shard holds
      the blob's packed bytes at the blob's place. */
  ghost predicate CallStored(c: Codec, tasks: seq<BlobSpec>, s: M.State, file: seq<Byte>, t: nat)
    requires t < |tasks| == |s.threads| && s.threads[t].Returned?
  {
    var (bs, i) := (RunBlobs(tasks, s), s.threads[t].index);
    && i < |bs| && bs[i] == tasks[t]
    && (Packed(c, tasks[t]) != [] ==> At(file, DataStart(Payloads(c, bs), i), Packed(c, tasks[t])))
  }

  /** Finishing after any schedule of any number of calls, once all have returned. */
  lemma ConcurrentRunFinished(c: Codec, tasks: seq<BlobSpec>, file: seq<Byte>, schedule: seq<(nat, nat)>, s: M.State,
                              rs: seq<RecordSpec>)
    requires s == M.Exec(c, tasks, M.Initial(file, |tasks|), schedule) && M.AllBack(s)
    requires M.Safe(c, tasks, M.Initial(file, |tasks|), schedule)
    requires RecordsProper(rs, |RunBlobs(tasks, s)|) && InRange(c, RunBlobs(tasks, s), PlanAfter(tasks, s, rs))
    ensures var (bs, plan) := (RunBlobs(tasks, s), PlanAfter(tasks, s, rs));
            && plan.Valid() && LaysOut(plan, rs, |bs|) && Finished(c, bs, plan, plan.Written(s.file))
            && (CollisionFree(Payloads(c, bs)) ==>
                  forall t | 0 <= t < |tasks| && s.threads[t].Returned? :: CallStored(c, tasks, s, plan.Written(s.file), t))
  {
    hide M.Exec, M.AllBack, M.Safe, Settled, InRange, Finished, Plan.Written, Plan.Valid, Sorted, Entries, RecordsProper,
      CollisionFree, CallStored, Payloads, M.ThreadOk, M.BlobOk, M.RangeOk, M.Inv, LaysOut;
    M.EverySchedule(c, tasks, file, schedule);
    M.AllBackSettled(c, tasks, s);
    RunBlobsAre(c, tasks, s);
    var (bs, plan) := (RunBlobs(tasks, s), PlanAfter(tasks, s, rs));
    SettledSizes(c, bs, s.file, s.offset, s.table, s.strings, s.blobs);
    ProperPlan(plan, rs, |bs|);
    SettledFinished(c, bs, s.file, s.table, plan);
    if CollisionFree(Payloads(c, bs)) {
      forall t | 0 <= t < |tasks| && s.threads[t].Returned?
        ensures CallStored(c, tasks, s, plan.Written(s.file), t)
      {
        ReturnedStored(c, tasks, s, plan, t);
      }
    }
  }

  lemma RunBlobsAre(c: Codec, tasks: seq<BlobSpec>, s: M.State)
    requires M.Inv(c, tasks, s)
    ensures M.Ordered(tasks, s) && RunBlobs(tasks, s) == M.Specs(tasks, s.order)
  {
    hide M.ThreadOk, M.BlobOk, M.RangeOk;
  }

  lemma ReturnedStored(c: Codec, tasks: seq<BlobSpec>, s: M.State, plan: Plan, t: nat)
    requires M.Inv(c, tasks, s) && t < |tasks| && s.threads[t].Returned? && plan.Valid()
    requires Finished(c, RunBlobs(tasks, s), plan, plan.Written(s.file)) && CollisionFree(Payloads(c, RunBlobs(tasks, s)))
    ensures CallStored(c, tasks, s, plan.Written(s.file), t)
  {
    hide M.ThreadOk, M.BlobOk, M.RangeOk, Plan.Valid, Plan.In, Plan.Written, InRange, DataStart, Payloads, Packed,
      DataInPlace, CollisionFree, StoredBlob, WriteOffset, CsumTable;
    RunBlobsAre(c, tasks, s);
    if Packed(c, tasks[t]) != [] {
      PackedBytesStored(c, RunBlobs(tasks, s), plan.Written(s.file), s.threads[t].index);
    }
  }

  /** And opening the shard then, and looking up any record and any of its blobs: what is found is
      what the calls were given. */
  method ReadConcurrentRun(ghost c: Codec, ghost tasks: seq<BlobSpec>, ghost before: seq<Byte>,
                           ghost schedule: seq<(nat, nat)>, ghost s: M.State, ghost rs: seq<RecordSpec>,
                           fd: File, hexName: CString, name: CString)
      returns (record: Option<Record>, blob: Option<Blob>, ghost j: nat)
    requires s == M.Exec(c, tasks, M.Initial(before, |tasks|), schedule) && M.AllBack(s)
    requires M.Safe(c, tasks, M.Initial(before, |tasks|), schedule)
    requires RecordsProper(rs, |RunBlobs(tasks, s)|) && InRange(c, RunBlobs(tasks, s), PlanAfter(tasks, s, rs))
    requires PlanAfter(tasks, s, rs).Valid() ==> fd.bytes == PlanAfter(tasks, s, rs).Written(s.file)
    ensures CollisionFree(Payloads(c, RunBlobs(tasks, s))) ==>
              forall t | 0 <= t < |tasks| && s.threads[t].Returned? :: CallStored(c, tasks, s, fd.bytes, t)
    ensures record.Some? <==> IsHexName(hexName) && HasRecord(rs, Decoded(hexName, Zeros(RAW_NAME_SIZE)))
    ensures record.Some? ==> record.value.rawName == Decoded(hexName, Zeros(RAW_NAME_SIZE))
    ensures record.None? || (name != [] && name[0] == 36) ==> blob == None
    ensures record.Some? ==> j < |rs| && RawName(rs[j]) == record.value.rawName
    ensures record.Some? ==>
              var ids := KeptIds(RunBlobs(tasks, s), rs[j].blobs);
              && ReadsOwn(c, RunBlobs(tasks, s), fd.bytes, ids, record.value)
              && (name == [] || name[0] != 36 ==> ReadsAs(c, RunBlobs(tasks, s), fd.bytes, ids, name, blob))
  {
    hide M.Exec, M.AllBack, M.Safe, InRange, Finished, Plan.Written, Plan.Valid, Sorted, Entries, CollisionFree, CallStored,
      Payloads, ReadsAs, ReadsOwn, Decoded, HasRecord, StoredTable, Plan.FileHeader, RunBlobs, LaysOut, PlanAfter, KeptIds;
    ConcurrentRunFinished(c, tasks, before, schedule, s, rs);
    ghost var (bs, plan) := (RunBlobs(tasks, s), PlanAfter(tasks, s, rs));
    var shard := OpenFinished(c, bs, plan, fd);
    record, blob, j := FindAndRead(c, bs, rs, plan, shard, hexName, name);
  }

  lemma SettledSizes(c: Codec, bs: seq<BlobSpec>, file: seq<Byte>, offset: nat, table: map<seq<Byte>, nat>,
                     strings: seq<CString>, blobs: seq<SBlob>)
    requires Settled(c, bs, file, offset, table, strings, blobs)
    ensures |blobs| == |bs| && offset >= HEADER_SIZE
  {
    W.SettledBase(c, bs, file, offset, table, strings, blobs);
  }

  lemma ProperPlan(plan: Plan, rs: seq<RecordSpec>, n: nat)
    requires plan.records == Sorted(Entries(rs), ByRawName()) && RecordsProper(rs, n)
    requires plan.base >= HEADER_SIZE && |plan.names| == |plan.headers| == n
    ensures plan.Valid() && LaysOut(plan, rs, n)
  {
    hide Sorted, RawName;
    SortedLength(Entries(rs), ByRawName());
    forall k | 0 <= k < |plan.records|
      ensures |plan.records[k].rawName| == RAW_NAME_SIZE
      ensures forall i | 0 <= i < |plan.records[k].blobs| :: plan.records[k].blobs[i] < |plan.headers|
    {
      assert plan.records[k] in plan.records;
      var j :| 0 <= j < |Entries(rs)| && plan.records[k] == Entries(rs)[j];
    }
  }

  // ---------- A dictionary inside a shard ----------

  /** Opens a blob, which must not be compressed, as a dictionary. */
  method NewDictionary(fd: File, blob: Blob, memory: seq<Byte>, ghost img: DF.Image) returns (d: DR.Dictionary?)
    requires !Compressed(blob.flags) && |memory| == DF.HEADER_SIZE
    requires DT.Stored(fd.bytes, blob.offs, img)
    ensures d != null && fresh(d) && d.fd == fd && d.offset == blob.offs && d.Opened(img)
  {
    hide DF.ImageBytes, DF.WellFormed;
    DT.ImageStartsWithMagic(fd.bytes, blob.offs, memory, img);
    d := DR.NewForFd(fd, blob.offs, memory);
    DR.OpensStored(d, memory, img);
  }

  /** An uncompressed blob is stored as it is. */
  lemma ContentsStored(c: Codec, bs: seq<BlobSpec>, plan: Plan, file: seq<Byte>, id: nat)
    requires Finished(c, bs, plan, file) && CollisionFree(Payloads(c, bs))
    requires id < |bs| && !Compressed(bs[id].flags) && bs[id].contents != []
    ensures var r := ExpectedBlob(c, bs, id);
            r.Some? && At(file, r.value.offs, bs[id].contents) && r.value.size == |bs[id].contents| && !Compressed(r.value.flags)
  {
    hide Plan.Valid, Plan.In, DataInPlace, DataStart, Payloads, WriteOffset, StoredBlob, InRange, At;
    PackedBytesStored(c, bs, file, id);
  }

  /** A dictionary file that was added to a shard as an uncompressed blob is stored there whole. */
  lemma DictionaryStored(c: Codec, bs: seq<BlobSpec>, plan: Plan, file: seq<Byte>, id: nat, img: DF.Image)
    requires Finished(c, bs, plan, file) && CollisionFree(Payloads(c, bs))
    requires id < |bs| && !Compressed(bs[id].flags) && DT.Stored(bs[id].contents, 0, img)
    ensures ExpectedBlob(c, bs, id).Some? && DT.Stored(file, ExpectedBlob(c, bs, id).value.offs, img)
    ensures !Compressed(ExpectedBlob(c, bs, id).value.flags)
  {
    hide Finished, CollisionFree, ExpectedBlob, Compressed, Payloads, At, DF.ImageBytes, DF.WellFormed;
    DT.ImageStartsWithMagic(bs[id].contents, 0, Zeros(DF.HEADER_SIZE), img);
    ContentsStored(c, bs, plan, file, id);
    AtInside(file, ExpectedBlob(c, bs, id).value.offs, bs[id].contents, 0, DF.ImageBytes(img));
  }

  /** Looking a key up through the shard gives, for every key that was added and whose lookup
      ends, what the stand-alone file gives, wherever the shard has put the blob. */
  method LookUpThroughShard(ghost c: Codec, ghost bs: seq<BlobSpec>, ghost plan: Plan, fd: File, ghost id: nat, blob: Blob,
                            memory: seq<Byte>, ghost img: DF.Image, key: CString) returns (r: DR.Text)
    requires Finished(c, bs, plan, fd.bytes) && CollisionFree(Payloads(c, bs)) && |memory| == DF.HEADER_SIZE
    requires id < |bs| && !Compressed(bs[id].flags) && DT.Stored(bs[id].contents, 0, img)
    requires ExpectedBlob(c, bs, id) == Some(blob) && DR.LookupEnds(img, key)
    ensures r == DR.LookupText(fd.bytes, blob.offs, img, key)
    ensures forall i | 0 <= i < |img.entries| && img.entries[i].key == key ::
              r == DR.LookupText(bs[id].contents, 0, img, key)
  {
    hide *;
    DictionaryStored(c, bs, plan, fd.bytes, id, img);
    var d := NewDictionary(fd, blob, memory, img);
    r := d.LookupKey(key, img);
    forall i | 0 <= i < |img.entries| && img.entries[i].key == key
      ensures r == DR.LookupText(bs[id].contents, 0, img, key)
    {
      DT.AddedKeyRelocated(fd.bytes, blob.offs, bs[id].contents, 0, img, i);
    }
  }

  /** Under this name these blobs have a dictionary, uncompressed, as the first. */
  ghost predicate HasDictionary(bs: seq<BlobSpec>, ids: seq<nat>, name: CString, img: DF.Image) {
    && (forall i | 0 <= i < |ids| :: ids[i] < |bs|)
    && var id := FirstAdded(bs, ids, name);
       id.Some? && !Compressed(bs[id.value].flags) && DT.Stored(bs[id.value].contents, 0, img)
  }

  /** From a run of calls to a value: after any run that adds a dictionary to every record of a
      name, finishing, opening, finding a record by its name, taking the dictionary from it, and
      looking a key up gives every added key its value. */
  method LookUpAfterRun(c: Codec, fd: File, ops: seq<Op>, hexName: CString, name: CString, memory: seq<Byte>,
                        ghost img: DF.Image, key: CString) returns (r: DR.Text)
    requires CallableRun(ops) && Castable(c, After(ops).blobs) && |memory| == DF.HEADER_SIZE
    requires InRange(c, After(ops).blobs, PlanOf(c, After(ops).blobs, After(ops).records))
    requires CollisionFree(Payloads(c, After(ops).blobs))
    requires IsHexName(hexName) && HasRecord(After(ops).records, Decoded(hexName, Zeros(RAW_NAME_SIZE)))
    requires var (bs, rs) := (After(ops).blobs, After(ops).records);
             forall j | 0 <= j < |rs| && RawName(rs[j]) == Decoded(hexName, Zeros(RAW_NAME_SIZE)) ::
               HasDictionary(bs, KeptIds(bs, rs[j].blobs), name, img)
    requires (name == [] || name[0] != 36) && DR.LookupEnds(img, key)
    modifies fd
    ensures DT.GivesValue(img.entries, key, r)
  {
    hide *;
    ghost var (bs, rs) := (After(ops).blobs, After(ops).records);
    var record, blob;
    ghost var j;
    record, blob, j := RoundTrip(c, fd, ops, hexName, name);
    ghost var id := DictionaryBlob(c, bs, fd.bytes, KeptIds(bs, rs[j].blobs), name, img, blob);
    r := LookUpThroughShard(c, bs, PlanOf(c, bs, rs), fd, id, blob.value, memory, img, key);
    DT.LookupGivesValue(bs[id].contents, 0, img, key);
    SameValue(bs[id].contents, img, key, r);
  }

  lemma DictionaryBlob(c: Codec, bs: seq<BlobSpec>, file: seq<Byte>, ids: seq<nat>, name: CString, img: DF.Image,
                       blob: Option<Blob>) returns (id: nat)
    requires HasDictionary(bs, ids, name, img) && ReadsAs(c, bs, file, ids, name, blob)
    ensures id < |bs| && !Compressed(bs[id].flags) && DT.Stored(bs[id].contents, 0, img)
    ensures blob.Some? && ExpectedBlob(c, bs, id) == blob
  {
    hide ExpectedBlob, DT.Stored, Delivers, CollisionFree, Compressed;
    id := FirstAdded(bs, ids, name).value;
    DT.StoredParts(bs[id].contents, 0, img);
    DT.ImageStartsWithMagic(bs[id].contents, 0, Zeros(DF.HEADER_SIZE), img);
    KeptExactly(c, bs, id);
  }

  /** What one file gives for the added keys, another gives too. */
  lemma SameValue(file: seq<Byte>, img: DF.Image, key: CString, r: DR.Text)
    requires DT.GivesValue(img.entries, key, DR.LookupText(file, 0, img, key))
    requires forall i | 0 <= i < |img.entries| && img.entries[i].key == key :: r == DR.LookupText(file, 0, img, key)
    ensures DT.GivesValue(img.entries, key, r)
  {
    hide DR.LookupText, DT.Resolved, DT.DistinctKeys;
  }

  /** A shard of one record, with one blob. */
  function OneRecord(hexName: CString, b: BlobSpec): seq<Op> {
    [AddRecord(hexName), AddBlob(b), AddBlobToRecord(0, 0)]
  }

  /** It is a proper run; nothing is looked up twice in it, except a name that is also the content type. */
  lemma OneRecordRuns(c: Codec, hexName: CString, b: BlobSpec)
    requires Acceptable(b)
    ensures After(OneRecord(hexName, b)) == Added([b], [RecordSpec(hexName, [0])]) && CallableRun(OneRecord(hexName, b))
    ensures Castable(c, [b]) && CollisionFree(Payloads(c, [b]))
  {
    hide Acceptable, Castable, Payloads;
    var ops := OneRecord(hexName, b);
    NothingAdded();
    assert ops[..0] == [] && ops[..3] == ops;
    OneMoreOp(ops, 0);
    OneMoreOp(ops, 1);
    OneMoreOp(ops, 2);
    assert [] + [b] == [b];
    var none: seq<nat> := [];
    assert none + [0] == [0];
    assert [RecordSpec(hexName, [])][0 := RecordSpec(hexName, [] + [0])] == [RecordSpec(hexName, [0])];
    OneCastable(c, b);
  }

  lemma OneMoreOp(ops: seq<Op>, i: nat)
    requires i < |ops|
    ensures After(ops[..i + 1]) == Next(After(ops[..i]), ops[i])
  {
    hide Next;
    assert ops[..i + 1][..i] == ops[..i];
  }

  lemma NothingAdded()
    ensures After([]) == Added([], [])
  {
  }

  lemma OneCastable(c: Codec, b: BlobSpec)
    ensures Castable(c, [b])
  {
    hide Payloads;
    assert [b][..0] == [];
  }

  /** And a small one. */
  lemma OneRecordSmall(c: Codec, hexName: CString, b: BlobSpec)
    requires Acceptable(b) && !Compressed(b.flags) && |b.contents| < 0x2000_0000_0000_0000
    ensures InRange(c, [b], PlanOf(c, [b], [RecordSpec(hexName, [0])]))
  {
    hide Compressed, RawName, Sorted, Plan.TableIds, Pool.PoolBytes, PoolOf, WriteOffset, Payloads;
    var rs := [RecordSpec(hexName, [0])];
    var plan := PlanOf(c, [b], rs);
    SortedLength(Entries(rs), ByRawName());
    OneOffset(c, b);
    OnePool(b);
    assert plan.records[0] in plan.records;
    W.TableLength(plan, 0);
    ConcatSize(plan.TableParts(0), TABLE_ENTRY_BYTES);
    assert plan.records[0] == Entries(rs)[0];
    ConcatSize(plan.Tables(), TABLE_ENTRY_BYTES);
  }

  lemma OneOffset(c: Codec, b: BlobSpec)
    ensures WriteOffset(Payloads(c, [b])) == Align(HEADER_SIZE + |Packed(c, b)|)
  {
    hide Packed;
  }

  lemma OnePool(b: BlobSpec)
    requires Acceptable(b)
    ensures |Pool.PoolBytes(PoolOf([b]))| <= 512
  {
    hide Pool.PoolBytes, Pool.Intern;
    assert [b][..0] == [];
    Pool.InternSize([], b.name);
    Pool.InternSize(Pool.Intern([], b.name), b.contentType);
    EmptyPool();
  }

  lemma EmptyPool()
    ensures |Pool.PoolBytes([])| == 0
  {
  }

  /** From one end to the other: a dictionary written by any run of calls, stored as a blob of a
      record in a new shard, found by the record's name and the blob's, and a key looked up in it. */
  method BuildStoreAndLookUp(c: Codec, calls: seq<DF.Entry>, announced: nat, optimalBits: nat, hashes: nat,
                             scratch: File, fd: File, hexName: CString, name: CString, contentType: CString,
                             memory: seq<Byte>, key: CString)
      returns (outcome: DW.Outcome, r: DR.Text)
    requires announced < 0x8000_0000 && optimalBits < 0x8000_0000 && hashes < TWO_32
    requires (announced > 0 ==> optimalBits > 0) && |memory| == DF.HEADER_SIZE
    requires DF.TableStart(DT.Accepted([], calls)) < 0x1000_0000_0000_0000
    requires DT.KeyEnds(DT.Accepted([], calls), optimalBits, hashes, key)
    requires scratch.bytes == [] && scratch != fd
    requires IsHexName(hexName) && (name == [] || name[0] != 36)
    requires |name| <= MAX_NAME_SIZE && |contentType| <= MAX_CONTENT_TYPE_SIZE
    modifies scratch, fd
    ensures outcome == DT.RunOutcome(announced, [], calls)
    ensures outcome == DW.Done ==> DT.GivesValue(DT.Accepted([], calls), key, r)
  {
    hide *;
    ghost var img;
    outcome, img := DT.Build(calls, announced, scratch, optimalBits, hashes);
    r := DR.Missing;
    if outcome == DW.Done {
      var b := BlobSpec(name, contentType, 0, scratch.bytes);
      DictionaryProper(c, hexName, b, img, optimalBits, key);
      r := LookUpAfterRun(c, fd, OneRecord(hexName, b), hexName, name, memory, img, key);
    }
  }

  lemma DictionaryProper(c: Codec, hexName: CString, b: BlobSpec, img: DF.Image, optimalBits: nat, key: CString)
    requires |b.name| <= MAX_NAME_SIZE && |b.contentType| <= MAX_CONTENT_TYPE_SIZE && b.flags == 0
    requires b.contents == DF.ImageBytes(img) && DT.Stored(b.contents, 0, img)
    requires DF.TableStart(img.entries) < 0x1000_0000_0000_0000
    requires 32 * |img.buckets| == Align(optimalBits) && optimalBits < 0x8000_0000
    requires DT.KeyEnds(img.entries, optimalBits, img.nHashes, key)
    ensures var (ops, rawName) := (OneRecord(hexName, b), Decoded(hexName, Zeros(RAW_NAME_SIZE)));
            && CallableRun(ops) && After(ops).blobs == [b]
            && var rs := After(ops).records;
            && Castable(c, [b]) && CollisionFree(Payloads(c, [b])) && InRange(c, [b], PlanOf(c, [b], rs))
            && HasRecord(rs, rawName)
            && forall j | 0 <= j < |rs| && RawName(rs[j]) == rawName ::
                 HasDictionary([b], KeptIds([b], rs[j].blobs), b.name, img)
    ensures DR.LookupEnds(img, key)
  {
    hide *;
    var r := RecordSpec(hexName, [0]);
    ProperBlob(b);
    OneRecordRuns(c, hexName, b);
    DT.StoredParts(b.contents, 0, img);
    DT.ImageSmall(img, optimalBits);
    OneRecordSmall(c, hexName, b);
    DT.KeyEndsLookup(img, optimalBits, key);
    NameAdded([r], 0);
    RawNameIs(r);
    FirstOfOne(b, img);
  }

  lemma ProperBlob(b: BlobSpec)
    requires |b.name| <= MAX_NAME_SIZE && |b.contentType| <= MAX_CONTENT_TYPE_SIZE && b.flags == 0
    ensures Acceptable(b) && !Compressed(b.flags)
  {
  }

  lemma RawNameIs(r: RecordSpec)
    ensures RawName(r) == Decoded(r.hexName, Zeros(RAW_NAME_SIZE))
  {
  }

  lemma FirstOfOne(b: BlobSpec, img: DF.Image)
    requires !Compressed(b.flags) && DT.Stored(b.contents, 0, img)
    ensures HasDictionary([b], KeptIds([b], [0]), b.name, img)
  {
    hide DT.Stored, Compressed;
  }

  // ---------- A stream over a blob ----------

  /** Streaming a blob to its end, in reads of any size, delivers its packed bytes. */
  method StreamBlob(ghost c: Codec, ghost bs: seq<BlobSpec>, ghost plan: Plan, fd: File, ghost id: nat, blob: Blob, count: nat)
      returns (data: seq<Byte>)
    requires Finished(c, bs, plan, fd.bytes) && CollisionFree(Payloads(c, bs))
    requires id < |bs| && ExpectedBlob(c, bs, id) == Some(blob) && count > 0
    ensures data == Packed(c, bs[id])
  {
    hide Finished, CollisionFree, Payloads, Packed, ExpectedBlob, Slice;
    KeptExactly(c, bs, id);
    PackedRead(c, bs, plan, fd.bytes, id);
    var stream := new Stream.BlobStream.NewForBlob(fd, blob);
    data := stream.ReadAll(count);
  }
}
