/** The V2 writer, called from one thread. (AddBlobMachine has the calls from several threads.) */
module ShardWriter {
  import opened Bytes
  import opened CStrings
  import opened HexName
  import opened BlobLayout
  import opened BlobStore
  import opened ShardFormat
  import opened ShardLayout
  import opened Sorting
  import Pool = ConstantPool

  datatype BlobEntry = BlobEntry(name: CString, offs: nat, sblob: SBlob)

  function Headers(es: seq<BlobEntry>): (hs: seq<SBlob>)
    ensures |hs| == |es|
  {
    seq(|es|, i requires 0 <= i < |es| => es[i].sblob)
  }

  function Names(es: seq<BlobEntry>): (ns: seq<CString>)
    ensures |ns| == |es|
  {
    seq(|es|, i requires 0 <= i < |es| => es[i].name)
  }

  function SpecNames(bs: seq<BlobSpec>): (ns: seq<CString>)
    ensures |ns| == |bs|
  {
    seq(|bs|, i requires 0 <= i < |bs| => bs[i].name)
  }

  predicate RecordsOk(rs: seq<RecordEntry>, n: nat) {
    forall k | 0 <= k < |rs| :: |rs[k].rawName| == RAW_NAME_SIZE && forall i | 0 <= i < |rs[k].blobs| :: rs[k].blobs[i] < n
  }

  class ShardWriterV2 {
    const fd: File
    const codec: Codec
    const cpool: Pool.ConstantPool
    var offset: nat
    var blobs: seq<BlobEntry>
    var records: seq<RecordEntry>
    var csumToDataStart: map<seq<Byte>, nat>
    /** The blobs added so far, by identifier. */
    ghost var specs: seq<BlobSpec>

    /** Entries, records and pool are those of the blobs added. A lookup of something at or above
        4 GiB leaves it at that: the headers then say where nothing is. */
    ghost predicate Kept()
      reads this, cpool
    {
      && cpool.Valid()
      && Names(blobs) == SpecNames(specs)
      && RecordsOk(records, |specs|)
    }

    /** And everything is in its place. */
    ghost predicate Valid()
      reads this, fd, cpool
    {
      && Kept()
      && Settled(codec, specs, fd.bytes, offset, csumToDataStart, cpool.strings, Headers(blobs))
    }

    constructor NewForFd(fd: File, codec: Codec)
      ensures Valid() && this.fd == fd && this.codec == codec && fresh(cpool)
      ensures specs == [] && records == [] && cpool.strings == []
      ensures fd.bytes == old(fd.bytes)
    {
      this.fd, this.codec := fd, codec;
      cpool := new Pool.ConstantPool();
      offset := HEADER_SIZE;
      blobs, records, csumToDataStart, specs := [], [], map[], [];
    }

    /** Adds a blob. A name or content type that is too long is refused with 0, and changes nothing.
        Everything stays in its place exactly if what is looked up survives its cast; only a blob
        without packed bytes may do so by chance. */
    method AddBlob(b: BlobSpec) returns (id: nat)
      requires Kept()
      modifies this, fd, cpool
      ensures Kept() && records == old(records)
      ensures if Acceptable(b) then
                id == |old(specs)| && specs == old(specs) + [b] && cpool.strings == PoolWith(old(cpool.strings), b)
              else id == 0 && unchanged(this, fd, cpool)
      ensures Acceptable(b) <==> |b.name| <= 255 && |b.contentType| <= 255
      ensures Acceptable(b) ==>
                var data := if b.flags % 2 == 1 then codec.deflate(b.contents) else b.contents;
                && |blobs| == |old(blobs)| + 1 && blobs[..|old(blobs)|] == old(blobs)
                && var h := blobs[|old(blobs)|].sblob;
                && h.csum == codec.sha256(data) && h.size == |data|
                && h.flags == b.flags && h.uncompressedSize == |b.contents|
                && (codec.sha256(data) !in old(csumToDataStart) ==>
                      && h.dataStart == old(offset) && offset == Align(old(offset) + |data|)
                      && fd.bytes == Patched(old(fd.bytes), data, old(offset)))
      ensures old(Valid()) && Acceptable(b) && old(LookupsExact(codec, csumToDataStart, cpool.strings, b)) ==> Valid()
      ensures old(Valid()) && Acceptable(b) && Packed(codec, b) != [] ==>
                (Valid() <==> old(LookupsExact(codec, csumToDataStart, cpool.strings, b)))
    {
      hide Settled, StoredBlob, Packed, Pool.NoDuplicates, Pool.PoolBytes, Pool.PoolOffset, Pool.Answer, Pool.Intern,
        Patched, RecordsOk, LookupsExact, Found, Align, Valid;
      if |b.name| > MAX_NAME_SIZE || |b.contentType| > MAX_CONTENT_TYPE_SIZE {
        return 0;
      }
      ghost var (bs0, strings0, headers0) := (specs, cpool.strings, Headers(blobs));
      PackedIs(codec, b);
      Enter(b);
      ghost var sblob := blobs[|bs0|].sblob;
      id := |blobs| - 1;
      specs := specs + [b];
      NamesGrow(old(blobs), bs0, b, blobs[id]);
      RecordsOkGrows(records, |bs0|);
      NotFound(old(csumToDataStart), sblob.csum);
      ValidIs();
      if old(Valid()) {
        if LookupsExact(codec, old(csumToDataStart), strings0, b) {
          Listed(codec, bs0, b, old(fd.bytes), old(offset), old(csumToDataStart), strings0, headers0,
                 sblob.(dataStart := 0, size := 0));
        } else if Packed(codec, b) != [] {
          Mislaid(codec, bs0, b, old(fd.bytes), old(offset), old(csumToDataStart), strings0, headers0,
                  sblob.(dataStart := 0, size := 0), fd.bytes);
        }
      }
    }

    twostate lemma ValidIs()
      ensures old(Valid()) ==> old(Settled(codec, specs, fd.bytes, offset, csumToDataStart, cpool.strings, Headers(blobs)))
      ensures Valid() <==> Kept() && Settled(codec, specs, fd.bytes, offset, csumToDataStart, cpool.strings, Headers(blobs))
    {
      hide Settled;
    }

    /** Interns the strings, finds or makes a place, and lists the blob. */
    method Enter(b: BlobSpec)
      requires cpool.Valid()
      modifies this`offset, this`csumToDataStart, this`blobs, fd, cpool
      ensures cpool.Valid() && cpool.strings == PoolWith(old(cpool.strings), b)
      ensures var (packed, strings, table, off) := (Packed(codec, b), old(cpool.strings), old(csumToDataStart), old(offset));
              var csum := codec.sha256(packed);
              var found := Found(table, csum);
              var dataStart := if found == 0 then off else found;
              && blobs == old(blobs) + [BlobEntry(b.name, 0,
                                                  SBlob(b.flags, Pool.Answer(strings, b.name),
                                                        Pool.Answer(Pool.Intern(strings, b.name), b.contentType),
                                                        csum, |packed|, |b.contents|, dataStart))]
              && if found == 0 then
                   && offset == Align(off + |packed|) && csumToDataStart == table[csum := off]
                   && fd.bytes == Patched(old(fd.bytes), packed, off)
                 else offset == off && csumToDataStart == table && fd.bytes == old(fd.bytes)
    {
      hide Packed, Pool.NoDuplicates, Pool.PoolBytes, Pool.PoolOffset, Pool.Answer, Pool.Intern, Patched, Found, Align,
        Pool.ConstantPool.Valid;
      var nameOffs := cpool.Add(b.name);
      var contentTypeOffs := cpool.Add(b.contentType);
      var packed := Packed(codec, b);
      var sblob := SBlob(b.flags, nameOffs, contentTypeOffs, codec.sha256(packed), 0, |b.contents|, 0);
      var dataStart := Reserve(sblob.csum, packed);
      blobs := blobs + [BlobEntry(b.name, 0, sblob.(dataStart := dataStart, size := |packed|))];
    }

    /** The place of packed contents: a new one, which is filled, or the one that has them. */
    method Reserve(csum: Digest, packed: seq<Byte>) returns (dataStart: nat)
      modifies this`offset, this`csumToDataStart, fd
      ensures var (table, off) := (old(csumToDataStart), old(offset));
              var found := Found(table, csum);
              if found == 0 then
                && dataStart == off && offset == Align(off + |packed|) && csumToDataStart == table[csum := off]
                && fd.bytes == Patched(old(fd.bytes), packed, off)
              else dataStart == found && offset == off && csumToDataStart == table && fd.bytes == old(fd.bytes)
    {
      dataStart := Found(csumToDataStart, csum);
      if dataStart == 0 {
        dataStart := offset;
        offset := Align(offset + |packed|);
        csumToDataStart := csumToDataStart[csum := dataStart];
        WriteChunks(fd, packed, dataStart);
      }
    }

    /** Adds a record. A name that is not hexadecimal leaves the rest of the raw name zero. */
    method AddRecord(hexName: CString) returns (id: nat)
      requires Kept()
      modifies this`records
      ensures Kept() && (Valid() <==> old(Valid()))
      ensures id == |old(records)| && records == old(records) + [RecordEntry(Decoded(hexName, Zeros(RAW_NAME_SIZE)), [], 0)]
    {
      hide Settled, Decoded;
      var rawName := new Byte[RAW_NAME_SIZE](_ => 0);
      assert rawName[..] == Zeros(RAW_NAME_SIZE);
      var _ := HexNameToRawName(rawName, hexName);
      id := |records|;
      records := records + [RecordEntry(rawName[..], [], 0)];
    }

    method AddBlobToRecord(recordId: nat, blobId: nat)
      requires Kept()
      requires recordId < |records| && blobId < |specs|
      modifies this`records
      ensures Kept() && (Valid() <==> old(Valid()))
      ensures records == old(records)[recordId := old(records)[recordId].(blobs := old(records)[recordId].blobs + [blobId])]
    {
      hide Settled;
      records := records[recordId := records[recordId].(blobs := records[recordId].blobs + [blobId])];
    }

    /** What finishing now would lay out. */
    ghost function ToPlan(): Plan
      reads this, cpool
    {
      Plan(offset, Names(blobs), Headers(blobs), Sorted(records, ByRawName()), cpool.strings)
    }

    method WriteBlobHeaders(ghost plan: Plan)
      requires plan.Valid() && plan.headers == Headers(blobs) && plan.base == offset
      modifies this`blobs, this`offset, fd
      ensures blobs == Placed(old(blobs), plan.base) && offset == plan.TablesStart()
      ensures fd.bytes == Patched(old(fd.bytes), Concat(plan.HeaderParts()), plan.base)
    {
      hide Patched, EncodeBlob, Concat;
      ghost var parts := plan.HeaderParts();
      PatchedNothing(fd.bytes, offset);
      ConcatNothing();
      for i := 0 to |blobs|
        invariant |blobs| == |old(blobs)| && offset == plan.base + BLOB_BYTES * i
        invariant forall j | 0 <= j < i :: blobs[j] == Placed(old(blobs), plan.base)[j]
        invariant forall j | i <= j < |blobs| :: blobs[j] == old(blobs)[j]
        invariant |Concat(parts[..i])| == BLOB_BYTES * i
        invariant fd.bytes == Patched(old(fd.bytes), Concat(parts[..i]), plan.base)
      {
        assert parts[i] == EncodeBlob(Headers(old(blobs))[i]) == EncodeBlob(blobs[i].sblob);
        ConcatGrows(old(fd.bytes), plan.base, parts, i);
        blobs := blobs[i := blobs[i].(offs := offset)];
        fd.Pwrite(EncodeBlob(blobs[i].sblob), offset);
        offset := offset + BLOB_BYTES;
      }
      assert parts[..|blobs|] == parts;
    }

    method WriteBlobTable(ghost plan: Plan, k: nat)
      requires k < |records| == |plan.records| && records[k] == plan.records[k] && plan.Valid()
      requires Names(blobs) == plan.names && forall i | 0 <= i < |blobs| :: blobs[i].offs == plan.BlobStart(i)
      modifies this`records, this`offset, fd
      ensures records == old(records)[k := RecordEntry(plan.records[k].rawName, plan.TableIds(k), old(offset))]
      ensures offset == old(offset) + |Concat(plan.TableParts(k))|
      ensures fd.bytes == Patched(old(fd.bytes), Concat(plan.TableParts(k)), old(offset))
    {
      hide Patched, Le, Concat, Sorted;
      ghost var parts := plan.TableParts(k);
      var ids := Sorted(records[k].blobs, ByBlobName(Names(blobs)));
      SortedLength(records[k].blobs, ByBlobName(Names(blobs)));
      records := records[k := records[k].(blobTableStart := offset, blobs := ids)];
      PatchedNothing(fd.bytes, offset);
      ConcatNothing();
      for i := 0 to |ids|
        invariant records == old(records)[k := RecordEntry(plan.records[k].rawName, ids, old(offset))]
        invariant offset == old(offset) + |Concat(parts[..i])|
        invariant fd.bytes == Patched(old(fd.bytes), Concat(parts[..i]), old(offset))
      {
        assert ids[i] in ids;
        ConcatGrows(old(fd.bytes), old(offset), parts, i);
        fd.Pwrite(Le(blobs[ids[i]].offs, 8), offset);
        offset := offset + TABLE_ENTRY_BYTES;
      }
      assert parts[..|ids|] == parts;
    }

    method WriteBlobTables(ghost plan: Plan)
      requires records == plan.records && plan.Valid() && offset == plan.TablesStart()
      requires Names(blobs) == plan.names && forall i | 0 <= i < |blobs| :: blobs[i].offs == plan.BlobStart(i)
      modifies this`records, this`offset, fd
      ensures records == Tabled(plan, |plan.records|)
      ensures offset == plan.TablesStart() + |Concat(plan.Tables())|
      ensures fd.bytes == Patched(old(fd.bytes), Concat(plan.Tables()), plan.TablesStart())
    {
      hide Patched, Concat, Sorted;
      ghost var parts := plan.Tables();
      PatchedNothing(fd.bytes, offset);
      ConcatNothing();
      for k := 0 to |records|
        invariant records == Tabled(plan, k)
        invariant offset == plan.TablesStart() + |Concat(parts[..k])|
        invariant fd.bytes == Patched(old(fd.bytes), Concat(parts[..k]), plan.TablesStart())
      {
        ConcatGrows(old(fd.bytes), plan.TablesStart(), parts, k);
        WriteBlobTable(plan, k);
      }
      assert parts[..|records|] == parts;
    }

    method WriteRecords(ghost plan: Plan)
      requires records == Tabled(plan, |plan.records|) && plan.Valid() && offset == plan.RecordsStart()
      modifies this`offset, fd
      ensures offset == plan.RecordsStart() + RECORD_BYTES * |records|
      ensures fd.bytes == Patched(old(fd.bytes), Concat(plan.RecordParts()), plan.RecordsStart())
    {
      hide Patched, Concat, Sorted, EncodeRecord;
      ghost var parts := plan.RecordParts();
      PatchedNothing(fd.bytes, offset);
      ConcatNothing();
      for k := 0 to |records|
        invariant offset == plan.RecordsStart() + RECORD_BYTES * k
        invariant |Concat(parts[..k])| == RECORD_BYTES * k
        invariant fd.bytes == Patched(old(fd.bytes), Concat(parts[..k]), plan.RecordsStart())
      {
        var e := records[k];
        TableLength(plan, k);
        var srecord := SRecord(e.rawName, 0, |e.blobs|, e.blobTableStart);
        assert parts[k] == EncodeRecord(srecord);
        ConcatGrows(old(fd.bytes), plan.RecordsStart(), parts, k);
        fd.Pwrite(EncodeRecord(srecord), offset);
        offset := offset + RECORD_BYTES;
      }
      assert parts[..|records|] == parts;
    }

    /** Writes everything but the data: afterwards the file holds the whole layout. */
    method Finish()
      requires Valid()
      modifies this, fd
      ensures var plan := old(ToPlan());
              && plan.Valid() && fd.bytes == plan.Written(old(fd.bytes))
              && records == Tabled(plan, |plan.records|) && blobs == Placed(old(blobs), plan.base)
              && offset == plan.RecordsStart() + RECORD_BYTES * |records|
      ensures specs == old(specs) && csumToDataStart == old(csumToDataStart)
    {
      hide Settled, Placed, Tabled, Plan.Written, Plan.Valid, Sorted, Plan.RecordsStart;
      ghost var plan := ToPlan();
      SettledBase(codec, specs, fd.bytes, offset, csumToDataStart, cpool.strings, Headers(blobs));
      PlanValid(records, specs, plan, blobs, offset);
      WriteLayout(plan);
    }

    method WriteLayout(ghost plan: Plan)
      requires plan == ToPlan() && plan.Valid() && cpool.Valid()
      modifies this`records, this`blobs, this`offset, fd
      ensures fd.bytes == plan.Written(old(fd.bytes))
      ensures records == Tabled(plan, |plan.records|) && blobs == Placed(old(blobs), plan.base)
      ensures offset == plan.RecordsStart() + RECORD_BYTES * |records|
    {
      hide Patched, Sorted, Concat, EncodeHeader, Plan.HeaderParts, Plan.Tables, Plan.RecordParts, Plan.Valid, Placed,
        Tabled, Names, Headers, Pool.PoolBytes, Pool.ConstantPool.Valid, Align;
      records := Sorted(records, ByRawName());
      WriteBlobHeaders(plan);
      PlacedFacts(old(blobs), plan);
      WriteBlobTables(plan);
      offset := Align(offset);
      var recordsStart := offset;
      WriteRecords(plan);
      var stringTableStart := Align(offset);
      cpool.Write(fd, stringTableStart);
      fd.Pwrite(EncodeHeader(Header(|records|, recordsStart, stringTableStart)), 0);
    }
  }

  /** The blob entries once their headers have been placed from `base` on. */
  function Placed(es: seq<BlobEntry>, base: nat): (r: seq<BlobEntry>)
    ensures |r| == |es|
  {
    seq(|es|, i requires 0 <= i < |es| => es[i].(offs := base + BLOB_BYTES * i))
  }

  /** The record entries once their tables have been written. */
  function Tabled(plan: Plan, n: nat): (r: seq<RecordEntry>)
    requires n <= |plan.records|
    ensures |r| == |plan.records|
  {
    seq(|plan.records|, k requires 0 <= k < |plan.records| =>
      if k < n then RecordEntry(plan.records[k].rawName, plan.TableIds(k), plan.TableStart(k)) else plan.records[k])
  }

  /** The copy loop: reads of at most a buffer, each written behind the one before. */
  method WriteChunks(fd: File, data: seq<Byte>, start: nat)
    modifies fd
    ensures fd.bytes == Patched(old(fd.bytes), data, start)
  {
    hide Patched;
    var done, offset := 0, start;
    PatchedNothing(fd.bytes, start);
    while done < |data|
      invariant done <= |data| && offset == start + done
      invariant fd.bytes == Patched(old(fd.bytes), data[..done], start)
    {
      var size := Min(BUFFER_SIZE, |data| - done);
      ghost var (a, b) := (data[..done], data[done..done + size]);
      assert data[..done + size] == a + b;
      if a == [] {
        assert a + b == b;
        PatchedNothing(old(fd.bytes), start);
      } else {
        PatchedTwice(old(fd.bytes), a, b, start);
      }
      fd.Pwrite(data[done..done + size], offset);
      offset := offset + size;
      done := done + size;
    }
    assert data[..done] == data;
  }

  lemma PlacedFacts(es: seq<BlobEntry>, plan: Plan)
    ensures Names(Placed(es, plan.base)) == Names(es)
    ensures forall i | 0 <= i < |es| :: Placed(es, plan.base)[i].offs == plan.BlobStart(i)
  {
  }

  lemma ConcatNothing()
    ensures Concat([]) == []
  {
  }

  lemma TableLength(plan: Plan, k: nat)
    requires k < |plan.records|
    ensures |plan.TableIds(k)| == |plan.records[k].blobs|
  {
    SortedLength(plan.records[k].blobs, ByBlobName(plan.names));
  }

  lemma PlanValid(records: seq<RecordEntry>, bs: seq<BlobSpec>, plan: Plan, es: seq<BlobEntry>, offset: nat)
    requires RecordsOk(records, |bs|) && |es| == |bs| && offset >= HEADER_SIZE
    requires plan.base == offset && plan.names == Names(es) && plan.headers == Headers(es)
    requires plan.records == Sorted(records, ByRawName())
    ensures plan.Valid()
  {
    SortedLength(records, ByRawName());
    forall k | 0 <= k < |plan.records|
      ensures |plan.records[k].rawName| == RAW_NAME_SIZE
      ensures forall i | 0 <= i < |plan.records[k].blobs| :: plan.records[k].blobs[i] < |plan.headers|
    {
      assert plan.records[k] in plan.records;
    }
  }

  /** The writer's state is settled again once the header is complete. */
  lemma Listed(c: Codec, bs: seq<BlobSpec>, b: BlobSpec, file: seq<Byte>, offset: nat, table: map<seq<Byte>, nat>,
               strings: seq<CString>, blobs: seq<SBlob>, sblob: SBlob)
    requires Settled(c, bs, file, offset, table, strings, blobs)
    requires LookupsExact(c, table, strings, b) && Acceptable(b)
    requires sblob == SBlob(b.flags, Pool.Answer(strings, b.name), Pool.Answer(Pool.Intern(strings, b.name), b.contentType),
                            PayloadOf(c, b).csum, 0, |b.contents|, 0)
    ensures var (p, t) := (PayloadOf(c, b), PoolWith(strings, b));
            var found := Found(table, p.csum);
            var hs := blobs + [sblob.(dataStart := if found == 0 then offset else found, size := |p.data|)];
            if found == 0 then
              Settled(c, bs + [b], Patched(file, p.data, offset), Align(offset + |p.data|), table[p.csum := offset], t, hs)
            else Settled(c, bs + [b], file, offset, table, t, hs)
  {
    hide Settled, Found, PayloadOf, StringsAnswerable, PoolWith, StoredBlob, Patched, Align, Pool.Answer, Pool.Intern;
    var p := PayloadOf(c, b);
    SettledTable(c, bs, file, offset, table, strings, blobs, p.csum);
    HeaderAnswered(c, bs, b, strings);
    if p.csum in table {
      SettledSeen(c, bs, b, file, offset, table, strings, blobs);
    } else {
      SettledFresh(c, bs, b, file, offset, table, strings, blobs);
    }
  }

  /** It is not if a lookup has lost the upper half of an offset, unless there was nothing to place. */
  lemma Mislaid(c: Codec, bs: seq<BlobSpec>, b: BlobSpec, file: seq<Byte>, offset: nat, table: map<seq<Byte>, nat>,
                strings: seq<CString>, blobs: seq<SBlob>, sblob: SBlob, written: seq<Byte>)
    requires Settled(c, bs, file, offset, table, strings, blobs)
    requires !LookupsExact(c, table, strings, b) && Packed(c, b) != []
    requires sblob == SBlob(b.flags, Pool.Answer(strings, b.name), Pool.Answer(Pool.Intern(strings, b.name), b.contentType),
                            PayloadOf(c, b).csum, 0, |b.contents|, 0)
    ensures var (p, t) := (PayloadOf(c, b), PoolWith(strings, b));
            var found := Found(table, p.csum);
            var hs := blobs + [sblob.(dataStart := if found == 0 then offset else found, size := |p.data|)];
            if found == 0 then
              !Settled(c, bs + [b], written, Align(offset + |p.data|), table[p.csum := offset], t, hs)
            else !Settled(c, bs + [b], written, offset, table, t, hs)
  {
    hide *;
    var (p, t, qs) := (PayloadOf(c, b), PoolWith(strings, b), bs + [b]);
    var found := Found(table, p.csum);
    var hs := blobs + [sblob.(dataStart := if found == 0 then offset else found, size := |p.data|)];
    var (off', table') := if found == 0 then (Align(offset + |p.data|), table[p.csum := offset]) else (offset, table);
    if Settled(c, qs, written, off', table', t, hs) {
      SettledParts(c, bs, file, offset, table, strings, blobs);
      SettledParts(c, qs, written, off', table', t, hs);
      assert hs[|bs|] == StoredBlob(c, qs, t, |bs|);
      HeaderRight(c, bs, b, strings, hs[|bs|]);
      PlaceRight(Payloads(c, bs), p);
      NotExact(c, table, strings, b);
      PayloadsGrow(c, bs, b);
    }
  }

  lemma NotFound(table: map<seq<Byte>, nat>, csum: seq<Byte>)
    ensures csum !in table ==> Found(table, csum) == 0
  {
  }

  lemma PackedIs(c: Codec, b: BlobSpec)
    ensures Packed(c, b) == if b.flags % 2 == 1 then c.deflate(b.contents) else b.contents
  {
  }

  lemma NotExact(c: Codec, table: map<seq<Byte>, nat>, strings: seq<CString>, b: BlobSpec)
    requires !LookupsExact(c, table, strings, b)
    ensures StringsAnswerable(strings, b) ==> PayloadOf(c, b).csum in table && table[PayloadOf(c, b).csum] >= TWO_32
    ensures PayloadOf(c, b).data == Packed(c, b)
  {
  }

  /** A known payload that is not empty keeps place and write offset only if its place survives the cast. */
  lemma PlaceRight(ps: seq<Payload>, p: Payload)
    ensures var found := Found(CsumTable(ps), p.csum);
            p.csum in CsumTable(ps) && p.data != []
            && (if found == 0 then Align(WriteOffset(ps) + |p.data|) == WriteOffset(ps + [p])
                else found == DataStart(ps + [p], |ps|))
            ==> CsumTable(ps)[p.csum] < TWO_32
  {
    hide WriteOffset, CsumTable, DataStart, IsFirst, Align;
    if p.csum in CsumTable(ps) {
      ReserveSeen(ps, p);
    }
  }

  lemma SettledParts(c: Codec, bs: seq<BlobSpec>, file: seq<Byte>, offset: nat, table: map<seq<Byte>, nat>,
                     strings: seq<CString>, blobs: seq<SBlob>)
    requires Settled(c, bs, file, offset, table, strings, blobs)
    ensures Pool.NoDuplicates(strings) && |blobs| == |bs|
    ensures offset == WriteOffset(Payloads(c, bs)) && table == CsumTable(Payloads(c, bs))
    ensures forall i | 0 <= i < |bs| :: blobs[i] == StoredBlob(c, bs, strings, i)
  {
    hide DataInPlace, WriteOffset, CsumTable, StoredBlob, Payloads, Pool.NoDuplicates;
  }

  /** A header with the pool's answers is right only if they survived their casts. */
  lemma HeaderRight(c: Codec, bs: seq<BlobSpec>, b: BlobSpec, strings: seq<CString>, h: SBlob)
    requires Pool.NoDuplicates(strings) && h == StoredBlob(c, bs + [b], PoolWith(strings, b), |bs|)
    requires h.nameOffs == Pool.Answer(strings, b.name)
    requires h.contentTypeOffs == Pool.Answer(Pool.Intern(strings, b.name), b.contentType)
    ensures StringsAnswerable(strings, b)
    ensures h.dataStart == DataStart(Payloads(c, bs) + [PayloadOf(c, b)], |bs|)
  {
    hide DataStart, Payloads, PayloadOf, Pool.Intern, Pool.PoolOffset, Pool.PoolBytes, Pool.NoDuplicates, Pool.Answer,
      Pool.Answerable;
    Pool.TwoInterns(strings, b.name, b.contentType);
    PayloadsGrow(c, bs, b);
  }

  lemma SettledBase(c: Codec, bs: seq<BlobSpec>, file: seq<Byte>, offset: nat, table: map<seq<Byte>, nat>,
                    strings: seq<CString>, blobs: seq<SBlob>)
    requires Settled(c, bs, file, offset, table, strings, blobs)
    ensures offset >= HEADER_SIZE
  {
    hide DataInPlace, WriteOffset, CsumTable, StoredBlob, Payloads, Pool.NoDuplicates;
  }

  lemma SettledTable(c: Codec, bs: seq<BlobSpec>, file: seq<Byte>, offset: nat, table: map<seq<Byte>, nat>,
                     strings: seq<CString>, blobs: seq<SBlob>, csum: seq<Byte>)
    requires Settled(c, bs, file, offset, table, strings, blobs)
    ensures Pool.NoDuplicates(strings)
    ensures if csum !in table then Found(table, csum) == 0
            else table[csum] < TWO_32 ==> Found(table, csum) == table[csum] > 0
  {
    hide DataInPlace, WriteOffset, CsumTable, StoredBlob, Payloads, Pool.NoDuplicates;
    if csum in table {
      TableValueAnswered(Payloads(c, bs), csum);
    }
  }

  /** The pool has answered with the offsets that the header ends up with. */
  lemma HeaderAnswered(c: Codec, bs: seq<BlobSpec>, b: BlobSpec, strings: seq<CString>)
    requires Pool.NoDuplicates(strings) && StringsAnswerable(strings, b)
    ensures var h := StoredBlob(c, bs + [b], PoolWith(strings, b), |bs|);
            h == SBlob(b.flags, Pool.Answer(strings, b.name), Pool.Answer(Pool.Intern(strings, b.name), b.contentType),
                       PayloadOf(c, b).csum, |PayloadOf(c, b).data|, |b.contents|, h.dataStart)
  {
    hide DataStart, Payloads, Packed, Pool.Intern, Pool.PoolOffset, Pool.PoolBytes, Pool.NoDuplicates, Pool.Answer,
      Pool.Answerable;
    Pool.TwoInterns(strings, b.name, b.contentType);
  }

  lemma NamesGrow(es: seq<BlobEntry>, bs: seq<BlobSpec>, b: BlobSpec, e: BlobEntry)
    requires Names(es) == SpecNames(bs) && e.name == b.name
    ensures Names(es + [e]) == SpecNames(bs + [b]) && Headers(es + [e]) == Headers(es) + [e.sblob]
  {
    assert |es| == |Names(es)| == |bs|;
    assert Names(es + [e]) == Names(es) + [e.name];
    assert SpecNames(bs + [b]) == SpecNames(bs) + [b.name];
  }

  lemma RecordsOkGrows(rs: seq<RecordEntry>, n: nat)
    requires RecordsOk(rs, n)
    ensures RecordsOk(rs, n + 1)
  {
  }
}
