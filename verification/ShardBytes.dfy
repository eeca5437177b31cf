/** What the bytes of a finished V2 shard are, by their numbers: where each field is, and where
    the numbers in it lead. */
module ShardBytes {
  import opened Bytes
  import opened CStrings
  import opened HexName
  import opened BlobLayout
  import opened BlobStore
  import opened ShardFormat
  import opened ShardLayout
  import opened ShardReader
  import opened ShardTheorems
  import opened Sorting
  import Pool = ConstantPool
  import W = ShardWriter

  lemma SmallMod(v: nat)
    ensures v < TWO_63 ==> v % TWO_64 == v
  {
  }

  // ---------- The layout ----------

  /** The magic, the number of records, and where records and string constants start. */
  lemma HeaderBytes(plan: Plan, file: seq<Byte>)
    requires plan.Valid() && plan.In(file) && plan.End() < TWO_63
    ensures |file| >= 36 && file[..8] == [83, 104, 97, 114, 100, 86, 50, 32] && file[8..12] == [0, 0, 0, 0]
    ensures FromLe(file[12..20]) == |plan.records|
    ensures FromLe(file[20..28]) == plan.RecordsStart() && FromLe(file[28..36]) == plan.PoolStart()
  {
    hide At, EncodeHeader, FromLe, Concat, Pool.PoolBytes, Plan.HeaderParts, Plan.Tables, Plan.RecordParts, Align;
    var h := plan.FileHeader();
    HeaderPlaces(h);
    SmallMod(|plan.records|);
    SmallMod(plan.RecordsStart());
    SmallMod(plan.PoolStart());
    FieldAt(file, 0, EncodeHeader(h), 0, 8);
    FieldAt(file, 0, EncodeHeader(h), 8, 12);
    FieldAt(file, 0, EncodeHeader(h), 12, 20);
    FieldAt(file, 0, EncodeHeader(h), 20, 28);
    FieldAt(file, 0, EncodeHeader(h), 28, 36);
  }

  /** Record `k`: its raw name, no flags, the number of its blobs in a byte, and where its table is. */
  lemma RecordBytes(plan: Plan, file: seq<Byte>, k: nat)
    requires plan.Valid() && plan.In(file) && plan.End() < TWO_63 && k < |plan.records|
    ensures var at := plan.RecordsStart() + 36 * k;
            && at + 36 <= |file|
            && file[at..at + 20] == plan.records[k].rawName && FromLe(file[at + 20..at + 24]) == 0
            && FromLe(file[at + 24..at + 25]) == |plan.records[k].blobs| % 256
            && FromLe(file[at + 28..at + 36]) == plan.TableStart(k)
  {
    hide At, EncodeRecord, FromLe, Concat, Pool.PoolBytes, Plan.HeaderParts, Plan.Tables, Plan.RecordsStart, Plan.TableStart;
    var (at, s) := (plan.RecordsStart() + 36 * k, EncodeRecord(plan.RecordAt(k)));
    RecordAtPlace(plan, file, k);
    RecordPlaces(plan.RecordAt(k));
    TableStartSmall(plan, k);
    SmallMod(plan.TableStart(k));
    FieldAt(file, at, s, 0, 20);
    FieldAt(file, at, s, 20, 24);
    FieldAt(file, at, s, 24, 25);
    FieldAt(file, at, s, 28, 36);
  }

  lemma RecordAtPlace(plan: Plan, file: seq<Byte>, k: nat)
    requires plan.Valid() && plan.In(file) && k < |plan.records|
    ensures At(file, plan.RecordsStart() + 36 * k, EncodeRecord(plan.RecordAt(k)))
  {
    hide At, Concat, EncodeHeader, EncodeRecord, Pool.PoolBytes, Plan.HeaderParts, Plan.RecordAt, Plan.Tables;
    ConcatHas(file, plan.RecordsStart(), plan.RecordParts(), k);
    ConcatSize(plan.RecordParts()[..k], RECORD_BYTES);
  }

  lemma TableStartSmall(plan: Plan, k: nat)
    requires plan.Valid() && plan.End() < TWO_63 && k < |plan.records|
    ensures plan.TableStart(k) < TWO_63
  {
    hide Concat, Pool.PoolBytes, Plan.Tables;
    ConcatPrefix(plan.Tables(), k);
  }

  /** Entry `i` of its table: where the header of the blob is. */
  lemma TableBytes(plan: Plan, file: seq<Byte>, k: nat, i: nat)
    requires plan.Valid() && plan.In(file) && plan.End() < TWO_63
    requires k < |plan.records| && i < |plan.records[k].blobs|
    ensures |plan.TableIds(k)| == |plan.records[k].blobs| && plan.TableIds(k)[i] < |plan.headers|
    ensures var at := plan.TableStart(k) + 8 * i;
            at + 8 <= |file| && FromLe(file[at..at + 8]) == plan.base + 76 * plan.TableIds(k)[i]
  {
    hide At, FromLe, Le, Concat, Sorted, Pool.PoolBytes, Plan.HeaderParts, Plan.RecordParts, Plan.TableStart, EncodeHeader;
    TableIdsBelow(plan, k);
    TableEntryAt(plan, file, k, i);
    var id := plan.TableIds(k)[i];
    BlobStartSmall(plan, id);
    Le8(plan.BlobStart(id));
    var at := plan.TableStart(k) + 8 * i;
    FieldAt(file, at, Le(plan.BlobStart(id), 8), 0, 8);
    assert Le(plan.BlobStart(id), 8)[0..8] == Le(plan.BlobStart(id), 8);
  }

  lemma BlobStartSmall(plan: Plan, id: nat)
    requires plan.Valid() && plan.End() < TWO_63 && id < |plan.headers|
    ensures plan.BlobStart(id) < TWO_63
  {
    hide Concat, Pool.PoolBytes, Plan.Tables;
  }

  /** The table of a record has its blobs, in the order of their names. */
  lemma TableByName(plan: Plan, bs: seq<BlobSpec>, k: nat, i: nat, j: nat)
    requires plan.Valid() && k < |plan.records| && plan.names == W.SpecNames(bs)
    requires i < j < |plan.TableIds(k)|
    ensures multiset(plan.TableIds(k)) == multiset(plan.records[k].blobs)
    ensures plan.TableIds(k)[i] < |bs| && plan.TableIds(k)[j] < |bs|
    ensures Compare(bs[plan.TableIds(k)[i]].name, bs[plan.TableIds(k)[j]].name) <= 0
  {
    hide Sorted, Compare;
    var key := ByBlobName(plan.names);
    var ids := plan.TableIds(k);
    TableIdsBelow(plan, k);
    SortedPermutes(plan.records[k].blobs, key);
    SortedAscending(plan.records[k].blobs, key);
    assert Compare(key(ids[i]), key(ids[j])) <= 0;
  }

  // ---------- Blobs ----------

  /** The header of a blob, of which odd flags mean that it is stored deflated: flags, where its name
      and its content type are in the string constants, the checksum and size of the stored
      bytes, the size of its contents, and where the stored bytes are. */
  lemma BlobBytes(c: Codec, bs: seq<BlobSpec>, plan: Plan, file: seq<Byte>, id: nat)
    requires Finished(c, bs, plan, file) && id < |bs|
    ensures var (at, b) := (plan.base + 76 * id, bs[id]);
            var data := if b.flags % 2 == 1 then c.deflate(b.contents) else b.contents;
            && at + 76 <= |file|
            && FromLe(file[at..at + 2]) == b.flags % 65536
            && StoredAt(file, FromLe(file[28..36]) + FromLe(file[at + 4..at + 12]), b.name + [0])
            && StoredAt(file, FromLe(file[28..36]) + FromLe(file[at + 12..at + 20]), b.contentType + [0])
            && file[at + 20..at + 52] == c.sha256(data)
            && FromLe(file[at + 52..at + 60]) == |data| && FromLe(file[at + 60..at + 68]) == |b.contents|
            && (CollisionFree(Payloads(c, bs)) && data != [] ==> StoredAt(file, FromLe(file[at + 68..at + 76]), data))
  {
    hide *;
    FinishedPlan(c, bs, plan, file);
    var (at, s) := (plan.base + 76 * id, EncodeBlob(plan.headers[id]));
    BlobHeaderAt(plan, file, id);
    BlobStartIs(plan, id);
    BlobPlaces(plan.headers[id]);
    StoredHeader(c, bs, plan, file, id);
    HeaderBytes(plan, file);
    FieldAt(file, at, s, 0, 2);
    FieldAt(file, at, s, 4, 12);
    FieldAt(file, at, s, 12, 20);
    FieldAt(file, at, s, 20, 52);
    FieldAt(file, at, s, 52, 60);
    FieldAt(file, at, s, 60, 68);
    FieldAt(file, at, s, 68, 76);
  }

  /** These bytes, at this place. */
  ghost predicate StoredAt(file: seq<Byte>, at: nat, data: seq<Byte>) {
    at + |data| <= |file| && file[at..at + |data|] == data
  }

  lemma BlobStartIs(plan: Plan, id: nat)
    ensures plan.BlobStart(id) == plan.base + 76 * id
  {
  }

  lemma FinishedPlan(c: Codec, bs: seq<BlobSpec>, plan: Plan, file: seq<Byte>)
    requires Finished(c, bs, plan, file)
    ensures plan.Valid() && plan.In(file) && plan.End() < TWO_63 && |plan.headers| == |bs|
    ensures Has(file, plan.base, Concat(plan.HeaderParts()))
  {
    hide Concat, EncodeHeader, Plan.HeaderParts, Plan.Tables, Plan.RecordParts, DataInPlace, Payloads;
  }

  /** What the header holds. */
  lemma StoredHeader(c: Codec, bs: seq<BlobSpec>, plan: Plan, file: seq<Byte>, id: nat)
    requires Finished(c, bs, plan, file) && id < |bs|
    ensures |EncodeBlob(plan.headers[id])| == 76
    ensures var (h, b) := (plan.headers[id], bs[id]);
            var data := if b.flags % 2 == 1 then c.deflate(b.contents) else b.contents;
            && h.flags == b.flags && h.csum == c.sha256(data)
            && h.size % TWO_64 == |data| && h.uncompressedSize % TWO_64 == |b.contents|
            && StoredAt(file, plan.PoolStart() + h.nameOffs % TWO_64, b.name + [0])
            && StoredAt(file, plan.PoolStart() + h.contentTypeOffs % TWO_64, b.contentType + [0])
            && (CollisionFree(Payloads(c, bs)) && data != [] ==> StoredAt(file, h.dataStart % TWO_64, data))
  {
    hide *;
    FinishedPlan(c, bs, plan, file);
    HeaderSmall(c, bs, plan, file, id);
    NarrowParts(plan.headers[id], bs[id].flags);
    StoredParts(c, bs, plan.strings, id);
    W.PackedIs(c, bs[id]);
    PoolInFile(c, bs, plan, file, id);
    Pool.StringStored(file, plan.PoolStart(), plan.strings, bs[id].name);
    Pool.StringStored(file, plan.PoolStart(), plan.strings, bs[id].contentType);
    StoredIs(file, plan.PoolStart() + Pool.PoolOffset(plan.strings, bs[id].name), bs[id].name);
    StoredIs(file, plan.PoolStart() + Pool.PoolOffset(plan.strings, bs[id].contentType), bs[id].contentType);
    if CollisionFree(Payloads(c, bs)) && Packed(c, bs[id]) != [] {
      PackedBytesStored(c, bs, file, id);
      AtIs(file, DataStart(Payloads(c, bs), id), Packed(c, bs[id]));
    }
    Sizes(plan.headers[id]);
  }

  lemma Sizes(b: SBlob)
    ensures |EncodeBlob(b)| == 76
  {
  }

  lemma NarrowParts(h: SBlob, flags: nat)
    requires Narrow(h) == h.(flags := flags % 65536)
    ensures h.nameOffs % TWO_64 == h.nameOffs && h.contentTypeOffs % TWO_64 == h.contentTypeOffs
    ensures h.size % TWO_64 == h.size && h.uncompressedSize % TWO_64 == h.uncompressedSize
    ensures h.dataStart % TWO_64 == h.dataStart
  {
  }

  lemma StoredParts(c: Codec, bs: seq<BlobSpec>, strings: seq<CString>, i: nat)
    requires i < |bs|
    ensures var (h, b) := (StoredBlob(c, bs, strings, i), bs[i]);
            && h.flags == b.flags && h.nameOffs == Pool.PoolOffset(strings, b.name)
            && h.contentTypeOffs == Pool.PoolOffset(strings, b.contentType)
            && h.csum == c.sha256(Packed(c, b)) && h.size == |Packed(c, b)| && h.uncompressedSize == |b.contents|
            && h.dataStart == DataStart(Payloads(c, bs), i)
  {
    hide Packed, DataStart, Payloads, Pool.PoolOffset;
  }

  lemma PoolInFile(c: Codec, bs: seq<BlobSpec>, plan: Plan, file: seq<Byte>, id: nat)
    requires Finished(c, bs, plan, file) && id < |bs|
    ensures bs[id].name in plan.strings && bs[id].contentType in plan.strings
    ensures At(file, plan.PoolStart(), Pool.PoolBytes(plan.strings)) && DataInPlace(file, Payloads(c, bs))
  {
    hide At, DataInPlace, Concat, EncodeHeader, Plan.HeaderParts, Plan.Tables, Plan.RecordParts, Plan.PoolStart, Payloads;
    PoolNotEmpty(plan.strings, bs[id].name);
  }

  lemma PoolNotEmpty(strings: seq<CString>, s: CString)
    requires s in strings
    ensures Pool.PoolBytes(strings) != []
  {
    Pool.OffsetInside(strings, s);
  }

  lemma StoredIs(file: seq<Byte>, at: nat, s: CString)
    requires At(file, at, Terminated(s))
    ensures StoredAt(file, at, s + [0])
  {
  }

  lemma AtIs(file: seq<Byte>, at: nat, data: seq<Byte>)
    requires At(file, at, data)
    ensures StoredAt(file, at, data)
  {
  }

  // ---------- Following the numbers ----------

  /** From the bytes of the file alone: the number at 20 leads to the records, the one at 28 of a
      record to its table, an entry of the table to the header of a blob, and the number at 4 of
      that, behind the number at 28 of the file, to the blob's name. */
  lemma NamesInFile(c: Codec, bs: seq<BlobSpec>, plan: Plan, file: seq<Byte>, k: nat, i: nat, r: nat, t: nat, h: nat)
    requires Finished(c, bs, plan, file) && k < |plan.records| && i < |plan.records[k].blobs|
    requires |file| >= 36 && r == FromLe(file[20..28]) + 36 * k
    requires r + 36 <= |file| ==> t == FromLe(file[r + 28..r + 36]) + 8 * i
    requires t + 8 <= |file| ==> h == FromLe(file[t..t + 8])
    ensures r + 36 <= |file| && file[r..r + 20] == plan.records[k].rawName
    ensures t + 8 <= |file| && h + 76 <= |file|
    ensures i < |plan.TableIds(k)| && plan.TableIds(k)[i] < |bs|
    ensures StoredAt(file, FromLe(file[28..36]) + FromLe(file[h + 4..h + 12]), bs[plan.TableIds(k)[i]].name + [0])
  {
    hide *;
    FinishedPlan(c, bs, plan, file);
    HeaderBytes(plan, file);
    RecordBytes(plan, file, k);
    TableBytes(plan, file, k, i);
    BlobBytes(c, bs, plan, file, plan.TableIds(k)[i]);
  }
}
