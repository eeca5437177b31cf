/** The layout of a finished V2 shard: header, blob data, blob headers, blob tables, records and
    string pool follow each other. */
module ShardLayout {
  import opened Bytes
  import opened CStrings
  import opened HexName
  import opened BlobLayout
  import opened BlobStore
  import opened ShardFormat
  import opened Sorting
  import Pool = ConstantPool

  /** A record as the writer keeps it: `blobs` holds indices of blobs. */
  datatype RecordEntry = RecordEntry(rawName: seq<Byte>, blobs: seq<nat>, blobTableStart: nat)

  function ByRawName(): RecordEntry -> seq<Byte> {
    (r: RecordEntry) => r.rawName
  }

  function ByBlobName(names: seq<CString>): nat -> seq<Byte> {
    (id: nat) => if id < |names| then names[id] else []
  }

  /** What is laid out: `base` is the write offset when the data is in, `records` are sorted. */
  datatype Plan = Plan(base: nat, names: seq<CString>, headers: seq<SBlob>, records: seq<RecordEntry>, strings: seq<CString>) {

    predicate Valid() {
      && base >= HEADER_SIZE && |names| == |headers|
      && (forall k | 0 <= k < |records| :: |records[k].rawName| == RAW_NAME_SIZE)
      && (forall k, i | 0 <= k < |records| && 0 <= i < |records[k].blobs| :: records[k].blobs[i] < |headers|)
    }

    function BlobStart(i: nat): nat {
      base + BLOB_BYTES * i
    }

    function HeaderParts(): (ps: seq<seq<Byte>>)
      requires Valid()
      ensures |ps| == |headers|
    {
      seq(|headers|, i requires 0 <= i < |headers| => EncodeBlob(headers[i]))
    }

    function TablesStart(): nat {
      base + BLOB_BYTES * |headers|
    }

    /** The blobs of record `k`, sorted by name. */
    function TableIds(k: nat): (ids: seq<nat>)
      requires k < |records|
    {
      Sorted(records[k].blobs, ByBlobName(names))
    }

    function TableParts(k: nat): (ps: seq<seq<Byte>>)
      requires k < |records|
      ensures |ps| == |TableIds(k)|
    {
      var ids := TableIds(k);
      seq(|ids|, i requires 0 <= i < |ids| => Le(BlobStart(ids[i]), 8))
    }

    function Tables(): (ts: seq<seq<Byte>>)
      ensures |ts| == |records|
    {
      seq(|records|, k requires 0 <= k < |records| => Concat(TableParts(k)))
    }

    function TableStart(k: nat): nat
      requires k <= |records|
    {
      TablesStart() + |Concat(Tables()[..k])|
    }

    function RecordsStart(): nat {
      Align(TablesStart() + |Concat(Tables())|)
    }

    function RecordAt(k: nat): SRecord
      requires k < |records|
    {
      SRecord(records[k].rawName, 0, |records[k].blobs|, TableStart(k))
    }

    function RecordParts(): (ps: seq<seq<Byte>>)
      requires Valid()
      ensures |ps| == |records|
    {
      seq(|records|, k requires 0 <= k < |records| => EncodeRecord(RecordAt(k)))
    }

    function PoolStart(): nat {
      Align(RecordsStart() + RECORD_BYTES * |records|)
    }

    function End(): nat {
      PoolStart() + |Pool.PoolBytes(strings)|
    }

    function FileHeader(): Header {
      Header(|records|, RecordsStart(), PoolStart())
    }

    /** The file after everything has been written, in the order in which it is written. */
    function Written(file: seq<Byte>): seq<Byte>
      requires Valid()
    {
      var withHeaders := Patched(file, Concat(HeaderParts()), base);
      var withTables := Patched(withHeaders, Concat(Tables()), TablesStart());
      var withRecords := Patched(withTables, Concat(RecordParts()), RecordsStart());
      var withPool := Patched(withRecords, Pool.PoolBytes(strings), PoolStart());
      Patched(withPool, EncodeHeader(FileHeader()), 0)
    }

    /** Everything is where it should be. */
    ghost predicate In(file: seq<Byte>)
      requires Valid()
    {
      && At(file, 0, EncodeHeader(FileHeader()))
      && Has(file, base, Concat(HeaderParts()))
      && Has(file, TablesStart(), Concat(Tables()))
      && Has(file, RecordsStart(), Concat(RecordParts()))
      && Has(file, PoolStart(), Pool.PoolBytes(strings))
    }

    lemma Sizes()
      requires Valid()
      ensures |Concat(HeaderParts())| == BLOB_BYTES * |headers|
      ensures |Concat(RecordParts())| == RECORD_BYTES * |records|
    {
      ConcatSize(HeaderParts(), BLOB_BYTES);
      ConcatSize(RecordParts(), RECORD_BYTES);
    }

    /** The regions do not overlap; records and string pool are aligned. */
    lemma Regions()
      requires Valid()
      ensures |EncodeHeader(FileHeader())| <= base
      ensures base + |Concat(HeaderParts())| == TablesStart()
      ensures TablesStart() + |Concat(Tables())| <= RecordsStart()
      ensures RecordsStart() + |Concat(RecordParts())| <= PoolStart()
      ensures RecordsStart() % 32 == 0 && PoolStart() % 32 == 0
    {
      Sizes();
    }

    /** Every table lies in the region of the tables, behind the tables before it. */
    lemma TablesDisjoint(j: nat, k: nat)
      requires j < k < |records|
      ensures TablesStart() <= TableStart(j) && TableStart(j) + TABLE_ENTRY_BYTES * |records[j].blobs| <= TableStart(k)
      ensures TableStart(k) + TABLE_ENTRY_BYTES * |records[k].blobs| <= TablesStart() + |Concat(Tables())|
    {
      TableSize(j);
      TableInside(k);
      ConcatPrefix(Tables()[..k], j);
      assert Tables()[..k][..j] == Tables()[..j];
    }

    lemma TableInside(k: nat)
      requires k < |records|
      ensures TableStart(k) + TABLE_ENTRY_BYTES * |records[k].blobs| <= TablesStart() + |Concat(Tables())|
    {
      TableSize(k);
      ConcatPrefix(Tables(), k);
    }

    lemma TableSize(k: nat)
      requires k < |records|
      ensures |Tables()[k]| == TABLE_ENTRY_BYTES * |records[k].blobs|
    {
      ConcatSize(TableParts(k), TABLE_ENTRY_BYTES);
      SortedLength(records[k].blobs, ByBlobName(names));
    }

    /** Finishing leaves everything in its place, whatever the file held. */
    lemma WrittenIn(file: seq<Byte>)
      requires Valid()
      ensures In(Written(file))
    {
      hide Patched, At, Has, EncodeHeader, Pool.PoolBytes, Concat, HeaderParts, Tables, RecordParts, Align;
      Regions();
      FiveWrites(file, Concat(HeaderParts()), base, Concat(Tables()), TablesStart(), Concat(RecordParts()), RecordsStart(),
                 Pool.PoolBytes(strings), PoolStart(), EncodeHeader(FileHeader()));
    }

    /** And what lies between the file header and the base stays. */
    lemma WrittenKeeps(file: seq<Byte>, a: nat, x: seq<Byte>)
      requires Valid() && Has(file, a, x) && HEADER_SIZE <= a && a + |x| <= base
      ensures Has(Written(file), a, x)
    {
      hide Patched, At, Has, EncodeHeader, Pool.PoolBytes, Concat, HeaderParts, Tables, RecordParts, Align;
      Regions();
      var f1 := Patched(file, Concat(HeaderParts()), base);
      HasFrame(file, Concat(HeaderParts()), base, a, x);
      var f2 := Patched(f1, Concat(Tables()), TablesStart());
      HasFrame(f1, Concat(Tables()), TablesStart(), a, x);
      var f3 := Patched(f2, Concat(RecordParts()), RecordsStart());
      HasFrame(f2, Concat(RecordParts()), RecordsStart(), a, x);
      var f4 := Patched(f3, Pool.PoolBytes(strings), PoolStart());
      HasFrame(f3, Pool.PoolBytes(strings), PoolStart(), a, x);
      HasFrame(f4, EncodeHeader(FileHeader()), 0, a, x);
    }
  }

  lemma FiveWrites(file: seq<Byte>, hs: seq<Byte>, b0: nat, ts: seq<Byte>, b1: nat, rs: seq<Byte>, b2: nat,
                   ps: seq<Byte>, b3: nat, fh: seq<Byte>)
    requires |fh| <= b0 && fh != [] && b0 + |hs| <= b1 && b1 + |ts| <= b2 && b2 + |rs| <= b3
    ensures var f := Patched(Patched(Patched(Patched(Patched(file, hs, b0), ts, b1), rs, b2), ps, b3), fh, 0);
            At(f, 0, fh) && Has(f, b0, hs) && Has(f, b1, ts) && Has(f, b2, rs) && Has(f, b3, ps)
  {
    hide Patched, At, Has;
    var f1 := Patched(file, hs, b0);
    var f2 := Patched(f1, ts, b1);
    var f3 := Patched(f2, rs, b2);
    var f4 := Patched(f3, ps, b3);
    HasPatched(file, hs, b0);
    HasPatched(f1, ts, b1);
    HasPatched(f2, rs, b2);
    HasPatched(f3, ps, b3);
    PatchedAt(f4, fh, 0);
    HasFrame(f1, ts, b1, b0, hs);
    HasFrame(f2, rs, b2, b0, hs);
    HasFrame(f3, ps, b3, b0, hs);
    HasFrame(f4, fh, 0, b0, hs);
    HasFrame(f2, rs, b2, b1, ts);
    HasFrame(f3, ps, b3, b1, ts);
    HasFrame(f4, fh, 0, b1, ts);
    HasFrame(f3, ps, b3, b2, rs);
    HasFrame(f4, fh, 0, b2, rs);
    HasFrame(f4, fh, 0, b3, ps);
  }
}
