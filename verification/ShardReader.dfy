/** The V2 reader: the record table is read once, everything else when it is asked for. */
module ShardReader {
  import opened Bytes
  import opened CStrings
  import opened HexName
  import opened BlobLayout
  import opened BlobStore
  import opened ShardFormat

  datatype Option<T> = None | Some(value: T)

  /** A blob as it is handed to the caller. */
  datatype Blob = Blob(flags: nat, contentType: CString, checksum: Digest, size: nat, uncompressedSize: nat, offs: nat)

  datatype Record = Record(rawName: seq<Byte>, metadata: Option<Blob>, data: Option<Blob>, private: SRecord)

  const RECORD_FLAG_TOMBSTONE: nat := 1

  const METADATA_NAME: CString := [36, 109, 101, 116, 97, 100, 97, 116, 97]  // "$metadata"
  const DATA_NAME: CString := [36, 100, 97, 116, 97]  // "$data"

  /** A read that must deliver all it asks for. */
  function ReadExactly(file: seq<Byte>, n: nat, off: nat): (r: Option<seq<Byte>>)
    ensures r.Some? ==> |r.value| == n
  {
    if |Slice(file, n, off)| == n then Some(Slice(file, n, off)) else None
  }

  /** A zeroed buffer of `bufSize` bytes after a read of one less; the read only has to deliver something. */
  function StringConstant(file: seq<Byte>, hdr: Header, bufSize: nat, offs: nat): (r: Option<seq<Byte>>)
    requires bufSize > 0
    ensures r.Some? ==> |r.value| == bufSize
  {
    var got := Slice(file, bufSize - 1, (hdr.stringTableStart + offs) % TWO_64);
    if |got| > 0 then Some(got + Zeros(bufSize - |got|)) else None
  }

  /** The blob header that entry `i` of a record's table points to. */
  function TableBlob(file: seq<Byte>, srecord: SRecord, i: nat): Option<SBlob> {
    var entry := ReadExactly(file, TABLE_ENTRY_BYTES, (srecord.blobTableStart + i * TABLE_ENTRY_BYTES) % TWO_64);
    if entry.None? then None else
      var blob := ReadExactly(file, BLOB_BYTES, FromLe(entry.value));
      if blob.None? then None else Some(DecodeBlob(blob.value))
  }

  predicate IsNamed(file: seq<Byte>, hdr: Header, sblob: SBlob, name: CString) {
    var entryName := StringConstant(file, hdr, MAX_NAME_SIZE + 1, sblob.nameOffs);
    entryName.Some? && StrNCmp(entryName.value, FirstBytes(name, MAX_NAME_SIZE + 1)) == 0
  }

  /** The first blob of that name at or after entry `i`; entries that cannot be read are skipped. */
  function FirstNamed(file: seq<Byte>, hdr: Header, srecord: SRecord, name: CString, i: nat): Option<SBlob>
    decreases srecord.blobTableLength - i
  {
    if i >= srecord.blobTableLength then None else
      var sblob := TableBlob(file, srecord, i);
      if sblob.Some? && IsNamed(file, hdr, sblob.value, name) then sblob
      else FirstNamed(file, hdr, srecord, name, i + 1)
  }

  /** The blob handed out for a header; there is none for a blob without contents. */
  function BlobNew(file: seq<Byte>, hdr: Header, sblob: SBlob): Option<Blob> {
    if sblob.uncompressedSize == 0 then None else
      var contentType := StringConstant(file, hdr, MAX_CONTENT_TYPE_SIZE, sblob.contentTypeOffs);
      if contentType.None? then None
      else Some(Blob(sblob.flags, CStringOf(contentType.value), sblob.csum, sblob.size, sblob.uncompressedSize, sblob.dataStart))
  }

  function ReadBlob(file: seq<Byte>, hdr: Header, srecord: SRecord, name: CString): Option<Blob> {
    var sblob := FirstNamed(file, hdr, srecord, name, 0);
    if sblob.None? then None else BlobNew(file, hdr, sblob.value)
  }

  predicate IsTombstone(srecord: SRecord) {
    srecord.flags % 2 == RECORD_FLAG_TOMBSTONE
  }

  function RecordOf(file: seq<Byte>, hdr: Header, srecord: SRecord): Record {
    Record(srecord.rawName, ReadBlob(file, hdr, srecord, METADATA_NAME), ReadBlob(file, hdr, srecord, DATA_NAME), srecord)
  }

  /** The records that have not been deleted, in the order of the table. */
  function Live(file: seq<Byte>, hdr: Header, rs: seq<SRecord>): seq<Record> {
    if rs == [] then [] else
      (if IsTombstone(rs[0]) then [] else [RecordOf(file, hdr, rs[0])]) + Live(file, hdr, rs[1..])
  }

  ghost predicate SortedTable(rs: seq<SRecord>) {
    forall i, j | 0 <= i < j < |rs| :: Compare(rs[i].rawName, rs[j].rawName) <= 0
  }

  ghost predicate DistinctNames(rs: seq<SRecord>) {
    forall i, j | 0 <= i < j < |rs| :: rs[i].rawName != rs[j].rawName
  }

  ghost predicate HasName(rs: seq<SRecord>, rawName: seq<Byte>) {
    exists k :: 0 <= k < |rs| && rs[k].rawName == rawName
  }

  ghost predicate IsDeleted(rs: seq<SRecord>, rawName: seq<Byte>) {
    exists k :: 0 <= k < |rs| && rs[k].rawName == rawName && IsTombstone(rs[k])
  }

  /** The record handed out is that of a table entry with the name. */
  ghost predicate IsRecordOf(file: seq<Byte>, hdr: Header, rs: seq<SRecord>, rawName: seq<Byte>, x: Record) {
    exists k :: 0 <= k < |rs| && rs[k].rawName == rawName && x == RecordOf(file, hdr, rs[k])
  }

  /** Reading back the table. */
  function ParseRecords(buf: seq<Byte>, n: nat): (rs: seq<SRecord>)
    requires |buf| == RECORD_BYTES * n
    ensures |rs| == n && forall k | 0 <= k < n :: |rs[k].rawName| == RAW_NAME_SIZE
  {
    seq(n, k requires 0 <= k < n => DecodeRecord(buf[RECORD_BYTES * k..RECORD_BYTES * k + RECORD_BYTES]))
  }

  /** What opening finds: a header with the magic bytes, and a complete record table. */
  predicate Readable(file: seq<Byte>) {
    && |file| >= HEADER_SIZE && file[..8] == MAGIC
    && var hdr := DecodeHeader(file[..HEADER_SIZE]);
       |Slice(file, RECORD_BYTES * hdr.recordsLength, hdr.recordsStart)| == RECORD_BYTES * hdr.recordsLength
  }

  class ShardFileV2 {
    const fd: File
    const hdr: Header
    const records: seq<SRecord>

    constructor (fd: File, hdr: Header, records: seq<SRecord>)
      ensures this.fd == fd && this.hdr == hdr && this.records == records
    {
      this.fd, this.hdr, this.records := fd, hdr, records;
    }

    /** The linear search through a record's blob table. */
    method FindBlob(srecord: SRecord, name: CString) returns (blob: Option<SBlob>)
      ensures blob == FirstNamed(fd.bytes, hdr, srecord, name, 0)
    {
      hide IsNamed, FromLe, DecodeBlob;
      var i := 0;
      while i < srecord.blobTableLength
        invariant FirstNamed(fd.bytes, hdr, srecord, name, 0) == FirstNamed(fd.bytes, hdr, srecord, name, i)
      {
        var at := i;
        i := i + 1;
        var entry := fd.Pread(TABLE_ENTRY_BYTES, (srecord.blobTableStart + at * TABLE_ENTRY_BYTES) % TWO_64);
        if |entry| != TABLE_ENTRY_BYTES {
          continue;
        }
        var bytes := fd.Pread(BLOB_BYTES, FromLe(entry));
        if |bytes| != BLOB_BYTES {
          continue;
        }
        var sblob := DecodeBlob(bytes);
        if IsNamed(fd.bytes, hdr, sblob, name) {
          return Some(sblob);
        }
      }
      return None;
    }

    method ReadBlobOf(srecord: SRecord, name: CString) returns (blob: Option<Blob>)
      ensures blob == ReadBlob(fd.bytes, hdr, srecord, name)
    {
      var sblob := FindBlob(srecord, name);
      blob := if sblob.None? then None else BlobNew(fd.bytes, hdr, sblob.value);
    }

    method RecordNew(srecord: SRecord) returns (record: Option<Record>)
      ensures record == if IsTombstone(srecord) then None else Some(RecordOf(fd.bytes, hdr, srecord))
    {
      if IsTombstone(srecord) {
        return None;
      }
      var metadata := ReadBlobOf(srecord, METADATA_NAME);
      var data := ReadBlobOf(srecord, DATA_NAME);
      return Some(Record(srecord.rawName, metadata, data, srecord));
    }

    /** The bisection over the record table. */
    method Bsearch(rawName: seq<Byte>) returns (k: nat)
      ensures k <= |records|
      ensures k < |records| ==> records[k].rawName == rawName
      ensures SortedTable(records) && k == |records| ==> forall j | 0 <= j < |records| :: records[j].rawName != rawName
    {
      hide Compare;
      var lo, hi := 0, |records|;
      while lo < hi
        invariant lo <= hi <= |records|
        invariant SortedTable(records) ==> forall j | 0 <= j < lo :: Compare(rawName, records[j].rawName) > 0
        invariant SortedTable(records) ==> forall j | hi <= j < |records| :: Compare(rawName, records[j].rawName) < 0
      {
        var mid := (lo + hi) / 2;
        var c := Compare(rawName, records[mid].rawName);
        CompareEq(rawName, records[mid].rawName);
        if c < 0 {
          BelowRest(records, rawName, mid);
          hi := mid;
        } else if c > 0 {
          AboveRest(records, rawName, mid);
          lo := mid + 1;
        } else {
          return mid;
        }
      }
      CompareEq(rawName, rawName);
      return |records|;
    }

    method FindRecordByRawName(rawName: seq<Byte>) returns (record: Option<Record>)
      ensures record.Some? ==> record.value.rawName == rawName && record.value in Live(fd.bytes, hdr, records)
      ensures record.Some? ==> IsRecordOf(fd.bytes, hdr, records, rawName, record.value)
      ensures SortedTable(records) && record.None? && HasName(records, rawName) ==> IsDeleted(records, rawName)
      ensures SortedTable(records) && DistinctNames(records) ==>
                (record.Some? <==> exists x :: x in Live(fd.bytes, hdr, records) && x.rawName == rawName)
    {
      hide Live, RecordOf;
      var k := Bsearch(rawName);
      LiveMembers(fd.bytes, hdr, records);
      if k == |records| {
        return None;
      }
      if IsTombstone(records[k]) {
        return None;
      }
      record := RecordNew(records[k]);
      RecordOfName(fd.bytes, hdr, records[k]);
    }

    /** Finds nothing for a name that is not hexadecimal. */
    method FindRecordByHexName(hexName: CString) returns (record: Option<Record>)
      ensures !IsHexName(hexName) ==> record.None?
      ensures var rawName := Decoded(hexName, Zeros(RAW_NAME_SIZE));
              && (record.Some? ==> IsRecordOf(fd.bytes, hdr, records, rawName, record.value))
              && (SortedTable(records) && IsHexName(hexName) && record.None? && HasName(records, rawName) ==>
                    IsDeleted(records, rawName))
    {
      hide RecordOf, IsTombstone, Live, SortedTable, DistinctNames, IsRecordOf, HasName, IsDeleted;
      var rawName := new Byte[RAW_NAME_SIZE];
      ghost var before := rawName[..];
      var ok := HexNameToRawName(rawName, hexName);
      if !ok {
        return None;
      }
      BufferIrrelevant(hexName, before, Zeros(RAW_NAME_SIZE));
      record := FindRecordByRawName(rawName[..]);
    }

    method ListRecords() returns (l: seq<Record>)
      ensures l == Live(fd.bytes, hdr, records)
    {
      hide RecordOf, IsTombstone;
      l := [];
      var i := |records|;
      while i > 0
        invariant 0 <= i <= |records| && l == Live(fd.bytes, hdr, records[i..])
      {
        i := i - 1;
        assert records[i..][1..] == records[i + 1..];
        if IsTombstone(records[i]) {
          continue;
        }
        var record := RecordNew(records[i]);
        l := [record.value] + l;
      }
    }

    /** The records the callback is called with, one after the other. */
    method RecordsForeach() returns (calls: seq<Record>)
      ensures calls == Live(fd.bytes, hdr, records)
    {
      hide RecordOf, IsTombstone;
      calls := [];
      for i := 0 to |records|
        invariant calls + Live(fd.bytes, hdr, records[i..]) == Live(fd.bytes, hdr, records)
      {
        assert records[i..][1..] == records[i + 1..];
        if IsTombstone(records[i]) {
          continue;
        }
        var record := RecordNew(records[i]);
        calls := calls + [record.value];
      }
    }

    method LookupBlob(record: Record, name: CString) returns (blob: Option<Blob>)
      ensures blob == if name != [] && name[0] == 36 then None else ReadBlob(fd.bytes, hdr, record.private, name)
    {
      if name != [] && name[0] == 36 {
        return None;
      }
      blob := ReadBlobOf(record.private, name);
    }

    /** All blobs of a record that can be read, last first; None stands for one without contents. */
    method ListBlobs(record: Record) returns (l: seq<Option<Blob>>)
      ensures l == Listed(fd.bytes, hdr, record.private, record.private.blobTableLength)
    {
      hide FromLe, DecodeBlob, BlobNew, Listed, Slice;
      var srecord := record.private;
      l := [];
      ListedNone(fd.bytes, hdr, srecord);
      for i := 0 to srecord.blobTableLength
        invariant l == Listed(fd.bytes, hdr, srecord, i)
      {
        ListedMore(fd.bytes, hdr, srecord, i);
        var entry := fd.Pread(TABLE_ENTRY_BYTES, (srecord.blobTableStart + i * TABLE_ENTRY_BYTES) % TWO_64);
        if |entry| != TABLE_ENTRY_BYTES {
          continue;
        }
        var bytes := fd.Pread(BLOB_BYTES, FromLe(entry));
        if |bytes| != BLOB_BYTES {
          continue;
        }
        l := [BlobNew(fd.bytes, hdr, DecodeBlob(bytes))] + l;
      }
    }
  }

  /** The first `n` entries of a record's table as blobs, last first. */
  function Listed(file: seq<Byte>, hdr: Header, srecord: SRecord, n: nat): seq<Option<Blob>> {
    if n == 0 then [] else
      var sblob := TableBlob(file, srecord, n - 1);
      (if sblob.Some? then [BlobNew(file, hdr, sblob.value)] else []) + Listed(file, hdr, srecord, n - 1)
  }

  lemma ListedNone(file: seq<Byte>, hdr: Header, srecord: SRecord)
    ensures Listed(file, hdr, srecord, 0) == []
  {
  }

  lemma ListedMore(file: seq<Byte>, hdr: Header, srecord: SRecord, i: nat)
    ensures var entry := Slice(file, TABLE_ENTRY_BYTES, (srecord.blobTableStart + i * TABLE_ENTRY_BYTES) % TWO_64);
            var bytes := Slice(file, BLOB_BYTES, FromLe(entry));
            Listed(file, hdr, srecord, i + 1)
            == (if |entry| == TABLE_ENTRY_BYTES && |bytes| == BLOB_BYTES then [BlobNew(file, hdr, DecodeBlob(bytes))] else [])
               + Listed(file, hdr, srecord, i)
  {
    hide FromLe, DecodeBlob, BlobNew, Slice;
  }

  /** A record as it is in the file. */
  ghost predicate IsRecordAt(file: seq<Byte>, at: nat, r: SRecord) {
    && at + 36 <= |file| && r.rawName == file[at..at + 20]
    && r.flags == FromLe(file[at + 20..at + 24]) && r.blobTableLength == file[at + 24]
    && r.blobTableStart == FromLe(file[at + 28..at + 36])
  }

  /** What opening looks for, by the numbers. */
  lemma ReadableMeaning(file: seq<Byte>)
    ensures Readable(file) <==>
              && |file| >= 36 && file[..8] == [83, 104, 97, 114, 100, 86, 50, 32]
              && var (n, start) := (FromLe(file[12..20]), FromLe(file[20..28]));
                 n == 0 || start + 36 * n <= |file|
    ensures |file| >= 36 ==>
              DecodeHeader(file[..36]) == Header(FromLe(file[12..20]), FromLe(file[20..28]), FromLe(file[28..36]))
    ensures Readable(file) ==>
              var hdr := DecodeHeader(file[..36]);
              var table := Slice(file, 36 * hdr.recordsLength, hdr.recordsStart);
              && |table| == 36 * hdr.recordsLength
              && forall k | 0 <= k < hdr.recordsLength ::
                   IsRecordAt(file, hdr.recordsStart + 36 * k, ParseRecords(table, hdr.recordsLength)[k])
  {
    hide FromLe, ParseRecords, IsRecordAt;
    if |file| >= 36 {
      var h := file[..36];
      assert h[12..20] == file[12..20] && h[20..28] == file[20..28] && h[28..36] == file[28..36];
      if Readable(file) {
        var hdr := DecodeHeader(h);
        forall k | 0 <= k < hdr.recordsLength
          ensures |Slice(file, 36 * hdr.recordsLength, hdr.recordsStart)| == 36 * hdr.recordsLength
          ensures IsRecordAt(file, hdr.recordsStart + 36 * k,
                             ParseRecords(Slice(file, 36 * hdr.recordsLength, hdr.recordsStart), hdr.recordsLength)[k])
        {
          RecordParsed(file, hdr.recordsLength, hdr.recordsStart, k);
        }
      }
    }
  }

  lemma RecordParsed(file: seq<Byte>, n: nat, start: nat, k: nat)
    requires k < n && start + 36 * n <= |file|
    ensures |Slice(file, 36 * n, start)| == 36 * n
    ensures IsRecordAt(file, start + 36 * k, ParseRecords(Slice(file, 36 * n, start), n)[k])
  {
    hide FromLe;
    var (table, at) := (Slice(file, 36 * n, start), start + 36 * k);
    SlicePart(file, start, 36 * n, 36 * k, 36);
    var s := table[36 * k..36 * k + 36];
    assert s == file[at..at + 36];
    PieceOf(file, at, 36, 0, 20);
    PieceOf(file, at, 36, 20, 24);
    PieceOf(file, at, 36, 24, 25);
    PieceOf(file, at, 36, 28, 36);
    assert file[at + 24..at + 25] == [file[at + 24]];
    OneByte(file[at + 24]);
  }

  lemma PieceOf(file: seq<Byte>, at: nat, n: nat, i: nat, j: nat)
    requires i <= j <= n && at + n <= |file|
    ensures file[at..at + n][i..j] == file[at + i..at + j]
  {
    var (l, r) := (file[at..at + n][i..j], file[at + i..at + j]);
    assert |l| == |r|;
    assert forall k | 0 <= k < |l| :: l[k] == r[k];
  }

  lemma OneByte(b: Byte)
    ensures FromLe([b]) == b
  {
    assert [b][1..] == [];
  }

  /** Opens a V2 shard: null if the header or the record table is not there. */
  method NewForFd(fd: File) returns (shard: ShardFileV2?)
    ensures (shard != null) == Readable(fd.bytes)
    ensures shard != null ==>
              && shard.fd == fd && shard.hdr == DecodeHeader(fd.bytes[..HEADER_SIZE])
              && shard.records == ParseRecords(Slice(fd.bytes, RECORD_BYTES * shard.hdr.recordsLength, shard.hdr.recordsStart),
                                               shard.hdr.recordsLength)
    ensures shard != null <==>
              && |fd.bytes| >= 36 && fd.bytes[..8] == [83, 104, 97, 114, 100, 86, 50, 32]
              && var (n, start) := (FromLe(fd.bytes[12..20]), FromLe(fd.bytes[20..28]));
                 n == 0 || start + 36 * n <= |fd.bytes|
    ensures shard != null ==>
              && shard.hdr.stringTableStart == FromLe(fd.bytes[28..36])
              && shard.hdr.recordsStart == FromLe(fd.bytes[20..28])
              && |shard.records| == shard.hdr.recordsLength == FromLe(fd.bytes[12..20])
    ensures shard != null ==>
              forall k | 0 <= k < |shard.records| :: IsRecordAt(fd.bytes, shard.hdr.recordsStart + 36 * k, shard.records[k])
  {
    ReadableMeaning(fd.bytes);
    hide DecodeHeader, ParseRecords;
    var bytes := fd.Pread(HEADER_SIZE, 0);
    if |bytes| != HEADER_SIZE {
      return null;
    }
    assert bytes == fd.bytes[..HEADER_SIZE];
    assert bytes[..8] == fd.bytes[..8];
    if bytes[..8] != MAGIC {
      return null;
    }
    var hdr := DecodeHeader(bytes);
    var bufSize := RECORD_BYTES * hdr.recordsLength;
    var records := fd.Pread(bufSize, hdr.recordsStart);
    if |records| != bufSize {
      return null;
    }
    shard := new ShardFileV2(fd, hdr, ParseRecords(records, hdr.recordsLength));
  }

  /** The packed bytes of a blob, unpacked: what is read must have the blob's checksum. `buf` is
      the memory that is read into; a short read leaves the rest of it as it was. A compressed
      blob is taken from one read of the inflating stream, which delivers up to `delivered` bytes. */
  function LoadBlob(c: Codec, file: seq<Byte>, blob: Blob, buf: seq<Byte>, delivered: nat): Option<seq<Byte>>
    requires |buf| == blob.size
  {
    var got := Slice(file, blob.size, blob.offs);
    var bytes := got + buf[|got|..];
    if c.sha256(bytes) != blob.checksum then None
    else if Compressed(blob.flags) then Some(Slice(c.inflate(bytes), Min(blob.uncompressedSize, delivered), 0))
    else Some(bytes)
  }

  /** What loading gives: nothing if the checksum differs from that of what was read; otherwise, for
      odd flags, what the inflating stream delivers of the uncompressed size, and for even flags
      what was read. */
  lemma LoadMeaning(c: Codec, file: seq<Byte>, blob: Blob, buf: seq<Byte>, delivered: nat, k: nat)
    requires |buf| == blob.size
    ensures var got := if blob.offs <= |file| then file[blob.offs..Min(blob.offs + blob.size, |file|)] else [];
            var bytes := got + buf[|got|..];
            && (c.sha256(bytes) != blob.checksum ==> LoadBlob(c, file, blob, buf, delivered) == None)
            && (c.sha256(bytes) == blob.checksum && blob.flags == 2 * k ==>
                  LoadBlob(c, file, blob, buf, delivered) == Some(bytes))
            && (c.sha256(bytes) == blob.checksum && blob.flags == 2 * k + 1 ==>
                  var n := Min(|c.inflate(bytes)|, Min(blob.uncompressedSize, delivered));
                  LoadBlob(c, file, blob, buf, delivered) == Some(c.inflate(bytes)[..n]))
  {
    assert Slice(file, blob.size, blob.offs)
        == if blob.offs <= |file| then file[blob.offs..Min(blob.offs + blob.size, |file|)] else [];
  }

  // ---------- The record table ----------

  lemma BelowRest(rs: seq<SRecord>, name: seq<Byte>, mid: nat)
    requires mid < |rs| && Compare(name, rs[mid].rawName) < 0
    ensures SortedTable(rs) ==> forall j | mid <= j < |rs| :: Compare(name, rs[j].rawName) < 0
  {
    hide Compare;
    if SortedTable(rs) {
      forall j | mid <= j < |rs|
        ensures Compare(name, rs[j].rawName) < 0
      {
        if j > mid {
          CompareTrans(name, rs[mid].rawName, rs[j].rawName);
        }
      }
    }
  }

  lemma AboveRest(rs: seq<SRecord>, name: seq<Byte>, mid: nat)
    requires mid < |rs| && Compare(name, rs[mid].rawName) > 0
    ensures SortedTable(rs) ==> forall j | 0 <= j <= mid :: Compare(name, rs[j].rawName) > 0
  {
    hide Compare;
    if SortedTable(rs) {
      forall j | 0 <= j <= mid
        ensures Compare(name, rs[j].rawName) > 0
      {
        CompareFlip(name, rs[mid].rawName);
        CompareFlip(name, rs[j].rawName);
        if j < mid {
          CompareTrans(rs[j].rawName, rs[mid].rawName, name);
        }
      }
    }
  }

  /** A record is a tombstone by the lowest bit of its flags. */
  lemma TombstoneMeaning(r: SRecord, k: nat)
    ensures r.flags == 2 * k + 1 ==> IsTombstone(r)
    ensures r.flags == 2 * k ==> !IsTombstone(r)
  {
  }

  /** Metadata and data are the blobs named "$metadata" and "$data". */
  lemma RecordMeaning(file: seq<Byte>, hdr: Header, srecord: SRecord)
    ensures RecordOf(file, hdr, srecord).rawName == srecord.rawName
    ensures RecordOf(file, hdr, srecord).metadata
         == ReadBlob(file, hdr, srecord, [36, 109, 101, 116, 97, 100, 97, 116, 97])
    ensures RecordOf(file, hdr, srecord).data == ReadBlob(file, hdr, srecord, [36, 100, 97, 116, 97])
  {
    hide ReadBlob;
  }

  lemma RecordOfName(file: seq<Byte>, hdr: Header, srecord: SRecord)
    ensures RecordOf(file, hdr, srecord).rawName == srecord.rawName
  {
  }

  /** The live records are the records that are not tombstones. */
  lemma {:induction false} LiveMembers(file: seq<Byte>, hdr: Header, rs: seq<SRecord>)
    ensures forall k | 0 <= k < |rs| && !IsTombstone(rs[k]) :: RecordOf(file, hdr, rs[k]) in Live(file, hdr, rs)
    ensures forall x | x in Live(file, hdr, rs) ::
              exists k :: 0 <= k < |rs| && !IsTombstone(rs[k]) && x == RecordOf(file, hdr, rs[k]) && x.rawName == rs[k].rawName
  {
    hide IsTombstone, ReadBlob;
    if rs != [] {
      LiveMembers(file, hdr, rs[1..]);
      forall x | x in Live(file, hdr, rs)
        ensures exists k :: 0 <= k < |rs| && !IsTombstone(rs[k]) && x == RecordOf(file, hdr, rs[k]) && x.rawName == rs[k].rawName
      {
        if x in Live(file, hdr, rs[1..]) {
          var k :| 0 <= k < |rs[1..]| && !IsTombstone(rs[1..][k]) && x == RecordOf(file, hdr, rs[1..][k]);
          assert rs[1..][k] == rs[k + 1];
        }
      }
      forall k | 0 <= k < |rs| && !IsTombstone(rs[k])
        ensures RecordOf(file, hdr, rs[k]) in Live(file, hdr, rs)
      {
        if k > 0 {
          assert rs[1..][k - 1] == rs[k];
        }
      }
    }
  }

  ghost predicate AscendingRecords(l: seq<Record>) {
    forall i, j | 0 <= i < j < |l| :: Compare(l[i].rawName, l[j].rawName) < 0
  }

  /** In a sorted table with distinct names the live records ascend strictly. */
  lemma {:induction false} LiveAscending(file: seq<Byte>, hdr: Header, rs: seq<SRecord>)
    requires SortedTable(rs) && DistinctNames(rs)
    ensures AscendingRecords(Live(file, hdr, rs))
  {
    hide *;
    LiveUnfolds(file, hdr, rs);
    if rs == [] {
      NoneAscending();
    } else {
      RestOfTable(rs);
      LiveAscending(file, hdr, rs[1..]);
      RecordOfName(file, hdr, rs[0]);
      BelowLive(file, hdr, rs);
      ConsAscending(RecordOf(file, hdr, rs[0]), Live(file, hdr, rs[1..]));
    }
  }

  lemma LiveUnfolds(file: seq<Byte>, hdr: Header, rs: seq<SRecord>)
    ensures Live(file, hdr, rs)
         == if rs == [] then []
            else if IsTombstone(rs[0]) then Live(file, hdr, rs[1..])
            else [RecordOf(file, hdr, rs[0])] + Live(file, hdr, rs[1..])
  {
    hide IsTombstone, RecordOf;
  }

  lemma NoneAscending()
    ensures AscendingRecords([])
  {
  }

  lemma RestOfTable(rs: seq<SRecord>)
    requires rs != [] && SortedTable(rs) && DistinctNames(rs)
    ensures SortedTable(rs[1..]) && DistinctNames(rs[1..])
  {
    hide Compare;
  }

  lemma ConsAscending(x: Record, t: seq<Record>)
    requires AscendingRecords(t) && forall y | y in t :: Compare(x.rawName, y.rawName) < 0
    ensures AscendingRecords([x] + t)
  {
    hide Compare;
    var l := [x] + t;
    assert forall j | 1 <= j < |l| :: l[j] == t[j - 1] && t[j - 1] in t;
  }

  lemma BelowLive(file: seq<Byte>, hdr: Header, rs: seq<SRecord>)
    requires rs != [] && SortedTable(rs) && DistinctNames(rs)
    ensures forall x | x in Live(file, hdr, rs[1..]) :: Compare(rs[0].rawName, x.rawName) < 0
  {
    hide Compare, IsTombstone, RecordOf, Live;
    LiveMembers(file, hdr, rs[1..]);
    forall x | x in Live(file, hdr, rs[1..])
      ensures Compare(rs[0].rawName, x.rawName) < 0
    {
      var k :| 0 <= k < |rs[1..]| && x.rawName == rs[1..][k].rawName;
      assert rs[1..][k] == rs[k + 1];
      CompareEq(rs[0].rawName, rs[k + 1].rawName);
    }
  }

  // ---------- Which format ----------

  predicate OccursAt(buf: seq<Byte>, x: seq<Byte>, i: nat) {
    i + |x| <= |buf| && buf[i..i + |x|] == x
  }

  ghost predicate Contains(buf: seq<Byte>, x: seq<Byte>) {
    exists i: nat :: OccursAt(buf, x, i)
  }

  /** A file that starts with a V2 header is not taken for a V1 shard, although the V1 magic is
      looked for anywhere in the first 16 bytes, record count included. */
  lemma NotDetectedAsV1(file: seq<Byte>, hdr: Header)
    requires At(file, 0, EncodeHeader(hdr))
    ensures |Slice(file, 16, 0)| == 16 && Slice(file, 8, 0) == MAGIC
    ensures !Contains(Slice(file, 16, 0), [83, 104, 97, 114, 100, 86, 49])  // "ShardV1"
  {
    hide EncodeHeader;
    HeaderPlaces(hdr);
    var (h, buf) := (EncodeHeader(hdr), Slice(file, 16, 0));
    var v1: seq<Byte> := [83, 104, 97, 114, 100, 86, 49];
    assert file[0..36] == h;
    assert Slice(file, 8, 0) == h[..8];
    forall i: nat
      ensures !OccursAt(buf, v1, i)
    {
      if i + 7 <= 16 {
        NotV1At(file, hdr, i);
        assert buf[i..i + 7] == file[i..i + 7];
      }
    }
  }

  /** Spelled out: "ShardV1" does not occur in those 16 bytes. */
  lemma NotV1At(file: seq<Byte>, hdr: Header, i: nat)
    requires At(file, 0, EncodeHeader(hdr)) && i + 7 <= 16
    ensures |file| >= 16 && file[i..i + 7] != [83, 104, 97, 114, 100, 86, 49]
  {
    hide EncodeHeader;
    HeaderPlaces(hdr);
    var h := EncodeHeader(hdr);
    assert file[0..36] == h;
    FirstTwelve(h, i);
    assert file[i..i + 7][0] == file[i] == h[i];
    assert file[i..i + 7][6] == file[i + 6] == h[i + 6];
  }

  lemma FirstTwelve(h: seq<Byte>, i: nat)
    requires |h| == 36 && h[..8] == [83, 104, 97, 114, 100, 86, 50, 32] && h[8..12] == [0, 0, 0, 0] && i <= 9
    ensures h[i] != 83 || h[i + 6] != 49
  {
    if i < 8 {
      assert h[i] == h[..8][i];
    } else {
      assert h[i] == h[8..12][i - 8];
    }
    assert h[6] == h[..8][6];
  }
}
