/** The structures of a V2 shard as they lie in the file: little-endian, packed to 4 bytes. */
module ShardFormat {
  import opened Bytes
  import opened BlobLayout
  import opened BlobStore
  import opened HexName

  const RECORD_BYTES: nat := 36
  const TABLE_ENTRY_BYTES: nat := 8
  const BLOB_BYTES: nat := 76

  const MAGIC: seq<Byte> := [83, 104, 97, 114, 100, 86, 50, 32]  // "ShardV2 "

  datatype Header = Header(recordsLength: nat, recordsStart: nat, stringTableStart: nat)

  datatype SRecord = SRecord(rawName: seq<Byte>, flags: nat, blobTableLength: nat, blobTableStart: nat)

  function EncodeHeader(h: Header): (s: seq<Byte>)
    ensures |s| == HEADER_SIZE
  {
    MAGIC + Le(0, 2) + Zeros(2) + Le(h.recordsLength, 8) + Le(h.recordsStart, 8) + Le(h.stringTableStart, 8)
  }

  function DecodeHeader(s: seq<Byte>): Header
    requires |s| == HEADER_SIZE
  {
    Header(FromLe(s[12..20]), FromLe(s[20..28]), FromLe(s[28..36]))
  }

  function EncodeRecord(r: SRecord): (s: seq<Byte>)
    requires |r.rawName| == RAW_NAME_SIZE
    ensures |s| == RECORD_BYTES
  {
    r.rawName + Le(r.flags, 4) + Le(r.blobTableLength, 1) + Zeros(3) + Le(r.blobTableStart, 8)
  }

  function DecodeRecord(s: seq<Byte>): (r: SRecord)
    requires |s| == RECORD_BYTES
    ensures |r.rawName| == RAW_NAME_SIZE
  {
    SRecord(s[0..20], FromLe(s[20..24]), FromLe(s[24..25]), FromLe(s[28..36]))
  }

  function EncodeBlob(b: SBlob): (s: seq<Byte>)
    ensures |s| == BLOB_BYTES
  {
    EncodeBlobHead(b) + b.csum + EncodeBlobTail(b)
  }

  function EncodeBlobHead(b: SBlob): (s: seq<Byte>)
    ensures |s| == 20
  {
    Le(b.flags, 2) + Zeros(2) + Le(b.nameOffs, 8) + Le(b.contentTypeOffs, 8)
  }

  function EncodeBlobTail(b: SBlob): (s: seq<Byte>)
    ensures |s| == 24
  {
    Le(b.size, 8) + Le(b.uncompressedSize, 8) + Le(b.dataStart, 8)
  }

  function DecodeBlob(s: seq<Byte>): (b: SBlob)
    requires |s| == BLOB_BYTES
  {
    SBlob(FromLe(s[0..2]), FromLe(s[4..12]), FromLe(s[12..20]), s[20..52],
          FromLe(s[52..60]), FromLe(s[60..68]), FromLe(s[68..76]))
  }

  // ---------- Fields ----------

  /** A field inside a structure. */
  lemma Field(before: seq<Byte>, field: seq<Byte>, after: seq<Byte>, s: seq<Byte>, i: nat, j: nat)
    requires s == before + field + after && i == |before| && j == |before| + |field|
    ensures s[i..j] == field
  {
  }

  lemma LeField(before: seq<Byte>, v: nat, k: nat, after: seq<Byte>, s: seq<Byte>, i: nat, j: nat)
    requires s == before + Le(v, k) + after && i == |before| && j == |before| + k
    ensures FromLe(s[i..j]) == v % Pow256(k)
  {
    Field(before, Le(v, k), after, s, i, j);
    LeRoundTrip(v, k);
  }

  // ---------- Where the fields are ----------

  /** The file header: magic, no flags, padding, and three numbers of eight bytes. */
  lemma HeaderPlaces(h: Header)
    ensures var s := EncodeHeader(h);
            && s[..8] == [83, 104, 97, 114, 100, 86, 50, 32] && s[8..12] == [0, 0, 0, 0]
            && FromLe(s[12..20]) == h.recordsLength % TWO_64
            && FromLe(s[20..28]) == h.recordsStart % TWO_64
            && FromLe(s[28..36]) == h.stringTableStart % TWO_64
  {
    NoFlags();
    hide Le, FromLe, Pow256, Zeros;
    Pow256Values();
    var s := EncodeHeader(h);
    var (m, a, b, c) := (MAGIC + Le(0, 2) + Zeros(2), Le(h.recordsLength, 8), Le(h.recordsStart, 8), Le(h.stringTableStart, 8));
    LeField(m, h.recordsLength, 8, b + c, s, 12, 20) by { assert s == m + a + (b + c); }
    LeField(m + a, h.recordsStart, 8, c, s, 20, 28);
    LeField(m + a + b, h.stringTableStart, 8, [], s, 28, 36) by { assert s == m + a + b + c + []; }
    assert s[8..12] == m[8..12] == Le(0, 2) + Zeros(2);
  }

  lemma NoFlags()
    ensures Le(0, 2) + Zeros(2) == [0, 0, 0, 0]
  {
    assert Digit(0, 0) == 0 && Digit(0, 1) == 0;
  }

  /** A record: raw name, flags, the number of its blobs in one byte, padding, and its table. */
  lemma RecordPlaces(r: SRecord)
    requires |r.rawName| == RAW_NAME_SIZE
    ensures var s := EncodeRecord(r);
            && s[0..20] == r.rawName
            && FromLe(s[20..24]) == r.flags % TWO_32
            && FromLe(s[24..25]) == r.blobTableLength % 256
            && FromLe(s[28..36]) == r.blobTableStart % TWO_64
  {
    hide Le, FromLe, Pow256, Zeros;
    Pow256Values();
    var s := EncodeRecord(r);
    var (n, f, l, z, t) := (r.rawName, Le(r.flags, 4), Le(r.blobTableLength, 1), Zeros(3), Le(r.blobTableStart, 8));
    Field([], n, f + l + z + t, s, 0, 20) by { assert s == [] + n + (f + l + z + t); }
    LeField(n, r.flags, 4, l + z + t, s, 20, 24) by { assert s == n + f + (l + z + t); }
    LeField(n + f, r.blobTableLength, 1, z + t, s, 24, 25) by { assert s == n + f + l + (z + t); }
    LeField(n + f + l + z, r.blobTableStart, 8, [], s, 28, 36) by { assert s == n + f + l + z + t + []; }
  }

  /** A blob header: flags, name, content type, checksum, the two sizes, and the data. */
  lemma BlobPlaces(b: SBlob)
    ensures var s := EncodeBlob(b);
            && FromLe(s[0..2]) == b.flags % 65536
            && FromLe(s[4..12]) == b.nameOffs % TWO_64 && FromLe(s[12..20]) == b.contentTypeOffs % TWO_64
            && s[20..52] == b.csum
            && FromLe(s[52..60]) == b.size % TWO_64 && FromLe(s[60..68]) == b.uncompressedSize % TWO_64
            && FromLe(s[68..76]) == b.dataStart % TWO_64
  {
    hide Le, FromLe, EncodeBlobHead, EncodeBlobTail;
    var (s, h, t) := (EncodeBlob(b), EncodeBlobHead(b), EncodeBlobTail(b));
    BlobHeadPlaces(b);
    BlobTailPlaces(b);
    Field([], h, b.csum + t, s, 0, 20);
    Field(h, b.csum, t, s, 20, 52);
    Field(h + b.csum, t, [], s, 52, 76);
    assert s[0..2] == s[0..20][0..2] && s[4..12] == s[0..20][4..12] && s[12..20] == s[0..20][12..20];
    assert s[52..60] == s[52..76][0..8] && s[60..68] == s[52..76][8..16] && s[68..76] == s[52..76][16..24];
  }

  // ---------- Round trips ----------

  /** What comes back is what went in, up to the widths of the fields. */
  lemma HeaderRoundTrip(h: Header)
    ensures EncodeHeader(h)[..8] == MAGIC
    ensures DecodeHeader(EncodeHeader(h))
         == Header(h.recordsLength % TWO_64, h.recordsStart % TWO_64, h.stringTableStart % TWO_64)
  {
    hide EncodeHeader, FromLe;
    HeaderPlaces(h);
  }

  lemma RecordRoundTrip(r: SRecord)
    requires |r.rawName| == RAW_NAME_SIZE
    ensures DecodeRecord(EncodeRecord(r))
         == SRecord(r.rawName, r.flags % TWO_32, r.blobTableLength % 256, r.blobTableStart % TWO_64)
  {
    hide EncodeRecord, FromLe;
    RecordPlaces(r);
  }

  /** What a blob header reads back as. */
  function Narrow(b: SBlob): SBlob {
    SBlob(b.flags % 65536, b.nameOffs % TWO_64, b.contentTypeOffs % TWO_64, b.csum,
          b.size % TWO_64, b.uncompressedSize % TWO_64, b.dataStart % TWO_64)
  }

  lemma BlobRoundTrip(b: SBlob)
    ensures DecodeBlob(EncodeBlob(b)) == Narrow(b)
  {
    hide EncodeBlob, FromLe;
    BlobPlaces(b);
  }

  lemma BlobHeadPlaces(b: SBlob)
    ensures var h := EncodeBlobHead(b);
            && FromLe(h[0..2]) == b.flags % 65536 && FromLe(h[4..12]) == b.nameOffs % TWO_64
            && FromLe(h[12..20]) == b.contentTypeOffs % TWO_64
  {
    hide Le, FromLe, Pow256, Zeros;
    Pow256Values();
    var h := EncodeBlobHead(b);
    var (f, z, n, t) := (Le(b.flags, 2), Zeros(2), Le(b.nameOffs, 8), Le(b.contentTypeOffs, 8));
    LeField([], b.flags, 2, z + n + t, h, 0, 2) by { assert h == [] + f + (z + n + t); }
    LeField(f + z, b.nameOffs, 8, t, h, 4, 12);
    LeField(f + z + n, b.contentTypeOffs, 8, [], h, 12, 20) by { assert h == f + z + n + t + []; }
  }

  lemma BlobTailPlaces(b: SBlob)
    ensures var t := EncodeBlobTail(b);
            && FromLe(t[0..8]) == b.size % TWO_64 && FromLe(t[8..16]) == b.uncompressedSize % TWO_64
            && FromLe(t[16..24]) == b.dataStart % TWO_64
  {
    hide Le, FromLe, Pow256;
    Pow256Values();
    var t := EncodeBlobTail(b);
    var (x, u, d) := (Le(b.size, 8), Le(b.uncompressedSize, 8), Le(b.dataStart, 8));
    LeField([], b.size, 8, u + d, t, 0, 8) by { assert t == [] + x + (u + d); }
    LeField(x, b.uncompressedSize, 8, d, t, 8, 16);
    LeField(x + u, b.dataStart, 8, [], t, 16, 24) by { assert t == x + u + d + []; }
  }
}
