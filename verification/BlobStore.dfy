/** What a blob is before it is added, and what the writer keeps of it. */
module BlobStore {
  import opened Bytes
  import opened CStrings
  import opened BlobLayout
  import Pool = ConstantPool

  const CSUM_BYTES: nat := 32

  /** How much the writer reads at a time. */
  const BUFFER_SIZE: nat := 16384

  type Digest = s: seq<Byte> | |s| == CSUM_BYTES witness Zeros(CSUM_BYTES)

  /** zlib and SHA-256 as functions. */
  datatype Codec = Codec(deflate: seq<Byte> -> seq<Byte>, inflate: seq<Byte> -> seq<Byte>, sha256: seq<Byte> -> Digest)

  const MAX_NAME_SIZE: nat := 255
  const MAX_CONTENT_TYPE_SIZE: nat := 255
  const FLAG_COMPRESSED_ZLIB: nat := 1

  /** The arguments of one call to add a blob. */
  datatype BlobSpec = BlobSpec(name: CString, contentType: CString, flags: nat, contents: seq<Byte>)

  predicate Acceptable(b: BlobSpec) {
    |b.name| <= MAX_NAME_SIZE && |b.contentType| <= MAX_CONTENT_TYPE_SIZE
  }

  predicate Compressed(flags: nat) {
    flags % 2 == FLAG_COMPRESSED_ZLIB
  }

  /** The bytes that go into the shard. */
  function Packed(c: Codec, b: BlobSpec): seq<Byte> {
    if Compressed(b.flags) then c.deflate(b.contents) else b.contents
  }

  function PayloadOf(c: Codec, b: BlobSpec): Payload {
    Payload(c.sha256(Packed(c, b)), Packed(c, b))
  }

  /** Odd flags ask for compression: the blob is stored deflated, and the checksum is that of the
      stored bytes; even flags leave it as it is. */
  lemma PackedByFlags(c: Codec, name: CString, contentType: CString, contents: seq<Byte>, k: nat)
    ensures var b := BlobSpec(name, contentType, 2 * k + 1, contents);
            && Compressed(2 * k + 1) && Packed(c, b) == c.deflate(contents)
            && PayloadOf(c, b) == Payload(c.sha256(c.deflate(contents)), c.deflate(contents))
    ensures var b := BlobSpec(name, contentType, 2 * k, contents);
            !Compressed(2 * k) && Packed(c, b) == contents && PayloadOf(c, b) == Payload(c.sha256(contents), contents)
    ensures var b := BlobSpec(name, contentType, k, contents);
            Acceptable(b) <==> |name| <= 255 && |contentType| <= 255
  {
  }

  function Payloads(c: Codec, bs: seq<BlobSpec>): (ps: seq<Payload>)
    ensures |ps| == |bs|
  {
    seq(|bs|, i requires 0 <= i < |bs| => PayloadOf(c, bs[i]))
  }

  /** A blob header, as it is kept in memory and written to the file. */
  datatype SBlob = SBlob(flags: nat, nameOffs: nat, contentTypeOffs: nat, csum: Digest,
                         size: nat, uncompressedSize: nat, dataStart: nat)

  /** The header a blob has once its call has returned. */
  function StoredBlob(c: Codec, bs: seq<BlobSpec>, strings: seq<CString>, i: nat): SBlob
    requires i < |bs|
  {
    var (b, p) := (bs[i], PayloadOf(c, bs[i]));
    SBlob(b.flags, Pool.PoolOffset(strings, b.name), Pool.PoolOffset(strings, b.contentType),
          p.csum, |p.data|, |b.contents|, DataStart(Payloads(c, bs), i))
  }

  /** Every payload that was placed is at its place. */
  ghost predicate DataInPlace(file: seq<Byte>, ps: seq<Payload>) {
    forall i | 0 <= i < |ps| && IsFirst(ps, i) && ps[i].data != [] :: At(file, DataStart(ps, i), ps[i].data)
  }

  /** The writer's state when no call is under way: everything is determined by the blobs added,
      in the order in which their calls took the lock. */
  ghost predicate Settled(c: Codec, bs: seq<BlobSpec>, file: seq<Byte>, offset: nat, table: map<seq<Byte>, nat>,
                          strings: seq<CString>, blobs: seq<SBlob>) {
    && offset == WriteOffset(Payloads(c, bs)) && table == CsumTable(Payloads(c, bs))
    && Pool.NoDuplicates(strings)
    && |blobs| == |bs|
    && (forall i | 0 <= i < |bs| ::
          && Acceptable(bs[i]) && bs[i].name in strings && bs[i].contentType in strings
          && blobs[i] == StoredBlob(c, bs, strings, i))
    && DataInPlace(file, Payloads(c, bs))
  }

  /** Then the range of every blob holds its packed bytes, whoever wrote them. */
  lemma PackedBytesStored(c: Codec, bs: seq<BlobSpec>, file: seq<Byte>, i: nat)
    requires DataInPlace(file, Payloads(c, bs)) && CollisionFree(Payloads(c, bs))
    requires i < |bs| && Packed(c, bs[i]) != []
    ensures At(file, DataStart(Payloads(c, bs), i), Packed(c, bs[i]))
  {
    var ps := Payloads(c, bs);
    var j := FirstSame(ps, i);
    SameFirst(ps, i);
    assert ps[j].data == ps[i].data;
  }

  // ---------- One blob more ----------

  /** The string pool after a call has asked for its two strings. */
  function PoolWith(strings: seq<CString>, b: BlobSpec): seq<CString> {
    Pool.Intern(Pool.Intern(strings, b.name), b.contentType)
  }

  /** Both answers of the pool survive their casts. */
  predicate StringsAnswerable(strings: seq<CString>, b: BlobSpec) {
    Pool.Answerable(strings, b.name) && Pool.Answerable(Pool.Intern(strings, b.name), b.contentType)
  }

  /** What adding a blob looks up survives the 32-bit casts. */
  predicate LookupsExact(c: Codec, table: map<seq<Byte>, nat>, strings: seq<CString>, b: BlobSpec) {
    var csum := PayloadOf(c, b).csum;
    StringsAnswerable(strings, b) && (csum in table ==> table[csum] < TWO_32)
  }

  lemma PayloadsGrow(c: Codec, bs: seq<BlobSpec>, b: BlobSpec)
    ensures Payloads(c, bs + [b]) == Payloads(c, bs) + [PayloadOf(c, b)]
  {
  }

  /** What was listed before keeps its header. */
  lemma HeaderKept(c: Codec, bs: seq<BlobSpec>, b: BlobSpec, strings: seq<CString>, i: nat)
    requires i < |bs| && bs[i].name in strings && bs[i].contentType in strings
    requires Pool.NoDuplicates(strings)
    ensures bs[i].name in PoolWith(strings, b) && bs[i].contentType in PoolWith(strings, b)
    ensures StoredBlob(c, bs + [b], PoolWith(strings, b), i) == StoredBlob(c, bs, strings, i)
  {
    hide DataStart, Payloads, Packed, Pool.Intern, Pool.PoolOffset, Pool.PoolBytes, Pool.NoDuplicates;
    Pool.TwoInterns(strings, b.name, b.contentType);
    PayloadsGrow(c, bs, b);
    FirstSamePrefix(Payloads(c, bs), Payloads(c, bs + [b]), i);
  }

  /** New data behind everything that was placed disturbs none of it. */
  lemma DataGrows(file: seq<Byte>, ps: seq<Payload>, p: Payload)
    requires DataInPlace(file, ps) && p.csum !in CsumTable(ps)
    ensures DataInPlace(Patched(file, p.data, WriteOffset(ps)), ps + [p])
  {
    hide WriteOffset, CsumTable, DataStart, IsFirst, Patched, At, Align;
    var (qs, file') := (ps + [p], Patched(file, p.data, WriteOffset(ps)));
    ReserveFresh(ps, p);
    forall i | 0 <= i < |qs| && IsFirst(qs, i) && qs[i].data != []
      ensures At(file', DataStart(qs, i), qs[i].data)
    {
      if i < |ps| {
        FirstSamePrefix(ps, qs, i);
        RangeInside(ps, i);
        PatchedFrame(file, p.data, WriteOffset(ps), DataStart(ps, i), ps[i].data);
      } else {
        PatchedAt(file, p.data, WriteOffset(ps));
      }
    }
  }

  lemma DataShared(file: seq<Byte>, ps: seq<Payload>, p: Payload)
    requires DataInPlace(file, ps) && p.csum in CsumTable(ps)
    ensures DataInPlace(file, ps + [p])
  {
    hide WriteOffset, CsumTable, DataStart, IsFirst, At;
    var qs := ps + [p];
    ReserveSeen(ps, p);
    forall i | 0 <= i < |qs| && IsFirst(qs, i) && qs[i].data != []
      ensures At(file, DataStart(qs, i), qs[i].data)
    {
      if i < |ps| {
        FirstSamePrefix(ps, qs, i);
      }
    }
  }

  /** A blob with new contents is placed at the write offset. */
  lemma SettledFresh(c: Codec, bs: seq<BlobSpec>, b: BlobSpec, file: seq<Byte>, offset: nat, table: map<seq<Byte>, nat>,
                     strings: seq<CString>, blobs: seq<SBlob>)
    requires Settled(c, bs, file, offset, table, strings, blobs)
    requires Acceptable(b)
    requires PayloadOf(c, b).csum !in table
    ensures var (p, h) := (PayloadOf(c, b), StoredBlob(c, bs + [b], PoolWith(strings, b), |bs|));
            && h.dataStart == offset
            && Settled(c, bs + [b], Patched(file, p.data, offset), Align(offset + |p.data|), table[p.csum := offset],
                       PoolWith(strings, b), blobs + [h])
  {
    hide WriteOffset, CsumTable, DataStart, IsFirst, Patched, Payloads, PayloadOf, DataInPlace, PoolWith, Align,
      StoredBlob, Pool.NoDuplicates;
    var (ps, p) := (Payloads(c, bs), PayloadOf(c, b));
    PayloadsGrow(c, bs, b);
    ReserveFresh(ps, p);
    DataGrows(file, ps, p);
    HeadersKept(c, bs, b, strings, blobs);
    NewHeaderPlace(c, bs, b, strings);
  }

  lemma NewHeaderPlace(c: Codec, bs: seq<BlobSpec>, b: BlobSpec, strings: seq<CString>)
    ensures StoredBlob(c, bs + [b], PoolWith(strings, b), |bs|).dataStart
         == DataStart(Payloads(c, bs) + [PayloadOf(c, b)], |bs|)
  {
    hide DataStart, PoolWith, Payloads, PayloadOf;
    PayloadsGrow(c, bs, b);
  }

  /** A blob whose contents are there already gets the place of the first. */
  lemma SettledSeen(c: Codec, bs: seq<BlobSpec>, b: BlobSpec, file: seq<Byte>, offset: nat, table: map<seq<Byte>, nat>,
                    strings: seq<CString>, blobs: seq<SBlob>)
    requires Settled(c, bs, file, offset, table, strings, blobs)
    requires Acceptable(b)
    requires PayloadOf(c, b).csum in table
    ensures var (p, h) := (PayloadOf(c, b), StoredBlob(c, bs + [b], PoolWith(strings, b), |bs|));
            && h.dataStart == table[p.csum]
            && Settled(c, bs + [b], file, offset, table, PoolWith(strings, b), blobs + [h])
  {
    hide WriteOffset, CsumTable, DataStart, IsFirst, Payloads, PayloadOf, DataInPlace, PoolWith, StoredBlob, Pool.NoDuplicates;
    var (ps, p) := (Payloads(c, bs), PayloadOf(c, b));
    PayloadsGrow(c, bs, b);
    ReserveSeen(ps, p);
    DataShared(file, ps, p);
    HeadersKept(c, bs, b, strings, blobs);
    NewHeaderPlace(c, bs, b, strings);
  }

  lemma HeadersKept(c: Codec, bs: seq<BlobSpec>, b: BlobSpec, strings: seq<CString>, blobs: seq<SBlob>)
    requires |blobs| == |bs| && Pool.NoDuplicates(strings)
    requires forall i | 0 <= i < |bs| ::
               bs[i].name in strings && bs[i].contentType in strings && blobs[i] == StoredBlob(c, bs, strings, i)
    ensures var (cs, t) := (bs + [b], PoolWith(strings, b));
            var hs := blobs + [StoredBlob(c, cs, t, |bs|)];
            && Pool.NoDuplicates(t)
            && forall i | 0 <= i < |cs| :: cs[i].name in t && cs[i].contentType in t && hs[i] == StoredBlob(c, cs, t, i)
  {
    hide StoredBlob, Pool.PoolOffset, Pool.PoolBytes, Pool.NoDuplicates, Pool.Answer, Pool.Intern;
    Pool.TwoInterns(strings, b.name, b.contentType);
    forall i | 0 <= i < |bs|
      ensures bs[i].name in PoolWith(strings, b) && bs[i].contentType in PoolWith(strings, b)
           && StoredBlob(c, bs + [b], PoolWith(strings, b), i) == StoredBlob(c, bs, strings, i)
    {
      HeaderKept(c, bs, b, strings, i);
    }
  }
}
