/** What the bytes of a stored dictionary are, by their numbers. */
module DictionaryBytes {
  import opened Bytes
  import opened CStrings
  import opened DictionaryFormat
  import opened DictionaryReader
  import opened DictionaryTheorems
  import Bloom = BloomFilter

  /** The magic, and where block table and filter start. */
  lemma HeaderBytesAt(file: seq<Byte>, base: nat, img: Image)
    requires Stored(file, base, img)
    ensures base + 24 <= |file| && file[base..base + 8] == [68, 105, 99, 116, 86, 49, 32, 32]
    ensures FromLe(file[base + 8..base + 16]) == TableStart(img.entries)
    ensures FromLe(file[base + 16..base + 24]) == BloomStart(img.entries)
  {
    hide *;
    StoredParts(file, base, img);
    ImageParts(file, base, img);
    StartsSmall(img);
    var (t, b) := (TableStart(img.entries), BloomStart(img.entries));
    HeaderPlaces(t, b);
    FieldAt(file, base, HeaderBytes(t, b), 0, 8);
    FieldAt(file, base, HeaderBytes(t, b), 8, 16);
    FieldAt(file, base, HeaderBytes(t, b), 16, 24);
  }

  lemma HeaderPlaces(t: nat, b: nat)
    requires t < TWO_64 && b < TWO_64
    ensures var h := HeaderBytes(t, b);
            |h| == 24 && h[0..8] == [68, 105, 99, 116, 86, 49, 32, 32] && FromLe(h[8..16]) == t && FromLe(h[16..24]) == b
  {
    hide Le, FromLe;
    var h := HeaderBytes(t, b);
    assert h[0..8] == MAGIC && h[8..16] == Le(t, 8) && h[16..24] == Le(b, 8);
    Le8(t);
    Le8(b);
  }

  /** The entries follow the header without a gap: key, NUL, value, NUL. */
  lemma EntryBytesAt(file: seq<Byte>, base: nat, img: Image, i: nat)
    requires Stored(file, base, img) && i < |img.entries|
    ensures var (at, e) := (EntryPos(img.entries, i), img.entries[i]);
            var bytes := e.key + [0] + e.value + [0];
            && EntryPos(img.entries, 0) == 24 && EntryPos(img.entries, i + 1) == at + |bytes|
            && base + at + |bytes| <= |file| && file[base + at..base + at + |bytes|] == bytes
    ensures TableStart(img.entries) == EntryPos(img.entries, |img.entries|)
  {
    hide *;
    hide At;
    var es := img.entries;
    StoredParts(file, base, img);
    ImageParts(file, base, img);
    EntryAt(file, base, es, i);
    EntryPosStep(es, i);
    FirstPos(es);
    EntryIs(es[i]);
    FieldAt(file, base + EntryPos(es, i), EntryBytes(es[i]), 0, |EntryBytes(es[i])|);
    Whole(EntryBytes(es[i]));
  }

  lemma Whole(s: seq<Byte>)
    ensures s[0..|s|] == s
  {
  }

  lemma FirstPos(es: seq<Entry>)
    ensures EntryPos(es, 0) == 24 && TableStart(es) == EntryPos(es, |es|)
  {
    assert es[..0] == [];
  }

  lemma EntryIs(e: Entry)
    ensures EntryBytes(e) == e.key + [0] + e.value + [0]
  {
  }

  /** The block table begins with the number of blocks: of `l` entries each, the least square root
      that is not too small, as many as it takes. */
  lemma BlockCountAt(file: seq<Byte>, base: nat, img: Image, at: nat, l: nat)
    requires Stored(file, base, img) && at == base + TableStart(img.entries)
    requires l > 0 && (l - 1) * (l - 1) < |img.entries| <= l * l
    ensures at + 2 <= |file| && FromLe(file[at..at + 2]) == BlockCount(|img.entries|)
    ensures (BlockCount(|img.entries|) - 1) * l < |img.entries| <= BlockCount(|img.entries|) * l
  {
    hide *;
    var (es, n) := (img.entries, BlockCount(|img.entries|));
    StoredParts(file, base, img);
    ImageParts(file, base, img);
    RootUnique(|es|, l);
    CountOf(|es|, l);
    CountRead(file, at, es, n);
    BlockCountFits(|es|);
    Le2(n);
    FieldAt(file, at, Le(n, 2), 0, 2);
    Whole(Le(n, 2));
  }

  /** For each block it has where the block starts, and how long it is. */
  lemma BlockBytesAt(file: seq<Byte>, base: nat, img: Image, b: nat, l: nat, first: nat, next: nat, at: nat)
    requires Stored(file, base, img) && b < BlockCount(|img.entries|)
    requires l > 0 && (l - 1) * (l - 1) < |img.entries| <= l * l
    requires first == b * l && next == if b + 1 < BlockCount(|img.entries|) then (b + 1) * l else |img.entries|
    requires at == base + TableStart(img.entries) + 2 + 16 * b
    ensures first < next <= |img.entries| && at + 16 <= |file|
    ensures FromLe(file[at..at + 8]) == EntryPos(img.entries, first)
    ensures FromLe(file[at + 8..at + 16]) == EntryPos(img.entries, next) - EntryPos(img.entries, first)
  {
    hide *;
    var (es, n) := (img.entries, BlockCount(|img.entries|));
    var (o, z) := (BlockOffset(es, b), BlockSize(es, b));
    StoredParts(file, base, img);
    ImageParts(file, base, img);
    RootUnique(|es|, l);
    BlockBounds(|es|, b, b + 1);
    BlockPlaces(es, b, l, first, next);
    CountRead(file, base + TableStart(es), es, n);
    BlocksInside(es, b);
    StartsSmall(img);
    SizeSmall(es, b, img);
    BlockEntryAt(file, base + TableStart(es) + 2, es, n, b);
    EntryWidth();
    BlockEntryPlaces(o, z);
    FieldAt(file, at, BlockEntryBytes(o, z), 0, 8);
    FieldAt(file, at, BlockEntryBytes(o, z), 8, 16);
  }

  lemma EntryWidth()
    ensures BLOCK_ENTRY_SIZE == 16
  {
  }

  lemma SizeSmall(es: seq<Entry>, b: nat, img: Image)
    requires BlockOffset(es, b) + BlockSize(es, b) <= TableStart(es) <= BloomStart(es) < TWO_64
    ensures BlockOffset(es, b) < TWO_64 && BlockSize(es, b) < TWO_64
  {
    hide BlockOffset, BlockSize, EntryPos, TableBytes;
  }

  lemma RootUnique(n: nat, l: nat)
    requires l > 0 && (l - 1) * (l - 1) < n <= l * l
    ensures l == BlockLength(n)
  {
    LengthRoot(n, BlockLength(n));
    LengthPositive(n);
    SameRoot(n, l, BlockLength(n));
  }

  lemma SameRoot(n: nat, l: nat, k: nat)
    requires l > 0 && k > 0 && (l - 1) * (l - 1) < n <= l * l && (k - 1) * (k - 1) < n <= k * k
    ensures l == k
  {
    if l < k {
      SquareMonotone(l, k - 1);
    } else if k < l {
      SquareMonotone(k, l - 1);
    }
  }

  lemma BlockPlaces(es: seq<Entry>, b: nat, l: nat, first: nat, next: nat)
    requires l == BlockLength(|es|) && l > 0 && b < BlockCount(|es|)
    requires first == b * l && next == if b + 1 < BlockCount(|es|) then (b + 1) * l else |es|
    ensures first < next <= |es| && BlockOffset(es, b) == EntryPos(es, first)
    ensures BlockSize(es, b) == EntryPos(es, next) - EntryPos(es, first)
  {
    hide BlockLength, BlockCount, EntryPos, BlockFirst;
    var cnt := BlockCount(|es|);
    BlockBounds(|es|, b, b + 1);
    if b + 1 < cnt {
      BlockBounds(|es|, b + 1, cnt);
    }
  }

  lemma BlockEntryPlaces(offset: nat, length: nat)
    requires offset < TWO_64 && length < TWO_64
    ensures var s := BlockEntryBytes(offset, length); |s| == 16 && FromLe(s[0..8]) == offset && FromLe(s[8..16]) == length
  {
    hide Le, FromLe;
    var s := BlockEntryBytes(offset, length);
    assert s[0..8] == Le(offset, 8) && s[8..16] == Le(length, 8);
    Le8(offset);
    Le8(length);
  }

  /** The filter: its bits, its buckets, its hashes, and the buckets. */
  lemma FilterBytesAt(file: seq<Byte>, base: nat, img: Image, i: nat)
    requires Stored(file, base, img)
    ensures var at := base + BloomStart(img.entries);
            && at + 12 + 4 * |img.buckets| <= |file|
            && FromLe(file[at..at + 4]) == 32 * |img.buckets| && FromLe(file[at + 4..at + 8]) == |img.buckets|
            && FromLe(file[at + 8..at + 12]) == img.nHashes
            && (i < |img.buckets| ==> FromLe(file[at + 12 + 4 * i..at + 12 + 4 * i + 4]) == img.buckets[i])
  {
    hide *;
    var at := base + BloomStart(img.entries);
    StoredParts(file, base, img);
    ImageParts(file, base, img);
    FilterSmall(img);
    FilterParts(file, at, img);
    FilterFields(file, at, 32 * |img.buckets|, img.nHashes);
    if i < |img.buckets| {
      Bloom.BucketAt(file, at + 12, img.buckets, i);
      Le4(img.buckets[i]);
      FieldAt(file, at + 12 + 4 * i, Le(img.buckets[i], 4), 0, 4);
      Whole(Le(img.buckets[i], 4));
    }
  }

  lemma FilterFields(file: seq<Byte>, at: nat, nBits: nat, nHashes: nat)
    requires At(file, at, Bloom.FilterHeader(nBits, nHashes)) && nBits < 0x1_0000_0000 && nHashes < 0x1_0000_0000
    ensures at + 12 <= |file| && FromLe(file[at..at + 4]) == nBits && FromLe(file[at + 4..at + 8]) == nBits / 32
    ensures FromLe(file[at + 8..at + 12]) == nHashes
  {
    hide Bloom.FilterHeader, FromLe, Slice;
    Bloom.HeaderFields(file, at, nBits, nHashes);
    FirstTwelve(file, at);
  }

  lemma FilterSmall(img: Image)
    requires WellFormed(img)
    ensures 32 * |img.buckets| < 0x1_0000_0000 && img.nHashes < 0x1_0000_0000
  {
    hide Sorted, ImageBytes, Bloom.AllBits, Bloom.BitsOf;
  }

  lemma FilterParts(file: seq<Byte>, at: nat, img: Image)
    requires At(file, at, Bloom.FilterBytes(img.nHashes, img.buckets))
    ensures At(file, at, Bloom.FilterHeader(32 * |img.buckets|, img.nHashes)) && At(file, at + 12, Bloom.BucketBytes(img.buckets))
    ensures at + 12 + 4 * |img.buckets| <= |file|
  {
    hide Bloom.BucketBytes, Bloom.FilterHeader;
    AtSplit(file, at, Bloom.FilterHeader(32 * |img.buckets|, img.nHashes), Bloom.BucketBytes(img.buckets));
  }

  lemma FirstTwelve(file: seq<Byte>, at: nat)
    requires |Slice(file, 12, at)| == 12
    ensures at + 12 <= |file|
    ensures var h := Slice(file, 12, at);
            h[0..4] == file[at..at + 4] && h[4..8] == file[at + 4..at + 8] && h[8..12] == file[at + 8..at + 12]
  {
    SlicePart(file, at, 12, 0, 4);
    SlicePart(file, at, 12, 4, 4);
    SlicePart(file, at, 12, 8, 4);
  }
}
