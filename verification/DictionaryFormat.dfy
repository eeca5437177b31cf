/** The dictionary format: a header, sorted key/value strings, a table of blocks of about
    sqrt(n) entries, and a Bloom filter. */
module DictionaryFormat {
  import opened Bytes
  import opened CStrings
  import opened Words
  import Bloom = BloomFilter

  const MAGIC: seq<Byte> := [68, 105, 99, 116, 86, 49, 32, 32]  // "DictV1  "
  const HEADER_SIZE: nat := 24
  const BLOCK_ENTRY_SIZE: nat := 16

  /** How much one read of the scan, and one read of a value, fetches. */
  const CHUNK_SIZE: nat := 8191

  datatype Entry = Entry(key: CString, value: CString)

  function EntryBytes(e: Entry): (s: seq<Byte>)
    ensures |s| == |e.key| + |e.value| + 2
  {
    Terminated(e.key) + Terminated(e.value)
  }

  function DataBytes(es: seq<Entry>): seq<Byte> {
    if es == [] then [] else DataBytes(es[..|es| - 1]) + EntryBytes(es[|es| - 1])
  }

  function Keys(es: seq<Entry>): (ks: seq<CString>)
    ensures |ks| == |es| && forall i | 0 <= i < |es| :: ks[i] == es[i].key
  {
    seq(|es|, i requires 0 <= i < |es| => es[i].key)
  }

  ghost predicate Sorted(es: seq<Entry>) {
    forall i, j | 0 <= i < j < |es| :: Compare(es[i].key, es[j].key) <= 0
  }

  // ---------- Positions, relative to the start of the dictionary ----------

  /** Where entry `i` starts; for `i == |es|`, where the block table starts. */
  function EntryPos(es: seq<Entry>, i: nat): nat
    requires i <= |es|
  {
    HEADER_SIZE + |DataBytes(es[..i])|
  }

  function ValuePos(es: seq<Entry>, i: nat): nat
    requires i < |es|
  {
    EntryPos(es, i) + |es[i].key| + 1
  }

  function TableStart(es: seq<Entry>): nat {
    EntryPos(es, |es|)
  }

  lemma EntryPosStep(es: seq<Entry>, i: nat)
    requires i < |es|
    ensures EntryPos(es, i + 1) == EntryPos(es, i) + |EntryBytes(es[i])|
    ensures EntryPos(es, i) < ValuePos(es, i) < EntryPos(es, i + 1)
  {
    assert es[..i + 1][..i] == es[..i];
  }

  lemma {:induction false} EntryPosMonotone(es: seq<Entry>, i: nat, j: nat)
    requires i <= j <= |es|
    ensures EntryPos(es, i) + 2 * (j - i) <= EntryPos(es, j)
    decreases j
  {
    if i < j {
      EntryPosStep(es, j - 1);
      EntryPosMonotone(es, i, j - 1);
    }
  }

  lemma EntryPosPrefix(es: seq<Entry>, more: seq<Entry>, i: nat)
    requires i <= |es|
    ensures EntryPos(es + more, i) == EntryPos(es, i)
  {
    assert (es + more)[..i] == es[..i];
  }

  lemma {:induction false} EntryAt(file: seq<Byte>, base: nat, es: seq<Entry>, i: nat)
    requires At(file, base + HEADER_SIZE, DataBytes(es)) && i < |es|
    ensures At(file, base + EntryPos(es, i), EntryBytes(es[i]))
    decreases |es|
  {
    var init := es[..|es| - 1];
    AtSplit(file, base + HEADER_SIZE, DataBytes(init), EntryBytes(es[|es| - 1]));
    if i < |init| {
      EntryAt(file, base, init, i);
      assert init[..i] == es[..i];
    }
  }

  lemma EntryValueAt(file: seq<Byte>, base: nat, es: seq<Entry>, i: nat)
    requires At(file, base + HEADER_SIZE, DataBytes(es)) && i < |es|
    ensures At(file, base + ValuePos(es, i), Terminated(es[i].value))
  {
    hide DataBytes, EntryPos, At;
    EntryAt(file, base, es, i);
    AtSplit(file, base + EntryPos(es, i), Terminated(es[i].key), Terminated(es[i].value));
  }

  // ---------- Blocks ----------

  /** The block length ceil(sqrt(n)), over the integers. */
  function CeilSqrt(n: nat): (r: nat)
    ensures n <= r * r
    ensures r > 0 ==> (r - 1) * (r - 1) < n
    ensures n > 0 ==> r > 0
  {
    if n == 0 then 0 else NextRoot(n, CeilSqrt(n - 1))
  }

  /** The root of `n`, from that of the number before. */
  function NextRoot(n: nat, r: nat): (x: nat)
    requires n > 0 && n - 1 <= r * r && (r > 0 ==> (r - 1) * (r - 1) < n - 1)
    ensures x > 0 && n <= x * x && (x - 1) * (x - 1) < n
  {
    if n <= r * r then r
    else
      NextSquare(n, r);
      r + 1
  }

  lemma NextSquare(n: nat, r: nat)
    requires r * r < n <= r * r + 1
    ensures n <= (r + 1) * (r + 1) && (r + 1 - 1) * (r + 1 - 1) < n
  {
    assert (r + 1) * (r + 1) == r * r + 2 * r + 1;
    assert r + 1 - 1 == r;
  }

  function BlockLength(n: nat): nat {
    CeilSqrt(n)
  }

  function BlockCount(n: nat): nat {
    if n == 0 then 0 else (n + BlockLength(n) - 1) / BlockLength(n)
  }

  /** The entry a block starts with; block BlockCount(n) stands for the end. */
  function BlockFirst(n: nat, b: nat): (i: nat)
    ensures i <= n
  {
    Min(b * BlockLength(n), n)
  }

  lemma CeilDiv(n: nat, l: nat)
    requires n > 0 && l > 0
    ensures var b := (n + l - 1) / l; b > 0 && (b - 1) * l < n <= b * l
  {
    var b := (n + l - 1) / l;
    assert n + l - 1 == b * l + (n + l - 1) % l;
    assert (b - 1) * l == b * l - l;
  }

  lemma {:induction false} ProductMonotone(a: nat, b: nat, l: nat)
    requires a <= b
    ensures a * l <= b * l
    ensures a < b ==> a * l + l <= b * l
  {
    if a < b {
      ProductMonotone(a, b - 1, l);
      assert b * l == (b - 1) * l + l;
    }
  }

  /** Block starts cut the entries into consecutive, non-empty runs. */
  lemma BlockBounds(n: nat, b: nat, c: nat)
    requires b < c <= BlockCount(n)
    ensures BlockFirst(n, 0) == 0 && BlockFirst(n, BlockCount(n)) == n
    ensures BlockFirst(n, b) < BlockFirst(n, c)
    ensures BlockFirst(n, b) == b * BlockLength(n) < n
  {
    hide BlockLength, BlockCount;
    CountOf(n, BlockLength(n));
    BoundsOf(n, BlockLength(n), BlockCount(n), b, c);
  }

  lemma CountOf(n: nat, l: nat)
    requires l == BlockLength(n)
    ensures n > 0 ==> l > 0 && BlockCount(n) > 0 && (BlockCount(n) - 1) * l < n <= BlockCount(n) * l
    ensures n == 0 ==> BlockCount(n) == 0
  {
    LengthPositive(n);
    hide BlockLength;
    if n > 0 {
      CeilDiv(n, l);
    }
  }

  lemma BoundsOf(n: nat, l: nat, cnt: nat, b: nat, c: nat)
    requires l > 0 && b < c <= cnt && (cnt - 1) * l < n <= cnt * l
    ensures b * l < n && b * l < c * l
  {
    ProductMonotone(b, cnt - 1, l);
    ProductMonotone(b, c, l);
  }

  /** Every entry lies in the block its index divided by the block length names. */
  lemma BlockOfEntry(n: nat, l: nat, i: nat) returns (b: nat)
    requires i < n && l == BlockLength(n) && l > 0
    ensures b == i / l && b < BlockCount(n) && BlockFirst(n, b) <= i < BlockFirst(n, b + 1)
  {
    hide BlockLength, BlockCount;
    b := i / l;
    CountOf(n, l);
    QuotientBounds(n, l, BlockCount(n), i);
  }

  lemma LengthPositive(n: nat)
    ensures n > 0 ==> BlockLength(n) > 0
  {
  }

  lemma QuotientBounds(n: nat, l: nat, cnt: nat, i: nat)
    requires l > 0 && n <= cnt * l && i < n
    ensures i / l < cnt && (i / l) * l <= i < (i / l + 1) * l
  {
    var b := i / l;
    assert i == b * l + i % l;
    assert (b + 1) * l == b * l + l;
    if cnt <= b {
      ProductMonotone(cnt, b, l);
      assert false;
    }
  }

  /** The block count never exceeds the block length, and fits the 16-bit field for every count
      an `int` can hold. */
  lemma BlockCountFits(n: nat)
    requires n < 0x8000_0000
    ensures BlockCount(n) <= BlockLength(n) <= 46341
  {
    hide BlockLength, BlockCount;
    LengthRoot(n, BlockLength(n));
    CountOf(n, BlockLength(n));
    if n > 0 {
      RootFits(n, BlockLength(n), BlockCount(n));
    }
  }

  lemma LengthRoot(n: nat, l: nat)
    requires l == BlockLength(n)
    ensures n <= l * l && (l > 0 ==> (l - 1) * (l - 1) < n) && (n == 0 ==> l == 0)
  {
  }

  lemma RootFits(n: nat, l: nat, cnt: nat)
    requires n < 0x8000_0000 && l > 0 && n <= l * l && (l - 1) * (l - 1) < n && cnt > 0 && (cnt - 1) * l < n
    ensures cnt <= l <= 46341
  {
    if l > 46341 {
      SquareMonotone(46341, l - 1);
      assert false;
    }
    if cnt > l {
      ProductMonotone(l, cnt - 1, l);
      assert false;
    }
  }

  lemma SquareMonotone(a: nat, b: nat)
    requires a <= b
    ensures a * a <= b * b
  {
    ProductMonotone(a, b, a);
    ProductMonotone(a, b, b);
  }

  /** The offsets a writer notes: one for every `l`-th entry. */
  function OffsetList(es: seq<Entry>, l: nat): seq<nat> {
    if es == [] || l == 0 then [] else
      OffsetList(es[..|es| - 1], l) + (if (|es| - 1) % l == 0 then [EntryPos(es, |es| - 1)] else [])
  }

  lemma FactorOrder(a: nat, b: nat, l: nat)
    requires a * l < b * l + l
    ensures a <= b
  {
    if b < a {
      ProductMonotone(b, a, l);
    }
  }

  lemma ModMultiple(q: nat, l: nat)
    requires l > 0
    ensures (q * l) % l == 0
  {
    ModUnique(q * l, l, q, 0);
  }

  lemma {:induction false} OffsetCount(es: seq<Entry>, l: nat)
    requires l > 0
    ensures var k := |OffsetList(es, l)|; k * l < |es| + l && |es| <= k * l
    decreases |es|
  {
    hide EntryPos;
    if es != [] {
      var n := |es| - 1;
      OffsetCount(es[..n], l);
      CountStep(n, |OffsetList(es[..n], l)|, l);
    }
  }

  /** One entry more, and one offset more if its index is a multiple of `l`. */
  lemma CountStep(n: nat, k: nat, l: nat)
    requires l > 0 && k * l < n + l && n <= k * l
    ensures var c := if n % l == 0 then k + 1 else k; c * l < n + 1 + l && n + 1 <= c * l
  {
    if n % l == 0 {
      assert (k + 1) * l == k * l + l;
      DivisibleGap(n, k, l);
    } else if k * l == n {
      ModMultiple(k, l);
      assert false;
    }
  }

  /** A multiple of `l` less than `l` below another one equals it. */
  lemma DivisibleGap(n: nat, k: nat, l: nat)
    requires l > 0 && n % l == 0 && n <= k * l < n + l
    ensures k * l == n
  {
    var q := n / l;
    assert n == q * l;
    FactorOrder(q, k, l);
    FactorOrder(k, q, l);
  }

  /** The noted offsets are the starts of the blocks a plain division of the entries gives. */
  lemma {:induction false} OffsetListIs(es: seq<Entry>, l: nat, b: nat)
    requires l > 0 && b < |OffsetList(es, l)|
    ensures b * l < |es| && OffsetList(es, l)[b] == EntryPos(es, b * l)
    decreases |es|
  {
    var n := |es| - 1;
    var init, k := es[..n], |OffsetList(es[..n], l)|;
    if b < k {
      OffsetListIs(init, l, b);
      assert es == init + [es[n]];
      EntryPosPrefix(init, [es[n]], b * l);
    } else {
      OffsetCount(init, l);
      DivisibleGap(n, k, l);
    }
  }

  /** For a complete list of entries they are the block starts, one for each block. */
  lemma OffsetListComplete(es: seq<Entry>)
    ensures var offs := OffsetList(es, BlockLength(|es|));
            |offs| == BlockCount(|es|) && forall b | 0 <= b < |offs| :: offs[b] == BlockOffset(es, b)
    ensures BlockOffset(es, BlockCount(|es|)) == TableStart(es)
  {
    hide BlockLength, BlockCount, BlockFirst, OffsetList, EntryPos;
    var n, l := |es|, BlockLength(|es|);
    CountOf(n, l);
    if n > 0 {
      BlockBounds(n, 0, BlockCount(n));
      var offs := OffsetList(es, l);
      OffsetCount(es, l);
      SameCount(n, |offs|, BlockCount(n), l);
      forall b | 0 <= b < |offs|
        ensures offs[b] == BlockOffset(es, b)
      {
        OffsetListIs(es, l, b);
        BlockBounds(n, b, b + 1);
      }
    } else {
      NoOffsets(es, l);
    }
  }

  lemma NoOffsets(es: seq<Entry>, l: nat)
    ensures es == [] ==> OffsetList(es, l) == [] && BlockOffset(es, 0) == TableStart(es)
  {
  }

  lemma SameCount(n: nat, k: nat, cnt: nat, l: nat)
    requires l > 0 && cnt > 0 && k * l < n + l && n <= k * l && (cnt - 1) * l < n <= cnt * l
    ensures k == cnt
  {
    FactorOrder(k, cnt, l);
    assert cnt * l == (cnt - 1) * l + l;
    FactorOrder(cnt, k, l);
  }

  function BlockOffset(es: seq<Entry>, b: nat): nat {
    EntryPos(es, BlockFirst(|es|, b))
  }

  function BlockSize(es: seq<Entry>, b: nat): (len: nat) {
    ProductMonotone(b, b + 1, BlockLength(|es|));
    EntryPosMonotone(es, BlockFirst(|es|, b), BlockFirst(|es|, b + 1));
    BlockOffset(es, b + 1) - BlockOffset(es, b)
  }

  // ---------- Bytes ----------

  function HeaderBytes(tableStart: nat, bloomStart: nat): (s: seq<Byte>)
    ensures |s| == HEADER_SIZE
  {
    MAGIC + Le(tableStart, 8) + Le(bloomStart, 8)
  }

  function BlockEntryBytes(offset: nat, length: nat): (s: seq<Byte>)
    ensures |s| == BLOCK_ENTRY_SIZE
  {
    Le(offset, 8) + Le(length, 8)
  }

  /** The first `k` entries of the block table. */
  function BlockEntries(es: seq<Entry>, k: nat): (s: seq<Byte>)
    ensures |s| == BLOCK_ENTRY_SIZE * k
  {
    if k == 0 then [] else BlockEntries(es, k - 1) + BlockEntryBytes(BlockOffset(es, k - 1), BlockSize(es, k - 1))
  }

  function TableBytes(es: seq<Entry>): (s: seq<Byte>)
    ensures |s| == 2 + BLOCK_ENTRY_SIZE * BlockCount(|es|)
  {
    Le(BlockCount(|es|), 2) + BlockEntries(es, BlockCount(|es|))
  }

  function BloomStart(es: seq<Entry>): nat {
    TableStart(es) + |TableBytes(es)|
  }

  /** Everything a finished dictionary holds. */
  datatype Image = Image(entries: seq<Entry>, nHashes: nat, buckets: seq<Word>)

  function ImageBytes(img: Image): (s: seq<Byte>)
    ensures |s| == BloomStart(img.entries) + |Bloom.FilterBytes(img.nHashes, img.buckets)|
  {
    assert img.entries[..|img.entries|] == img.entries;
    HeaderBytes(TableStart(img.entries), BloomStart(img.entries)) + DataBytes(img.entries)
    + TableBytes(img.entries) + Bloom.FilterBytes(img.nHashes, img.buckets)
  }

  /** What a finished writer guarantees about the dictionary it wrote. */
  ghost predicate WellFormed(img: Image) {
    var es := img.entries;
    && Sorted(es)
    && |es| < 0x8000_0000
    && (es != [] ==> img.buckets != [])
    && 32 * |img.buckets| < TWO_32 && img.nHashes < TWO_32
    && Bloom.BitsOf(img.buckets) == Bloom.AllBits(Keys(es), 32 * |img.buckets|, img.nHashes)
    && |ImageBytes(img)| < TWO_63
  }

  /** The limit under which the scan can step over an entry. */
  predicate Fits(e: Entry) {
    |EntryBytes(e)| < CHUNK_SIZE
  }

  lemma ImageParts(file: seq<Byte>, base: nat, img: Image)
    ensures At(file, base, ImageBytes(img)) <==>
            && At(file, base, HeaderBytes(TableStart(img.entries), BloomStart(img.entries)))
            && At(file, base + HEADER_SIZE, DataBytes(img.entries))
            && At(file, base + TableStart(img.entries), TableBytes(img.entries))
            && At(file, base + BloomStart(img.entries), Bloom.FilterBytes(img.nHashes, img.buckets))
  {
    hide At, DataBytes, TableBytes, HeaderBytes, Bloom.FilterBytes;
    var es := img.entries;
    assert es[..|es|] == es;
    var h, d, t := HeaderBytes(TableStart(es), BloomStart(es)), DataBytes(es), TableBytes(es);
    var f := Bloom.FilterBytes(img.nHashes, img.buckets);
    AtSplit(file, base, h + d + t, f);
    AtSplit(file, base, h + d, t);
    AtSplit(file, base, h, d);
  }

  lemma {:induction false} BlockEntryAt(file: seq<Byte>, off: nat, es: seq<Entry>, k: nat, b: nat)
    requires At(file, off, BlockEntries(es, k)) && b < k
    ensures At(file, off + BLOCK_ENTRY_SIZE * b, BlockEntryBytes(BlockOffset(es, b), BlockSize(es, b)))
    decreases k
  {
    hide BlockOffset, BlockSize, BlockEntryBytes;
    AtSplit(file, off, BlockEntries(es, k - 1), BlockEntryBytes(BlockOffset(es, k - 1), BlockSize(es, k - 1)));
    if b < k - 1 {
      BlockEntryAt(file, off, es, k - 1, b);
    }
  }
}
