/** A key that was never added can be reported: the scan of the last block runs on into the
    block table, where the low byte of the block's length followed by its zeros reads as a
    one-character key with an empty value. */
module DictionaryFalsePositive {
  import opened Bytes
  import opened CStrings
  import opened Words
  import opened DictionaryFormat
  import opened DictionaryScan
  import opened DictionaryReader
  import opened DictionaryTheorems
  import Bloom = BloomFilter
  import W = DictionaryWriter

  // ---------- The family: every dictionary of one short entry ----------

  lemma OneBlock(es: seq<Entry>)
    requires |es| == 1
    ensures BlockLength(1) == 1 && BlockCount(1) == 1 && BlockFirst(1, 0) == 0 && BlockFirst(1, 1) == 1
    ensures EntryPos(es, 0) == HEADER_SIZE && TableStart(es) == HEADER_SIZE + |EntryBytes(es[0])|
    ensures BlockOffset(es, 0) == HEADER_SIZE && BlockSize(es, 0) == |EntryBytes(es[0])|
  {
    assert CeilSqrt(0) == 0;
    assert es[..0] == [];
    EntryPosStep(es, 0);
  }

  /** The bytes of the table of one block of `l < 256` bytes. */
  lemma TableOfOne(es: seq<Entry>)
    requires |es| == 1 && |EntryBytes(es[0])| < 256
    ensures |TableBytes(es)| == 18
    ensures var t := TableBytes(es);
            && t[0] == 1 && t[1] == 0 && t[2] == 24 && t[3] == t[4] == t[5] == t[6] == t[7] == t[8] == t[9] == 0
            && t[10] == |EntryBytes(es[0])| && t[11] == t[12] == 0
  {
    OneBlock(es);
    var l := |EntryBytes(es[0])|;
    LeSmall(1, 2);
    LeSmall(24, 8);
    LeSmall(l, 8);
    hide Le, BlockOffset, BlockSize, BlockCount, EntryBytes;
    assert BlockEntries(es, 1) == BlockEntries(es, 0) + BlockEntryBytes(24, l);
    assert TableBytes(es) == Le(1, 2) + (Le(24, 8) + Le(l, 8));
  }

  lemma LeSmall(v: nat, k: nat)
    requires v < 256 && k > 0
    ensures Le(v, k)[0] == v && forall i | 0 < i < k :: Le(v, k)[i] == 0
  {
    forall i | 0 < i < k
      ensures Le(v, k)[i] == 0
    {
      DigitOfZero(i - 1);
    }
  }

  lemma {:induction false} DigitOfZero(i: nat)
    ensures Digit(0, i) == 0
  {
    if i > 0 { DigitOfZero(i - 1); }
  }

  /** The window of a dictionary of one entry shows the table behind the entry. */
  lemma WindowShowsTable(file: seq<Byte>, base: nat, img: Image, j: nat)
    requires Stored(file, base, img) && |img.entries| == 1 && |EntryBytes(img.entries[0])| < 256
    requires j < |TableBytes(img.entries)| == 18
    ensures var l := |EntryBytes(img.entries[0])|;
            Window(file, base + HEADER_SIZE)[l + j] == TableBytes(img.entries)[j]
  {
    hide Window, EntryBytes, TableBytes, ImageBytes, DataBytes, EntryPos, WellFormed;
    var es := img.entries;
    OneBlock(es);
    ImageParts(file, base, img);
    AtByte(file, base + TableStart(es), TableBytes(es), j);
  }

  /** The parse of those bytes, up to the low byte of the block length. */
  lemma ParseOfTable(w: seq<Byte>, l: nat, q: CString)
    requires |w| == CHUNK_SIZE + 1 && 3 <= l < 256 && q == [l]
    requires w[l] == 1 && w[l + 1] == 0 && w[l + 2] == 24
    requires w[l + 3] == w[l + 4] == w[l + 5] == w[l + 6] == w[l + 7] == w[l + 8] == w[l + 9] == 0
    requires w[l + 10] == l && w[l + 11] == 0
    ensures Parse(w, l, q) == Hit(l + 12)
  {
    hide Parse, NulFrom;
    PassedPair(w, l, l + 1, l + 3, q);
    PassedPair(w, l + 4, l + 4, l + 5, q);
    PassedPair(w, l + 6, l + 6, l + 7, q);
    PassedPair(w, l + 8, l + 8, l + 9, q);
    assert w[l + 10..l + 11] == q;
    OneHit(w, l + 10, q);
  }

  /** Two strings of which the first is not the key. */
  lemma PassedPair(w: seq<Byte>, p: nat, n: nat, v: nat, q: CString)
    requires |w| == CHUNK_SIZE + 1 && p <= n < v < CHUNK_SIZE - 1 && w[n] == 0 && w[v] == 0
    requires (forall i | p <= i < n :: w[i] != 0) && (forall i | n < i < v :: w[i] != 0)
    requires w[p..n] != q
    ensures Parse(w, p, q) == Parse(w, v + 1, q)
  {
    hide Parse, NulFrom;
    NulFromUnique(w, p, n);
    NulFromUnique(w, n + 1, v);
    ParseStep(w, p, q);
  }

  lemma OneHit(w: seq<Byte>, p: nat, q: CString)
    requires |w| == CHUNK_SIZE + 1 && p + 2 < CHUNK_SIZE && w[p] != 0 && w[p + 1] == 0 && q == w[p..p + 1]
    ensures Parse(w, p, q) == Hit(p + 2)
  {
    hide NulFrom;
    NulFromUnique(w, p, p + 1);
  }

  /** In every dictionary of one entry of 3 to 255 bytes, the one-character key that equals its
      size is reported with an empty value, provided it is not below the entry, is not the
      entry's own key, and passes the filter. */
  lemma SizeReportedAsKey(file: seq<Byte>, base: nat, img: Image, q: CString)
    requires Stored(file, base, img) && |img.entries| == 1
    requires 3 <= |EntryBytes(img.entries[0])| < 256 && q == [|EntryBytes(img.entries[0])|]
    requires Compare(img.entries[0].key, q) < 0 && MayContain(img, q)
    ensures q !in Keys(img.entries) && LookupEnds(img, q)
    ensures LookupText(file, base, img, q) == Found([])
  {
    hide MayContain, ImageBytes, DataBytes, EntryBytes, TableBytes, Window, Parse, LookupOffset, TextAt, Passable, WellFormed,
      EntryPos, Compare;
    var (es, l) := (img.entries, |EntryBytes(img.entries[0])|);
    OneBlock(es);
    CompareEq(es[0].key, q);
    TableOfOne(es);
    if BlockFor(es, q) > 0 {
      ShortPassable(es, q);
    }
    WindowOfOne(file, base, img, q);
    SingleBlockLookup(file, base, img, q, l + 12);
    ImageParts(file, base, img);
    AtByte(file, base + TableStart(es), TableBytes(es), 12);
    NulIsEmptyText(file, base + HEADER_SIZE + l + 12);
  }

  /** A short entry and a short key do not hold a scan up. */
  lemma ShortPassable(es: seq<Entry>, q: CString)
    requires |es| == 1 && |EntryBytes(es[0])| < 256 && |q| == 1 && BlockFor(es, q) > 0
    ensures Passable(es, BlockFirst(|es|, BlockFor(es, q) - 1), BlockFirst(|es|, BlockFor(es, q)), q)
  {
    hide EntryBytes, FirstMatch, BlockFor, BlockFirst;
  }

  lemma WindowOfOne(file: seq<Byte>, base: nat, img: Image, q: CString)
    requires Stored(file, base, img) && |img.entries| == 1
    requires 3 <= |EntryBytes(img.entries[0])| < 256 && q == [|EntryBytes(img.entries[0])|]
    ensures Parse(Window(file, base + HEADER_SIZE), |EntryBytes(img.entries[0])|, q) == Hit(|EntryBytes(img.entries[0])| + 12)
  {
    hide ImageBytes, DataBytes, EntryBytes, TableBytes, Window, Parse, WellFormed, EntryPos;
    var (es, l) := (img.entries, |EntryBytes(img.entries[0])|);
    TableOfOne(es);
    var w := Window(file, base + HEADER_SIZE);
    forall j | 0 <= j < 18
      ensures w[l + j] == TableBytes(es)[j]
    {
      WindowShowsTable(file, base, img, j);
    }
    assert w[l + 0] == 1;
    ParseOfTable(w, l, q);
  }

  lemma NulIsEmptyText(file: seq<Byte>, at: nat)
    requires at < |file| && file[at] == 0
    ensures TextAt(file, at) == Found([])
  {
    assert Slice(file, CHUNK_SIZE, at)[0] == 0;
  }

  lemma SingleBlockLookup(file: seq<Byte>, base: nat, img: Image, q: CString, v: nat)
    requires |img.entries| == 1 && img.entries[0].key != q
    requires Compare(img.entries[0].key, q) < 0 && MayContain(img, q)
    requires |EntryBytes(img.entries[0])| < 256
    requires Parse(Window(file, base + HEADER_SIZE), |EntryBytes(img.entries[0])|, q) == Hit(v)
    ensures LookupOffset(file, base, img, q) == HEADER_SIZE + v
  {
    hide Parse, Window, EntryBytes, MayContain, EntryPos, BlockLength, BlockCount, BlockFirst, Compare;
    var es := img.entries;
    OneBlock(es);
    SingleBlock(es, q);
    SingleWindow(file, base, es, q);
  }

  lemma SingleBlock(es: seq<Entry>, q: CString)
    requires |es| == 1 && Compare(es[0].key, q) < 0 && es[0].key != q
    ensures BlockFor(es, q) == 1 && FirstMatch(es, 0, q) == 1
  {
    OneBlock(es);
    assert StartsAtOrBelow(es, 0, q);
  }

  lemma SingleWindow(file: seq<Byte>, base: nat, es: seq<Entry>, q: CString)
    requires |es| == 1 && |EntryBytes(es[0])| < 256
    ensures Overrun(file, base, es, 0, 1, q) == TailHit(file, base, es, 0, q)
  {
    hide Parse, Window, EntryBytes;
    OneBlock(es);
    assert NextWindow(es, 0, 0) == 1;
  }

  // ---------- One member of the family ----------

  /** With 32 bits, the size for one key, positions depend on the hash pair modulo 32 only. */
  lemma {:induction false} PositionsModulo32(a: nat, b: nat, c: nat, d: nat, n: nat)
    requires a % 32 == c % 32 && b % 32 == d % 32
    ensures Bloom.FirstPositions(a, b, 32, n) == Bloom.FirstPositions(c, d, 32, n)
    decreases n
  {
    if n > 0 {
      PositionsModulo32(a, b, c, d, n - 1);
      PositionModulo32(a, b, c, d, n - 1);
    }
  }

  lemma {:induction false} PositionModulo32(a: nat, b: nat, c: nat, d: nat, i: nat)
    requires a % 32 == c % 32 && b % 32 == d % 32
    ensures Bloom.Position(a, b, 32, i) == Bloom.Position(c, d, 32, i)
    decreases i
  {
    if i > 0 {
      PositionModulo32(a, b, c, d, i - 1);
      var x := Bloom.Position(a, b, 32, i - 1);
      WrapModulo32(x + b);
      WrapModulo32(x + d);
      SumModulo32(x, b, d);
    }
  }

  lemma WrapModulo32(n: nat)
    ensures Wrap(n) % 32 == n % 32
  {
    var (q, w) := (n / TWO_32, n % TWO_32);
    ModUnique(n, 32, 134217728 * q + w / 32, w % 32);
  }

  lemma SumModulo32(x: nat, b: nat, d: nat)
    requires b % 32 == d % 32
    ensures (x + b) % 32 == (x + d) % 32
  {
    var y := x + b % 32;
    ModUnique(x + b, 32, b / 32 + y / 32, y % 32);
    ModUnique(x + d, 32, d / 32 + y / 32, y % 32);
  }

  const PERCENT: CString := [37]
  const LETTER_D: CString := [100]

  lemma Mixed(a: Word, a1: Word, s1: Word, a2: Word, a3: Word, s3: Word, a4: Word, r: Word)
    requires a1 == Wrap(a + Wrap(a * 8192)) && s1 == a1 / 128 && Xor(a1, s1) == a2
    requires a3 == Wrap(a2 + Wrap(a2 * 8)) && s3 == a3 / 131072 && Xor(a3, s3) == a4
    requires r == Wrap(a4 + Wrap(a4 * 32))
    ensures Bloom.FnvMix(a) == r
  {
    hide Xor, Wrap;
  }

  lemma FoldOne(c: Byte)
    ensures Bloom.FnvFold([c]) == Wrap(Xor(2166136261, Bloom.SignExtended(c)) * 16777619)
  {
    hide Xor;
    var s: seq<Byte> := [c];
    assert s[..0] == [];
  }

  lemma XorsOfPercent()
    ensures Xor(2166136261, 37) == 2166136288
    ensures Xor(2969601952, 23200015) == 2959247023 && Xor(863419431, 6587) == 863413660
    ensures Xor(1098893076, 8585102) == 1107114138 && Xor(1374092650, 10483) == 1374082457
  {
    assert ((2166136261 as bv32) ^ (37 as bv32)) as int == 2166136288;
    assert ((2969601952 as bv32) ^ (23200015 as bv32)) as int == 2959247023;
    assert ((863419431 as bv32) ^ (6587 as bv32)) as int == 863413660;
    assert ((1098893076 as bv32) ^ (8585102 as bv32)) as int == 1107114138;
    assert ((1374092650 as bv32) ^ (10483 as bv32)) as int == 1374082457;
  }

  lemma HashOfPercent()
    ensures Bloom.KeyHash(PERCENT) == 2722847004 && Bloom.Fnv1aB(2722847004) == 2395048121
  {
    hide Xor, Bloom.FnvMix, Bloom.FnvFold;
    XorsOfPercent();
    FoldOne(37);
    assert Wrap(2166136288 * 16777619) == 537692064 && Wrap(2722847004 * 16777619) == 2560444180;
    Mixed(537692064, 2969601952, 23200015, 2959247023, 863419431, 6587, 863413660, 2722847004);
    Mixed(2560444180, 1098893076, 8585102, 1107114138, 1374092650, 10483, 1374082457, 2395048121);
  }

  lemma XorsOfD()
    ensures Xor(2166136261, 100) == 2166136225
    ensures Xor(1704625267, 13317384) == 1699852667 && Xor(2413772115, 18415) == 2413787836
    ensures Xor(4045632628, 31606504) == 4039193244 && Xor(1993000828, 15205) == 1993014297
  {
    assert ((2166136261 as bv32) ^ (100 as bv32)) as int == 2166136225;
    assert ((1704625267 as bv32) ^ (13317384 as bv32)) as int == 1699852667;
    assert ((2413772115 as bv32) ^ (18415 as bv32)) as int == 2413787836;
    assert ((4045632628 as bv32) ^ (31606504 as bv32)) as int == 4039193244;
    assert ((1993000828 as bv32) ^ (15205 as bv32)) as int == 1993014297;
  }

  lemma HashOfD()
    ensures Bloom.KeyHash(LETTER_D) == 2345587260 && Bloom.Fnv1aB(2345587260) == 1344962361
  {
    hide Xor, Bloom.FnvMix, Bloom.FnvFold;
    XorsOfD();
    FoldOne(100);
    assert Wrap(2166136225 * 16777619) == 3775669363 && Wrap(2345587260 * 16777619) == 1385493620;
    Mixed(3775669363, 1704625267, 13317384, 1699852667, 2413772115, 18415, 2413787836, 2345587260);
    Mixed(1385493620, 4045632628, 31606504, 4039193244, 1993000828, 15205, 1993014297, 1344962361);
  }

  lemma XorsOfOthers()
    ensures Xor(2166136261, 102) == 2166136227 && Xor(3809224601, 111) == 3809224694
    ensures Xor(3207276610, 25056848) == 3193273874 && Xor(2969661090, 22656) == 2969646626
    ensures Xor(2166136261, 4294967240) == 2128830989
    ensures Xor(943864439, 7373940) == 942849539 && Xor(4190678555, 31972) == 4190687999
  {
    assert ((2166136261 as bv32) ^ (102 as bv32)) as int == 2166136227;
    assert ((3809224601 as bv32) ^ (111 as bv32)) as int == 3809224694;
    assert ((3207276610 as bv32) ^ (25056848 as bv32)) as int == 3193273874;
    assert ((2969661090 as bv32) ^ (22656 as bv32)) as int == 2969646626;
    assert ((2166136261 as bv32) ^ (4294967240 as bv32)) as int == 2128830989;
    assert ((943864439 as bv32) ^ (7373940 as bv32)) as int == 942849539;
    assert ((4190678555 as bv32) ^ (31972 as bv32)) as int == 4190687999;
  }

  /** Hashes of more than one character, and of a character from 128 on. The accumulator after "fo"
      is that of the published FNV-1a test vectors. */
  lemma HashOfOthers(fo: CString, high: CString)
    requires fo == [102, 111] && high == [200]
    ensures Bloom.FnvFold(fo) == 0x6222_E842 && Bloom.KeyHash(fo) == 3509058146 && Bloom.KeyHash(high) == 853750495
  {
    hide Xor, Bloom.FnvMix, Bloom.FnvFold, Wrap;
    var f: seq<Byte> := [102];
    XorsOfOthers();
    Bloom.FoldStep([], 0);
    Products();
    FoldTo([], 102, f, 2166136261, 102, 2166136227, 3809224601);
    FoldTo(f, 111, fo, 3809224601, 111, 3809224694, 1646454850);
    FoldTo([], 200, high, 2166136261, 4294967240, 2128830989, 3438500471);
    Mixed(1646454850, 3207276610, 25056848, 3193273874, 2969661090, 22656, 2969646626, 3509058146);
    Mixed(3438500471, 943864439, 7373940, 942849539, 4190678555, 31972, 4190687999, 853750495);
  }

  lemma Products()
    ensures Wrap(2166136227 * 16777619) == 3809224601 && Wrap(3809224694 * 16777619) == 1646454850
    ensures Wrap(2128830989 * 16777619) == 3438500471
    ensures 3207276610 == Wrap(1646454850 + Wrap(1646454850 * 8192)) && 25056848 == 3207276610 / 128
    ensures 2969661090 == Wrap(3193273874 + Wrap(3193273874 * 8)) && 22656 == 2969661090 / 131072
    ensures 3509058146 == Wrap(2969646626 + Wrap(2969646626 * 32))
    ensures 943864439 == Wrap(3438500471 + Wrap(3438500471 * 8192)) && 7373940 == 943864439 / 128
    ensures 4190678555 == Wrap(942849539 + Wrap(942849539 * 8)) && 31972 == 4190678555 / 131072
    ensures 853750495 == Wrap(4190687999 + Wrap(4190687999 * 32))
  {
  }

  lemma FoldTo(s: seq<Byte>, c: Byte, t: seq<Byte>, before: Word, extended: Word, x: Word, after: Word)
    requires Bloom.FnvFold(s) == before && t == s + [c] && extended == (if c < 128 then c else c + 4294967040)
    requires Xor(before, extended) == x && Wrap(x * 16777619) == after
    ensures Bloom.FnvFold(t) == after
  {
    hide Xor, Bloom.FnvFold;
    Bloom.FoldStep(s, c);
  }

  /** The two keys occupy the same bits of a filter sized for one key: 32 bits, 23 hashes. */
  lemma SameBits()
    ensures Bloom.KeyBits(LETTER_D, 32, 23) == Bloom.KeyBits(PERCENT, 32, 23)
  {
    hide Bloom.KeyHash, Bloom.Fnv1aB, Bloom.FirstPositions;
    HashOfPercent();
    HashOfD();
    PositionsModulo32(2345587260, 1344962361, 2722847004, 2395048121, 23);
  }

  /** A dictionary of the single entry "%" with a value of 97 bytes, which takes 100 bytes in
      all, built with the parameters the program computes for one key, reports the absent key
      "d" (byte 100) with an empty value. */
  method FalsePositiveWitness(file: File) returns (r: Text, absent: bool)
    modifies file
    ensures absent && r == Found([])
  {
    var value: CString := seq(97, _ => 120);
    var es := [Entry(PERCENT, value)];
    WitnessEntries(es);
    hide *;
    ghost var img;
    var outcome;
    outcome, r, img := BuildAndLookUp(es, 1, file, 10, 23, Zeros(HEADER_SIZE), LETTER_D);
    WitnessReported(file.bytes, img, value);
    absent := LETTER_D !in Keys(es);
  }

  /** They make a dictionary, and the lookup of "d" in it ends. */
  lemma WitnessEntries(es: seq<Entry>)
    requires |es| == 1 && |es[0].key| == 1 && |es[0].value| == 97
    ensures Accepted([], es) == es && RunOutcome(1, [], es) == W.Done && TableStart(es) == 124
    ensures KeyEnds(es, 10, 23, LETTER_D) && Align(10) == 32
  {
    hide Accepted, BlockFor, BlockFirst, Passable, Passes, Compare, EntryPos;
    OneBlock(es);
    SortedAccepted(es);
    if BlockFor(es, LETTER_D) > 0 {
      ShortPassable(es, LETTER_D);
    }
  }

  lemma WitnessReported(file: seq<Byte>, img: Image, value: CString)
    requires Stored(file, 0, img) && |value| == 97
    requires img.entries == [Entry(PERCENT, value)] && img.nHashes == 23 && |img.buckets| == 1
    ensures LookupText(file, 0, img, LETTER_D) == Found([]) && LETTER_D !in Keys(img.entries)
  {
    SameBits();
    AddedKeyMayBeContained(img, 0);
    assert MayContain(img, LETTER_D) by { hide Bloom.KeyBits, Bloom.BitsOf, Stored; }
    assert Compare(PERCENT, LETTER_D) < 0;
    hide Stored, MayContain, Compare, LookupText;
    SizeReportedAsKey(file, 0, img, LETTER_D);
  }
}
