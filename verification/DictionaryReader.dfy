/** The dictionary reader: Bloom filter, bisection over block start keys, linear scan. */
module DictionaryReader {
  import opened Bytes
  import opened CStrings
  import opened DictionaryFormat
  import opened DictionaryScan
  import Bloom = BloomFilter

  // ---------- What a lookup should find ----------

  /** The block starts with a key that is not above the given one. */
  predicate StartsAtOrBelow(es: seq<Entry>, b: nat, key: CString) {
    BlockFirst(|es|, b) < |es| && Compare(es[BlockFirst(|es|, b)].key, key) <= 0
  }

  /** One more than the last of the first `k` blocks that starts at or below the key; 0 if none does. */
  function BlocksUpTo(es: seq<Entry>, key: CString, k: nat): (c: nat)
    requires k <= BlockCount(|es|)
    ensures c <= k
    ensures c > 0 ==> StartsAtOrBelow(es, c - 1, key)
    ensures forall b | c <= b < k :: !StartsAtOrBelow(es, b, key)
  {
    if k == 0 then 0 else if StartsAtOrBelow(es, k - 1, key) then k else BlocksUpTo(es, key, k - 1)
  }

  /** The number of the block a key is looked for in, plus one; 0 if it is below all blocks. */
  function BlockFor(es: seq<Entry>, key: CString): (c: nat)
    ensures c <= BlockCount(|es|)
  {
    BlocksUpTo(es, key, BlockCount(|es|))
  }

  predicate MayContain(img: Image, key: CString) {
    img.buckets != [] && Bloom.KeyBits(key, 32 * |img.buckets|, img.nHashes) <= Bloom.BitsOf(img.buckets)
  }

  /** What a lookup of `key` reports, if it ends: the position of a value relative to the
      dictionary, or 0. */
  function LookupOffset(file: seq<Byte>, base: nat, img: Image, key: CString): nat {
    var es := img.entries;
    if !MayContain(img, key) || BlockFor(es, key) == 0 then 0 else
      var b := BlockFor(es, key) - 1;
      var m := FirstMatch(es, BlockFirst(|es|, b), key);
      if m < |es| then ValuePos(es, m)
      else Overrun(file, base, es, BlockFirst(|es|, b), BlockFirst(|es|, b + 1), key)
  }

  /** A scan of the entries [s, e) gets past what it has to step over: every entry before the
      first match fits a window, and so does the key if it is there. */
  predicate Passable(es: seq<Entry>, s: nat, e: nat, key: CString)
    requires s <= |es| && e <= |es|
  {
    var m := FirstMatch(es, s, key);
    && (forall x | s <= x < e && x < m :: Fits(es[x]))
    && (m < e ==> |key| + 1 < CHUNK_SIZE)
  }

  /** The lookup of `key` ends, because no block is scanned or the scan gets through. */
  predicate LookupEnds(img: Image, key: CString) {
    var es := img.entries;
    MayContain(img, key) && BlockFor(es, key) > 0 ==>
      Passable(es, BlockFirst(|es|, BlockFor(es, key) - 1), BlockFirst(|es|, BlockFor(es, key)), key)
  }

  /** The outcome of a lookup, or of reading a string: `Endless` if it never comes to an end. */
  datatype Text = Missing | Found(text: CString) | Endless

  function TextAt(file: seq<Byte>, at: nat): Text {
    var chunk := Slice(file, CHUNK_SIZE, at);
    if |CStringOf(chunk)| < |chunk| then Found(CStringOf(chunk)) else Endless
  }

  function LookupText(file: seq<Byte>, base: nat, img: Image, key: CString): Text {
    var at := LookupOffset(file, base, img, key);
    if !LookupEnds(img, key) then Endless else if at == 0 then Missing else TextAt(file, base + at)
  }

  // ---------- Block starts ----------

  /** Block starts are in order, so below one that is at or below the key all are. */
  lemma StartsDownward(es: seq<Entry>, b: nat, c: nat, key: CString)
    requires Sorted(es) && b < c < BlockCount(|es|) && StartsAtOrBelow(es, c, key)
    ensures StartsAtOrBelow(es, b, key)
  {
    BlockBounds(|es|, b, c);
    BlockBounds(|es|, c, c + 1);
    CompareTrans(es[BlockFirst(|es|, b)].key, es[BlockFirst(|es|, c)].key, key);
  }

  /** Bisection may stop at any boundary between a start at or below the key and one above. */
  lemma {:induction false} BoundaryIsBlockFor(es: seq<Entry>, key: CString, lo: nat, k: nat)
    requires Sorted(es) && lo <= k <= BlockCount(|es|)
    requires lo > 0 ==> StartsAtOrBelow(es, lo - 1, key)
    requires lo < k ==> !StartsAtOrBelow(es, lo, key)
    ensures BlocksUpTo(es, key, k) == lo
    decreases k
  {
    if lo < k {
      if StartsAtOrBelow(es, k - 1, key) {
        if lo < k - 1 {
          StartsDownward(es, lo, k - 1, key);
        }
        assert false;
      }
      BoundaryIsBlockFor(es, key, lo, k - 1);
    }
  }

  /** The truncated comparison of a block start with the key has the sign of the full one,
      however the key runs over into the value or the end of the file. */
  lemma ProbeIsCompare(file: seq<Byte>, base: nat, es: seq<Entry>, i: nat, key: CString)
    requires At(file, base + HEADER_SIZE, DataBytes(es)) && i < |es|
    ensures var probe := Padded(Slice(file, |key| + 1, base + EntryPos(es, i)), |key| + 1);
            StrNCmp(probe, Terminated(key)) > 0 <==> Compare(es[i].key, key) > 0
  {
    hide StrNCmp, Compare, DataBytes, EntryPos, At, Padded, Slice, NulFree;
    var at, k := base + EntryPos(es, i), es[i].key;
    EntryAt(file, base, es, i);
    AtSplit(file, at, Terminated(k), Terminated(es[i].value));
    PaddedRead(file, at, Terminated(k), |key| + 1);
    StrNCmpIsCompare(Padded(Slice(file, |key| + 1, at), |key| + 1), k, key);
  }

  lemma PaddedRead(file: seq<Byte>, at: nat, s: seq<Byte>, n: nat)
    requires At(file, at, s)
    ensures forall j | 0 <= j < |s| && j < n :: Padded(Slice(file, n, at), n)[j] == s[j]
  {
    forall j | 0 <= j < |s| && j < n
      ensures Padded(Slice(file, n, at), n)[j] == s[j]
    {
      AtByte(file, at, s, j);
    }
  }

  lemma ProbeBlock(file: seq<Byte>, base: nat, es: seq<Entry>, b: nat, key: CString)
    requires At(file, base + HEADER_SIZE, DataBytes(es)) && b < BlockCount(|es|)
    ensures var probe := Padded(Slice(file, |key| + 1, base + BlockOffset(es, b)), |key| + 1);
            StrNCmp(probe, Terminated(key)) > 0 <==> !StartsAtOrBelow(es, b, key)
  {
    hide StrNCmp, Slice, DataBytes, Compare, BlockCount, BlockLength, BlockFirst, EntryPos, Padded;
    BlockBounds(|es|, b, b + 1);
    ProbeIsCompare(file, base, es, BlockFirst(|es|, b), key);
  }

  /** A block table entry reads back as the block it describes. */
  lemma TableEntryRead(file: seq<Byte>, at: nat, es: seq<Entry>, n: nat, b: nat)
    requires At(file, at, BlockEntries(es, n)) && b < n
    requires BlockOffset(es, b) < TWO_64 && BlockSize(es, b) < TWO_64
    ensures var d := Slice(file, BLOCK_ENTRY_SIZE * n, at);
            && |d| == BLOCK_ENTRY_SIZE * n
            && FromLe(d[16 * b..16 * b + 8]) == BlockOffset(es, b)
            && FromLe(d[16 * b + 8..16 * b + 16]) == BlockSize(es, b)
  {
    hide BlockOffset, BlockSize, FromLe, Le;
    var o, z := BlockOffset(es, b), BlockSize(es, b);
    BlockEntryAt(file, at, es, n, b);
    AtSplit(file, at + 16 * b, Le(o, 8), Le(z, 8));
    SlicePart(file, at, 16 * n, 16 * b, 8);
    SlicePart(file, at, 16 * n, 16 * b + 8, 8);
    AtSlice(file, at + 16 * b, Le(o, 8));
    AtSlice(file, at + 16 * b + 8, Le(z, 8));
    Le8(o);
    Le8(z);
  }

  lemma TableStartSmall(img: Image)
    requires WellFormed(img)
    ensures TableStart(img.entries) < TWO_64
  {
    hide Sorted, DataBytes, TableBytes, Bloom.AllBits, Bloom.BitsOf, Bloom.FilterBytes, HeaderBytes;
    var es := img.entries;
    assert es[..|es|] == es;
  }

  lemma BlocksInside(es: seq<Entry>, b: nat)
    requires b < BlockCount(|es|)
    ensures BlockFirst(|es|, b) < BlockFirst(|es|, b + 1) <= |es|
    ensures BlockOffset(es, b) + BlockSize(es, b) == BlockOffset(es, b + 1) <= TableStart(es)
    ensures BlockOffset(es, b) == EntryPos(es, BlockFirst(|es|, b))
    ensures BlockOffset(es, b + 1) == EntryPos(es, BlockFirst(|es|, b + 1))
  {
    BlockBounds(|es|, b, b + 1);
    EntryPosMonotone(es, BlockFirst(|es|, b + 1), |es|);
  }

  /** The count field in front of the table, and the entries behind it. */
  lemma CountRead(file: seq<Byte>, at: nat, es: seq<Entry>, n: nat)
    requires At(file, at, TableBytes(es)) && n == BlockCount(|es|)
    ensures At(file, at, Le(n, 2))
    ensures At(file, at + 2, BlockEntries(es, n))
  {
    AtSplit(file, at, Le(n, 2), BlockEntries(es, n));
  }

  lemma CountValue(file: seq<Byte>, at: nat, n: nat)
    requires At(file, at, Le(n, 2)) && n < 65536
    ensures |Slice(file, 2, at)| == 2 && FromLe(Slice(file, 2, at)) == n
  {
    AtSlice(file, at, Le(n, 2));
    Le2(n);
  }

  // ---------- The scan of one block ----------

  /** What a scan of the entries [s, e) reports: the first entry with the key, or, for a key
      that is nowhere behind `s`, what the bytes behind the data add. */
  ghost predicate Answer(file: seq<Byte>, base: nat, es: seq<Entry>, s: nat, e: nat, key: CString, at: nat)
    requires s <= |es| && e <= |es|
  {
    var m := FirstMatch(es, s, key);
    && (m < e ==> at == ValuePos(es, m))
    && (m == |es| ==> at == Overrun(file, base, es, s, e, key))
  }

  /** Between two windows: everything before entry `i` has been compared, and the next window
      starts at an entry boundary or behind the data. */
  ghost predicate Scanned(file: seq<Byte>, base: nat, es: seq<Entry>, s: nat, e: nat, key: CString, i: nat, offs: nat) {
    && s <= i <= |es| && e <= |es|
    && i <= FirstMatch(es, s, key) == FirstMatch(es, i, key)
    && (offs == EntryPos(es, i) || (i == |es| && offs >= EntryPos(es, e)))
    && (FirstMatch(es, s, key) == |es| ==>
          Overrun(file, base, es, s, e, key) == (if i < |es| then Overrun(file, base, es, i, e, key) else 0))
  }

  lemma ScanStart(file: seq<Byte>, base: nat, es: seq<Entry>, s: nat, e: nat, key: CString)
    requires s < e <= |es|
    ensures Scanned(file, base, es, s, e, key, s, EntryPos(es, s))
  {
  }

  lemma ScanPosition(file: seq<Byte>, base: nat, es: seq<Entry>, s: nat, e: nat, key: CString, i: nat, offs: nat)
    requires Scanned(file, base, es, s, e, key, i, offs) && offs < EntryPos(es, e)
    ensures i < e && offs == EntryPos(es, i)
  {
    if e <= i {
      EntryPosMonotone(es, e, i);
      assert false;
    }
  }

  /** A match in a window answers the lookup. */
  lemma ScanHit(file: seq<Byte>, base: nat, es: seq<Entry>, s: nat, e: nat, key: CString, i: nat, offs: nat, v: nat)
    requires At(file, base + HEADER_SIZE, DataBytes(es)) && s <= |es| && e <= |es| && Passable(es, s, e, key)
    requires Scanned(file, base, es, s, e, key, i, offs) && offs < EntryPos(es, e)
    requires Parse(Window(file, base + offs), 0, key) == Hit(v)
    ensures Answer(file, base, es, s, e, key, offs + v)
  {
    hide At, Parse, Window, DataBytes, EntryPos, Fits, TailHit, NextWindow, FirstMatch, Overrun, Passable;
    ScanPosition(file, base, es, s, e, key, i, offs);
    WindowScan(file, base, es, i, key);
    PassableHere(es, s, e, key, i);
    if FirstMatch(es, i, key) == |es| {
      FitsPassed(es, i);
      OverrunStep(file, base, es, i, e, key);
    }
  }

  /** The entry a window starts with can be stepped over, or it is the match and its key fits. */
  lemma PassableHere(es: seq<Entry>, s: nat, e: nat, key: CString, i: nat)
    requires s <= i < e <= |es| && Passable(es, s, e, key) && i <= FirstMatch(es, s, key)
    ensures if i < FirstMatch(es, s, key) then Fits(es[i]) else ValuePos(es, i) < EntryPos(es, i) + CHUNK_SIZE
  {
    hide Fits, EntryPos;
  }

  /** An entry that fits is passed by the window that starts with it. */
  lemma FitsPassed(es: seq<Entry>, i: nat)
    requires i < |es|
    ensures Fits(es[i]) <==> i < NextWindow(es, i, i)
  {
    hide EntryPos, EntryBytes;
    EntryPosStep(es, i);
  }

  lemma OverrunStep(file: seq<Byte>, base: nat, es: seq<Entry>, i: nat, e: nat, key: CString)
    requires i < e <= |es| && i < NextWindow(es, i, i)
    ensures var j := NextWindow(es, i, i);
            Overrun(file, base, es, i, e, key)
            == if j < |es| then Overrun(file, base, es, j, e, key) else TailHit(file, base, es, i, key)
  {
  }

  /** A window without a match ends on a later entry boundary, or behind the data. */
  lemma WindowResumed(file: seq<Byte>, base: nat, es: seq<Entry>, e: nat, key: CString, i: nat, p: nat)
    requires At(file, base + HEADER_SIZE, DataBytes(es)) && i < e <= |es|
    requires if i < FirstMatch(es, i, key) then Fits(es[i]) else ValuePos(es, i) < EntryPos(es, i) + CHUNK_SIZE
    requires Parse(Window(file, base + EntryPos(es, i)), 0, key) == Resume(p)
    ensures var (j, at) := (NextWindow(es, i, i), EntryPos(es, i) + p);
            && p > 0 && i < j <= FirstMatch(es, i, key)
            && (at == EntryPos(es, j) || (j == |es| && at >= EntryPos(es, e)))
            && (FirstMatch(es, i, key) == |es| ==>
                  Overrun(file, base, es, i, e, key) == (if j < |es| then Overrun(file, base, es, j, e, key) else 0))
  {
    hide At, Parse, Window, DataBytes, EntryPos, Fits, TailHit, NextWindow, FirstMatch, Overrun;
    WindowScan(file, base, es, i, key);
    FitsPassed(es, i);
    EntryPosMonotone(es, i, NextWindow(es, i, i));
    if i < NextWindow(es, i, i) {
      OverrunStep(file, base, es, i, e, key);
    }
    EntryPosMonotone(es, e, |es|);
  }

  /** Without a match the scan moves on to a later entry boundary. */
  lemma ScanResume(file: seq<Byte>, base: nat, es: seq<Entry>, s: nat, e: nat, key: CString, i: nat, offs: nat, p: nat)
    requires At(file, base + HEADER_SIZE, DataBytes(es)) && s <= |es| && e <= |es| && Passable(es, s, e, key)
    requires Scanned(file, base, es, s, e, key, i, offs) && offs < EntryPos(es, e)
    requires Parse(Window(file, base + offs), 0, key) == Resume(p)
    ensures p > 0 && i < |es| && Scanned(file, base, es, s, e, key, NextWindow(es, i, i), offs + p)
  {
    hide At, Parse, Window, DataBytes, EntryPos, Fits, TailHit, NextWindow, FirstMatch, Overrun, Passable;
    ScanPosition(file, base, es, s, e, key, i, offs);
    PassableHere(es, s, e, key, i);
    WindowResumed(file, base, es, e, key, i, p);
    FirstMatchSkip(es, i, NextWindow(es, i, i), key);
  }

  lemma ScanEnd(file: seq<Byte>, base: nat, es: seq<Entry>, s: nat, e: nat, key: CString, i: nat, offs: nat)
    requires Scanned(file, base, es, s, e, key, i, offs) && offs >= EntryPos(es, e)
    requires s < e
    ensures Answer(file, base, es, s, e, key, 0)
  {
    if i < e {
      EntryPosMonotone(es, i, e);
      assert false;
    }
  }

  // ---------- When the scan ends ----------

  /** A scan between two rounds of its outer loop, or with its answer. */
  datatype Progress = Going(offs: nat) | Answered(at: nat)

  function OneRound(file: seq<Byte>, base: nat, offs: nat, end: nat, key: CString): Progress {
    if offs >= end then Answered(0) else
      match Parse(Window(file, base + offs), 0, key)
      case Hit(v) => Answered(offs + v)
      case Resume(p) => Going(offs + p)
  }

  /** The scan after `n` rounds. */
  function Rounds(file: seq<Byte>, base: nat, start: nat, end: nat, key: CString, n: nat): Progress {
    if n == 0 then Going(start) else
      match Rounds(file, base, start, end, key, n - 1)
      case Going(offs) => OneRound(file, base, offs, end, key)
      case done => done
  }

  /** If it gets through, it ends, with the answer. */
  lemma {:induction false} PassableEnds(file: seq<Byte>, base: nat, es: seq<Entry>, s: nat, e: nat, key: CString,
                                        i: nat, offs: nat, k: nat) returns (n: nat, at: nat)
    requires At(file, base + HEADER_SIZE, DataBytes(es)) && s < e <= |es| && Passable(es, s, e, key)
    requires Scanned(file, base, es, s, e, key, i, offs)
    requires Rounds(file, base, EntryPos(es, s), EntryPos(es, e), key, k) == Going(offs)
    ensures Rounds(file, base, EntryPos(es, s), EntryPos(es, e), key, n) == Answered(at) && Answer(file, base, es, s, e, key, at)
    decreases if offs < EntryPos(es, e) then EntryPos(es, e) - offs else 0
  {
    hide At, Parse, Window, DataBytes, EntryPos, NextWindow, FirstMatch, Passable, Scanned, Answer;
    n := k + 1;
    if offs >= EntryPos(es, e) {
      at := 0;
      ScanEnd(file, base, es, s, e, key, i, offs);
    } else {
      match Parse(Window(file, base + offs), 0, key) {
        case Hit(v) =>
          at := offs + v;
          ScanHit(file, base, es, s, e, key, i, offs, v);
        case Resume(p) =>
          ScanResume(file, base, es, s, e, key, i, offs, p);
          n, at := PassableEnds(file, base, es, s, e, key, NextWindow(es, i, i), offs + p, k + 1);
      }
    }
  }

  /** The entry a scan cannot get past, which is not behind the first match. */
  predicate Blocked(es: seq<Entry>, s: nat, e: nat, key: CString, x: nat)
    requires s <= |es| && e <= |es|
  {
    && s <= x < e && x <= FirstMatch(es, s, key) && !Fits(es[x])
    && (x == FirstMatch(es, s, key) ==> |key| + 1 >= CHUNK_SIZE)
  }

  lemma NotPassableBlocked(es: seq<Entry>, s: nat, e: nat, key: CString) returns (x: nat)
    requires s < e <= |es| && !Passable(es, s, e, key)
    ensures Blocked(es, s, e, key, x)
  {
    var m := FirstMatch(es, s, key);
    if y :| s <= y < e && y < m && !Fits(es[y]) {
      x := y;
    } else {
      x := m;
    }
  }

  /** A window that starts at or before such an entry leads to an entry that is not behind it. */
  lemma BlockedRound(file: seq<Byte>, base: nat, es: seq<Entry>, s: nat, e: nat, key: CString, x: nat, i: nat)
      returns (j: nat)
    requires At(file, base + HEADER_SIZE, DataBytes(es)) && s <= i <= x && s < e <= |es| && Blocked(es, s, e, key, x)
    ensures i <= j <= x
    ensures OneRound(file, base, EntryPos(es, i), EntryPos(es, e), key) == Going(EntryPos(es, j))
  {
    hide At, Parse, Window, DataBytes, EntryPos, NextWindow, FirstMatch, EntryBytes;
    j := NextWindow(es, i, i);
    WindowScan(file, base, es, i, key);
    FirstMatchSkip(es, s, i, key);
    EntryPosStep(es, x);
    EntryPosMonotone(es, i, x);
    EntryPosMonotone(es, i, e);
    EntryPosMonotone(es, i, j);
    if x < j {
      EntryPosMonotone(es, x + 1, j);
      assert false;
    }
    EntryPosMonotone(es, j, x);
    EntryPosMonotone(es, x + 1, e);
  }

  /** Then the scan goes on for ever. */
  lemma {:induction false} BlockedGoesOn(file: seq<Byte>, base: nat, es: seq<Entry>, s: nat, e: nat, key: CString, x: nat, n: nat)
      returns (i: nat)
    requires At(file, base + HEADER_SIZE, DataBytes(es)) && s < e <= |es| && Blocked(es, s, e, key, x)
    ensures s <= i <= x && Rounds(file, base, EntryPos(es, s), EntryPos(es, e), key, n) == Going(EntryPos(es, i))
  {
    hide At, DataBytes, EntryPos, FirstMatch, OneRound, Blocked;
    i := s;
    if n == 0 {
      BlockedInside(es, s, e, key, x);
    } else {
      var k := BlockedGoesOn(file, base, es, s, e, key, x, n - 1);
      i := BlockedRound(file, base, es, s, e, key, x, k);
    }
  }

  lemma BlockedInside(es: seq<Entry>, s: nat, e: nat, key: CString, x: nat)
    requires s <= |es| && e <= |es| && Blocked(es, s, e, key, x)
    ensures s <= x < e
  {
  }

  /** Exactly when the scan of a block ends: after some round, or after none. */
  lemma ScanEndsExactly(file: seq<Byte>, base: nat, es: seq<Entry>, s: nat, e: nat, key: CString)
    requires At(file, base + HEADER_SIZE, DataBytes(es)) && s < e <= |es|
    ensures Passable(es, s, e, key)
       <==> exists n :: Rounds(file, base, EntryPos(es, s), EntryPos(es, e), key, n).Answered?
  {
    hide At, DataBytes, EntryPos, FirstMatch, OneRound, Blocked, Passable, Scanned, Answer;
    if Passable(es, s, e, key) {
      ScanStart(file, base, es, s, e, key);
      var n, at := PassableEnds(file, base, es, s, e, key, s, EntryPos(es, s), 0);
    } else {
      var x := NotPassableBlocked(es, s, e, key);
      forall n: nat
        ensures Rounds(file, base, EntryPos(es, s), EntryPos(es, e), key, n).Going?
      {
        var i := BlockedGoesOn(file, base, es, s, e, key, x, n);
      }
    }
  }

  // ---------- The reader ----------

  class Dictionary {
    const fd: File
    const offset: nat
    const blockTableStart: nat
    const bloomFilter: Bloom.BloomFilter?

    constructor (fd: File, offset: nat, blockTableStart: nat, bloomFilter: Bloom.BloomFilter?)
      ensures this.fd == fd && this.offset == offset
      ensures this.blockTableStart == blockTableStart && this.bloomFilter == bloomFilter
    {
      this.fd, this.offset, this.blockTableStart, this.bloomFilter := fd, offset, blockTableStart, bloomFilter;
    }

    /** The fields are those of a header, and the filter is what the file has at its place. */
    ghost predicate ReadFrom(header: seq<Byte>)
      requires |header| == HEADER_SIZE
      reads this, fd, bloomFilter, if bloomFilter == null then {} else {bloomFilter.buckets}
    {
      && blockTableStart == FromLe(header[8..16])
      && (bloomFilter == null <==> FromLe(header[16..24]) == 0)
      && (bloomFilter != null ==> bloomFilter.ReadFrom(fd.bytes, offset + FromLe(header[16..24])))
    }

    /** The dictionary `img` is stored at `offset`, whatever surrounds it in the file, and this
        reader has opened it. */
    ghost predicate Opened(img: Image)
      reads fd, bloomFilter, if bloomFilter == null then {} else {bloomFilter.buckets}
    {
      && At(fd.bytes, offset, ImageBytes(img)) && WellFormed(img)
      && blockTableStart == TableStart(img.entries)
      && bloomFilter != null && bloomFilter.Valid()
      && bloomFilter.nHashes == img.nHashes && bloomFilter.buckets[..] == img.buckets
    }

    /** Whether the start key of a block compares greater, as far as it is read. */
    method StartsAbove(blocks: seq<Byte>, mid: nat, key: CString, ghost img: Image) returns (above: bool)
      requires Opened(img) && mid < BlockCount(|img.entries|)
      requires blocks == Slice(fd.bytes, BLOCK_ENTRY_SIZE * BlockCount(|img.entries|), offset + blockTableStart + 2)
      ensures above <==> !StartsAtOrBelow(img.entries, mid, key)
    {
      hide BlockCount, BlockLength, BlockFirst, EntryPos, ImageBytes, TableBytes, DataBytes, FromLe, StartsAtOrBelow,
        StrNCmp, BlockOffset, BlockSize, WellFormed, NulFree, Bloom.FilterBytes;
      BlockDecoded(img, blocks, mid);
      ImageParts(fd.bytes, offset, img);
      ProbeBlock(fd.bytes, offset, img.entries, mid, key);
      var keySize := |key| + 1;
      var blockOffs := FromLe(blocks[16 * mid..16 * mid + 8]);
      var chunkKey := Padded(fd.Pread(keySize, offset + blockOffs), keySize);
      above := StrNCmp(chunkKey, Terminated(key)) > 0;
    }

    lemma OpenedSorted(img: Image)
      requires Opened(img)
      ensures Sorted(img.entries)
    {
      hide ImageBytes, Sorted, Bloom.AllBits, Bloom.BitsOf;
    }

    /** The block table: how many entries it has, and their bytes. */
    method ReadBlockTable(ghost img: Image) returns (nBlocks: nat, blocks: seq<Byte>)
      requires Opened(img)
      ensures nBlocks == BlockCount(|img.entries|)
      ensures blocks == Slice(fd.bytes, BLOCK_ENTRY_SIZE * nBlocks, offset + blockTableStart + 2)
    {
      hide BlockCount, BlockLength, ImageBytes, TableBytes, DataBytes, FromLe, Slice, Bloom.AllBits, BlockEntries;
      ghost var n := BlockCount(|img.entries|);
      ImageParts(fd.bytes, offset, img);
      CountRead(fd.bytes, offset + blockTableStart, img.entries, n);
      BlockCountFits(|img.entries|);
      CountValue(fd.bytes, offset + blockTableStart, n);
      nBlocks := FromLe(fd.Pread(2, offset + blockTableStart));
      blocks := fd.Pread(BLOCK_ENTRY_SIZE * nBlocks, offset + blockTableStart + 2);
    }

    /** The last block whose start key is at or below the key. */
    method FindBlock(key: CString, ghost img: Image) returns (found: bool, blockOffset: nat, blockLength: nat)
      requires Opened(img)
      ensures found <==> BlockFor(img.entries, key) > 0
      ensures found ==> blockOffset == BlockOffset(img.entries, BlockFor(img.entries, key) - 1)
      ensures found ==> blockLength == BlockSize(img.entries, BlockFor(img.entries, key) - 1)
    {
      hide BlockCount, BlockLength, ImageBytes, TableBytes, DataBytes, FromLe, StartsAtOrBelow, BlocksUpTo, StrNCmp,
        Slice, BlockOffset, BlockSize, Bloom.AllBits, Opened;
      ghost var es := img.entries;
      OpenedSorted(img);
      var nBlocks, blocks := ReadBlockTable(img);
      var lo: int := 0;
      var hi: int := (nBlocks as int) - 1;
      while lo <= hi
        invariant 0 <= lo <= hi + 1 <= nBlocks
        invariant lo > 0 ==> StartsAtOrBelow(es, lo - 1, key)
        invariant hi + 1 < nBlocks ==> !StartsAtOrBelow(es, hi + 1, key)
        decreases hi + 1 - lo
      {
        var mid := (lo + hi) / 2;
        var above := StartsAbove(blocks, mid, key, img);
        if above {
          hi := mid - 1;
        } else {
          lo := mid + 1;
        }
      }
      BoundaryIsBlockFor(es, key, lo, nBlocks);
      if lo <= 0 || hi > nBlocks - 1 {
        return false, 0, 0;
      }
      BlockDecoded(img, blocks, lo - 1);
      var at := BLOCK_ENTRY_SIZE * (lo - 1);
      return true, FromLe(blocks[at..at + 8]), FromLe(blocks[at + 8..at + 16]);
    }

    lemma BlockDecoded(img: Image, blocks: seq<Byte>, b: nat)
      requires Opened(img) && b < BlockCount(|img.entries|)
      requires blocks == Slice(fd.bytes, BLOCK_ENTRY_SIZE * BlockCount(|img.entries|), offset + blockTableStart + 2)
      ensures |blocks| == BLOCK_ENTRY_SIZE * BlockCount(|img.entries|)
      ensures FromLe(blocks[16 * b..16 * b + 8]) == BlockOffset(img.entries, b)
      ensures FromLe(blocks[16 * b + 8..16 * b + 16]) == BlockSize(img.entries, b)
    {
      hide At, Le, FromLe, BlockCount, BlockLength, BlockEntries, Slice, BlockOffset, BlockSize, EntryPos, DataBytes,
        ImageBytes, TableBytes, BlockFirst, Bloom.FilterBytes, Bloom.AllBits, Bloom.BitsOf, Sorted,
        TableStart, BloomStart;
      ImageParts(fd.bytes, offset, img);
      CountRead(fd.bytes, offset + blockTableStart, img.entries, BlockCount(|img.entries|));
      BlocksInside(img.entries, b);
      TableStartSmall(img);
      TableEntryRead(fd.bytes, offset + blockTableStart + 2, img.entries, BlockCount(|img.entries|), b);
    }

    /** One read of the scan. */
    method ReadChunk(at: nat) returns (chunk: seq<Byte>)
      ensures chunk == Window(fd.bytes, at)
    {
      chunk := Padded(fd.Pread(CHUNK_SIZE, at), CHUNK_SIZE + 1);
    }

    /** The linear scan of a block, window by window, where it ends. */
    method LookupKeyInBlock(blockOffset: nat, blockLength: nat, key: CString, ghost img: Image, ghost b: nat)
        returns (at: nat, ghost rounds: nat)
      requires Opened(img) && b < BlockCount(|img.entries|)
      requires blockOffset == BlockOffset(img.entries, b) && blockLength == BlockSize(img.entries, b)
      requires Passable(img.entries, BlockFirst(|img.entries|, b), BlockFirst(|img.entries|, b + 1), key)
      ensures Answer(fd.bytes, offset, img.entries, BlockFirst(|img.entries|, b), BlockFirst(|img.entries|, b + 1), key, at)
      ensures Rounds(fd.bytes, offset, blockOffset, blockOffset + blockLength, key, rounds) == Answered(at)
    {
      hide Passable, Answer, Rounds, ImageBytes, DataBytes, EntryPos, WellFormed;
      BlocksInside(img.entries, b);
      ImageParts(fd.bytes, offset, img);
      ghost var (s, e) := (BlockFirst(|img.entries|, b), BlockFirst(|img.entries|, b + 1));
      at, rounds := ScanEntries(blockOffset, blockOffset + blockLength, key, img.entries, s, e);
    }

    method ScanEntries(start: nat, end: nat, key: CString, ghost es: seq<Entry>, ghost s: nat, ghost e: nat)
        returns (at: nat, ghost rounds: nat)
      requires At(fd.bytes, offset + HEADER_SIZE, DataBytes(es))
      requires s < e <= |es| && start == EntryPos(es, s) && end == EntryPos(es, e) && Passable(es, s, e, key)
      ensures Answer(fd.bytes, offset, es, s, e, key, at)
      ensures Rounds(fd.bytes, offset, start, end, key, rounds) == Answered(at)
    {
      hide EntryPos, DataBytes, FirstMatch, NextWindow, Parse, Window, Scanned, Answer, Passable;
      var offs := start;
      ghost var i := s;
      rounds := 0;
      ScanStart(fd.bytes, offset, es, s, e, key);
      while offs < end
        invariant Scanned(fd.bytes, offset, es, s, e, key, i, offs)
        invariant Rounds(fd.bytes, offset, start, end, key, rounds) == Going(offs)
        decreases end - offs
      {
        rounds := rounds + 1;
        var chunk := ReadChunk(offset + offs);
        var r := ScanWindow(chunk, key);
        match r {
          case Hit(value) =>
            ScanHit(fd.bytes, offset, es, s, e, key, i, offs, value);
            return offs + value, rounds;
          case Resume(entry) =>
            ScanResume(fd.bytes, offset, es, s, e, key, i, offs, entry);
            offs := offs + entry;
            i := NextWindow(es, i, i);
        }
      }
      ScanEnd(fd.bytes, offset, es, s, e, key, i, offs);
      return 0, rounds + 1;
    }

    /** The position of the value stored for a key, or 0. */
    method LookupKeyOffset(key: CString, ghost img: Image) returns (at: nat)
      requires Opened(img) && LookupEnds(img, key)
      ensures at == LookupOffset(fd.bytes, offset, img, key)
    {
      hide BlockFor, FirstMatch, Overrun, Answer, Passable, Rounds, BlockFirst, BlockCount, BlockLength, BlockOffset, BlockSize,
        ImageBytes, EntryPos, Bloom.AllBits, Bloom.KeyBits, Bloom.BitsOf;
      if bloomFilter != null {
        var possible := bloomFilter.Test(key);
        if !possible {
          return 0;
        }
      }
      var found, blockOffset, blockLength := FindBlock(key, img);
      if !found {
        return 0;
      }
      ghost var b := BlockFor(img.entries, key) - 1;
      ghost var rounds;
      at, rounds := LookupKeyInBlock(blockOffset, blockLength, key, img, b);
      ScannedBlockAnswers(fd.bytes, offset, img.entries, key, at);
    }

    /** The value stored for a key. */
    method LookupKey(key: CString, ghost img: Image) returns (r: Text)
      requires Opened(img) && LookupEnds(img, key)
      ensures r == LookupText(fd.bytes, offset, img, key)
    {
      hide LookupOffset, LookupEnds, TextAt, WellFormed, ImageBytes, TableStart;
      var valueOffset := LookupKeyOffset(key, img);
      if valueOffset == 0 {
        return Missing;
      }
      var reading := ReadCString(fd, offset + valueOffset, 1);
      ReadsExactly(fd.bytes, offset + valueOffset, 1);
      r := match reading case Stopped(text) => Found(text) case Reading(_) => Endless;
    }
  }

  // ---------- Reading a string ----------

  /** The loop that reads a string: with what it has collected, or stopped. */
  datatype Collecting = Reading(collected: seq<Byte>) | Stopped(text: CString)

  /** The loop after `n` rounds. It never advances its offset. */
  function ReadRounds(file: seq<Byte>, at: nat, n: nat): Collecting {
    if n == 0 then Reading([]) else
      match ReadRounds(file, at, n - 1)
      case Reading(s) =>
        var chunk := Slice(file, CHUNK_SIZE, at);
        if |CStringOf(chunk)| < |chunk| then Stopped(CStringOf(s + chunk)) else Reading(s + chunk)
      case stopped => stopped
  }

  /** The loop, for at most `rounds` rounds. */
  method ReadCString(fd: File, at: nat, rounds: nat) returns (r: Collecting)
    ensures r == ReadRounds(fd.bytes, at, rounds)
  {
    hide CStringOf;
    r := Reading([]);
    for n := 0 to rounds
      invariant r == ReadRounds(fd.bytes, at, n)
    {
      if r.Reading? {
        var chunk := fd.Pread(CHUNK_SIZE, at);
        var text := r.collected + chunk;
        r := if |CStringOf(chunk)| < |chunk| then Stopped(CStringOf(text)) else Reading(text);
      }
    }
  }

  /** It stops in its first round, with the string up to the first NUL, if the first read has a
      NUL; otherwise it has not stopped after any number of rounds. */
  lemma {:induction false} ReadsExactly(file: seq<Byte>, at: nat, n: nat)
    ensures n > 0 && TextAt(file, at).Found? ==> ReadRounds(file, at, n) == Stopped(TextAt(file, at).text)
    ensures !TextAt(file, at).Found? ==> TextAt(file, at) == Endless && ReadRounds(file, at, n).Reading?
  {
    hide CStringOf, Slice;
    if n > 0 {
      ReadsExactly(file, at, n - 1);
      var chunk := Slice(file, CHUNK_SIZE, at);
      assert [] + chunk == chunk;
    }
  }

  // ---------- Opening ----------

  /** What the header structure holds after the read: the read may be short at the end of the
      file, and then leaves the rest of the memory as it was. */
  function HeaderRead(file: seq<Byte>, offset: nat, memory: seq<Byte>): (h: seq<Byte>)
    requires |memory| == HEADER_SIZE
    ensures |h| == HEADER_SIZE
  {
    var got := Slice(file, HEADER_SIZE, offset);
    got + memory[|got|..]
  }

  lemma HeaderReadByte(file: seq<Byte>, offset: nat, memory: seq<Byte>, i: nat)
    requires |memory| == 24 && i < 24
    ensures HeaderRead(file, offset, memory)[i] == if offset + i < |file| then file[offset + i] else memory[i]
  {
  }

  /** Opens a dictionary in any file: refused exactly if the magic number is wrong. */
  method NewForFd(fd: File, offset: nat, memory: seq<Byte>) returns (d: Dictionary?)
    requires |memory| == HEADER_SIZE
    ensures d == null <==> HeaderRead(fd.bytes, offset, memory)[..8] != [68, 105, 99, 116, 86, 49, 32, 32]
    ensures d != null ==> fresh(d) && d.fd == fd && d.offset == offset && d.ReadFrom(HeaderRead(fd.bytes, offset, memory))
  {
    hide Slice, FromLe;
    var got := fd.Pread(HEADER_SIZE, offset);
    var header := got + memory[|got|..];
    if header[..8] != MAGIC {
      return null;
    }
    var blockTableStart, bloomFilterStart := FromLe(header[8..16]), FromLe(header[16..24]);
    var bloomFilter: Bloom.BloomFilter? := null;
    if bloomFilterStart != 0 {
      bloomFilter := new Bloom.BloomFilter.InitForFd(fd, offset + bloomFilterStart);
    }
    d := new Dictionary(fd, offset, blockTableStart, bloomFilter);
  }

  /** Where a dictionary is stored, the reader stands for it. */
  lemma OpensStored(d: Dictionary, memory: seq<Byte>, img: Image)
    requires |memory| == HEADER_SIZE && d.ReadFrom(HeaderRead(d.fd.bytes, d.offset, memory))
    requires At(d.fd.bytes, d.offset, ImageBytes(img)) && WellFormed(img)
    ensures d.Opened(img)
  {
    hide At, HeaderRead, ImageBytes, DataBytes, TableBytes, FromLe, BlockCount, BlockLength, EntryPos, Bloom.AllBits,
      Bloom.BitsOf, Bloom.FilterBytes, Bloom.BloomFilter.ReadFrom, TableStart, BloomStart, Sorted;
    HeaderDecoded(d.fd.bytes, d.offset, memory, img);
    ImageParts(d.fd.bytes, d.offset, img);
    Bloom.StoredFilterRead(d.bloomFilter, d.fd.bytes, d.offset + BloomStart(img.entries), img.nHashes, img.buckets);
  }

  lemma HeaderDecoded(file: seq<Byte>, base: nat, memory: seq<Byte>, img: Image)
    requires At(file, base, ImageBytes(img)) && WellFormed(img) && |memory| == HEADER_SIZE
    ensures var h := HeaderRead(file, base, memory);
            && h[..8] == MAGIC
            && FromLe(h[8..16]) == TableStart(img.entries)
            && FromLe(h[16..24]) == BloomStart(img.entries) > 0
  {
    hide At, ImageBytes, DataBytes, TableBytes, FromLe, Le, BlockCount, EntryPos, Bloom.AllBits, Bloom.BitsOf,
      Bloom.FilterBytes, Sorted, Keys;
    ImageParts(file, base, img);
    StartsSmall(img);
    HeaderFieldsRead(file, base, TableStart(img.entries), BloomStart(img.entries));
    assert Slice(file, HEADER_SIZE, base) + memory[HEADER_SIZE..] == Slice(file, HEADER_SIZE, base);
  }

  lemma StartsSmall(img: Image)
    requires WellFormed(img)
    ensures TableStart(img.entries) <= BloomStart(img.entries) < TWO_64 && BloomStart(img.entries) > 0
  {
    hide Sorted, EntryPos, TableBytes, Bloom.AllBits, Bloom.BitsOf, Bloom.FilterBytes, HeaderBytes, BlockCount, Keys;
    TablePositive(img.entries);
  }

  lemma TablePositive(es: seq<Entry>)
    ensures |TableBytes(es)| > 0
  {
  }

  lemma HeaderFieldsRead(file: seq<Byte>, base: nat, t: nat, f: nat)
    requires At(file, base, HeaderBytes(t, f)) && t < TWO_64 && f < TWO_64
    ensures var h := Slice(file, HEADER_SIZE, base);
            |h| == HEADER_SIZE && h[..8] == MAGIC && FromLe(h[8..16]) == t && FromLe(h[16..24]) == f
  {
    var h := HeaderBytes(t, f);
    AtSlice(file, base, h);
    assert h[8..16] == Le(t, 8) && h[16..24] == Le(f, 8);
    Le8(t);
    Le8(f);
  }

  // ---------- What lookups mean ----------

  lemma {:induction false} FirstMatchBound(es: seq<Entry>, i: nat, k: nat, key: CString)
    requires i <= k < |es| && es[k].key == key
    ensures FirstMatch(es, i, key) <= k
    decreases k - i
  {
    if i < k && es[i].key != key {
      FirstMatchBound(es, i + 1, k, key);
    }
  }

  lemma StartBelowBlockFor(es: seq<Entry>, key: CString, c: nat)
    requires c < BlockCount(|es|) && StartsAtOrBelow(es, c, key)
    ensures c < BlockFor(es, key)
  {
    hide BlockCount, StartsAtOrBelow;
  }

  /** The block an added key lies in is not behind the one it is looked for in. */
  lemma OwnBlockBelow(es: seq<Entry>, key: CString, i: nat) returns (c: nat)
    requires Sorted(es) && i < |es| && es[i].key == key
    ensures c < BlockFor(es, key) && BlockFirst(|es|, c) <= i < BlockFirst(|es|, c + 1)
  {
    hide BlockCount, BlockLength, BlockFirst, Compare, BlockFor;
    var l := BlockLength(|es|);
    LengthPositive(|es|);
    c := BlockOfEntry(|es|, l, i);
    BlockBounds(|es|, c, c + 1);
    CompareEq(key, key);
    assert StartsAtOrBelow(es, c, key);
    StartBelowBlockFor(es, key, c);
  }

  /** If it is looked for in a later block, that block starts with it. */
  lemma LaterBlockStarts(es: seq<Entry>, key: CString, i: nat, c: nat, b: nat)
    requires Sorted(es) && i < |es| && es[i].key == key && i < BlockFirst(|es|, c + 1)
    requires c < b < BlockCount(|es|) && StartsAtOrBelow(es, b, key)
    ensures es[BlockFirst(|es|, b)].key == key
  {
    hide BlockCount, BlockLength, BlockFirst, Compare;
    LaterStart(es, c, b);
    var other := es[BlockFirst(|es|, b)].key;
    CompareEq(other, key);
    CompareFlip(other, key);
  }

  /** An added key, duplicates included, occurs in the block it is looked for in. */
  lemma AddedKeyInBlock(es: seq<Entry>, key: CString, i: nat)
    requires Sorted(es) && i < |es| && es[i].key == key
    ensures BlockFor(es, key) > 0
    ensures var b := BlockFor(es, key) - 1;
            BlockFirst(|es|, b) <= FirstMatch(es, BlockFirst(|es|, b), key) < BlockFirst(|es|, b + 1)
  {
    hide BlockCount, BlockLength, BlockFirst, FirstMatch, StartsAtOrBelow, Sorted;
    var c := OwnBlockBelow(es, key, i);
    var b := BlockFor(es, key) - 1;
    BlockBounds(|es|, b, b + 1);
    if b == c {
      FirstMatchBound(es, BlockFirst(|es|, b), i, key);
    } else {
      LaterBlockStarts(es, key, i, c, b);
      FirstMatchBound(es, BlockFirst(|es|, b), BlockFirst(|es|, b), key);
    }
  }

  lemma LaterStart(es: seq<Entry>, c: nat, b: nat)
    requires c < b < BlockCount(|es|)
    ensures BlockFirst(|es|, c + 1) <= BlockFirst(|es|, b)
  {
    if c + 1 < b {
      BlockBounds(|es|, c + 1, b);
    }
  }

  lemma ScannedBlockAnswers(file: seq<Byte>, base: nat, es: seq<Entry>, key: CString, at: nat)
    requires Sorted(es) && BlockFor(es, key) > 0
    requires var b := BlockFor(es, key) - 1;
             Answer(file, base, es, BlockFirst(|es|, b), BlockFirst(|es|, b + 1), key, at)
    ensures var b := BlockFor(es, key) - 1;
            var m := FirstMatch(es, BlockFirst(|es|, b), key);
            at == if m < |es| then ValuePos(es, m)
                  else Overrun(file, base, es, BlockFirst(|es|, b), BlockFirst(|es|, b + 1), key)
  {
    var m := FirstMatch(es, BlockFirst(|es|, BlockFor(es, key) - 1), key);
    if m < |es| {
      AddedKeyInBlock(es, key, m);
    }
  }
}
