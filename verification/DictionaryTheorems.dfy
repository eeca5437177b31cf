/** What the dictionary promises end to end: added keys are found wherever the dictionary is
    stored, and exactly when a key that was never added is reported. */
module DictionaryTheorems {
  import opened Bytes
  import opened CStrings
  import opened DictionaryFormat
  import opened DictionaryScan
  import opened DictionaryReader
  import W = DictionaryWriter
  import Bloom = BloomFilter

  ghost predicate Stored(file: seq<Byte>, base: nat, img: Image) {
    At(file, base, ImageBytes(img)) && WellFormed(img)
  }

  ghost predicate DistinctKeys(es: seq<Entry>) {
    forall i, j | 0 <= i < j < |es| :: es[i].key != es[j].key
  }

  /** The entry an added key resolves to: the first with that key in the last block that starts
      at or below it. */
  function Resolved(es: seq<Entry>, key: CString): nat {
    if BlockFor(es, key) == 0 then |es| else FirstMatch(es, BlockFirst(|es|, BlockFor(es, key) - 1), key)
  }

  // ---------- Added keys ----------

  lemma AddedKeyMayBeContained(img: Image, i: nat)
    requires WellFormed(img) && i < |img.entries|
    ensures MayContain(img, img.entries[i].key)
  {
    assert Keys(img.entries)[i] == img.entries[i].key;
    Bloom.AddedKeyCovered(Keys(img.entries), img.entries[i].key, 32 * |img.buckets|, img.nHashes);
  }

  /** A stored string reads back whole exactly if one read fetches its NUL too. */
  lemma TextReads(file: seq<Byte>, at: nat, v: CString)
    requires At(file, at, Terminated(v))
    ensures TextAt(file, at) == if |v| <= 8190 then Found(v) else Endless
  {
    var chunk := Slice(file, CHUNK_SIZE, at);
    forall i | 0 <= i <= |v| && i < CHUNK_SIZE
      ensures i < |chunk| && chunk[i] == Terminated(v)[i]
    {
      AtByte(file, at, Terminated(v), i);
    }
    if |v| < CHUNK_SIZE {
      NulFromUnique(chunk, 0, |v|);
      assert chunk[..|v|] == v;
    } else {
      assert NulFrom(chunk, 0) == |chunk|;
    }
  }

  lemma ValueReads(file: seq<Byte>, base: nat, es: seq<Entry>, m: nat)
    requires At(file, base + HEADER_SIZE, DataBytes(es)) && m < |es|
    ensures TextAt(file, base + ValuePos(es, m)) == if |es[m].value| <= 8190 then Found(es[m].value) else Endless
  {
    hide *;
    EntryValueAt(file, base, es, m);
    TextReads(file, base + ValuePos(es, m), es[m].value);
  }

  lemma AddedKeyOffset(file: seq<Byte>, base: nat, img: Image, i: nat)
    requires WellFormed(img) && i < |img.entries|
    ensures var (es, key) := (img.entries, img.entries[i].key);
            var m := Resolved(es, key);
            m < |es| && es[m].key == key && LookupOffset(file, base, img, key) == ValuePos(es, m)
  {
    hide BlockCount, BlockLength, BlockFirst, BlockFor, MayContain, Overrun, EntryPos;
    AddedKeyMayBeContained(img, i);
    AddedKeyInBlock(img.entries, img.entries[i].key, i);
  }

  lemma DistinctKeysAgree(es: seq<Entry>, i: nat, m: nat)
    requires DistinctKeys(es) && i < |es| && m < |es| && es[i].key == es[m].key
    ensures i == m
  {
  }

  /** The lookup of an added key ends exactly if the entries in front of its match in its block,
      and the key itself, can be passed. */
  lemma AddedKeyEnds(img: Image, i: nat)
    requires WellFormed(img) && i < |img.entries|
    ensures var (es, key) := (img.entries, img.entries[i].key);
            && BlockFor(es, key) > 0 && Resolved(es, key) < |es|
            && (LookupEnds(img, key) <==>
                  && (forall x | BlockFirst(|es|, BlockFor(es, key) - 1) <= x < Resolved(es, key) ::
                        |es[x].key| + |es[x].value| + 2 <= 8190)
                  && |key| + 1 <= 8190)
  {
    hide BlockCount, BlockLength, BlockFirst, BlockFor, MayContain, FirstMatch, Fits, Passable, WellFormed;
    AddedKeyMayBeContained(img, i);
    AddedSorted(img);
    var (es, key) := (img.entries, img.entries[i].key);
    AddedKeyInBlock(es, key, i);
    PassableToMatch(es, BlockFirst(|es|, BlockFor(es, key) - 1), BlockFirst(|es|, BlockFor(es, key)), key);
  }

  lemma AddedSorted(img: Image)
    requires WellFormed(img)
    ensures Sorted(img.entries)
  {
    hide Sorted, Bloom.AllBits, Bloom.BitsOf, ImageBytes, Keys;
  }

  lemma PassableToMatch(es: seq<Entry>, s: nat, e: nat, key: CString)
    requires s <= |es| && FirstMatch(es, s, key) < e <= |es|
    ensures Passable(es, s, e, key)
       <==> (forall x | s <= x < FirstMatch(es, s, key) :: |es[x].key| + |es[x].value| + 2 <= 8190) && |key| + 1 <= 8190
  {
    hide Fits, FirstMatch;
    forall x | s <= x < e
      ensures Fits(es[x]) <==> |es[x].key| + |es[x].value| + 2 <= 8190
    {
      FitsMeaning(es[x]);
    }
  }

  lemma FitsMeaning(e: Entry)
    ensures Fits(e) <==> |e.key| + |e.value| + 2 <= 8190
  {
  }

  /** Every added key yields the value of the entry it resolves to, at any offset of any file, exactly
      if its lookup ends and one read fetches the value; otherwise the program never comes back.
      With distinct keys that is the value it was added with. */
  lemma AddedKeyFound(file: seq<Byte>, base: nat, img: Image, i: nat)
    requires Stored(file, base, img) && i < |img.entries|
    ensures var (es, key) := (img.entries, img.entries[i].key);
            var m := Resolved(es, key);
            && m < |es| && es[m].key == key && (DistinctKeys(es) ==> m == i)
            && LookupText(file, base, img, key)
            == if LookupEnds(img, key) && |es[m].value| <= 8190 then Found(es[m].value) else Endless
  {
    hide ImageBytes, DataBytes, TextAt, LookupOffset, LookupEnds, Resolved, WellFormed, DistinctKeys, EntryPos;
    var (es, key) := (img.entries, img.entries[i].key);
    AddedKeyOffset(file, base, img, i);
    ImageParts(file, base, img);
    ValueReads(file, base, es, Resolved(es, key));
    if DistinctKeys(es) {
      DistinctKeysAgree(es, i, Resolved(es, key));
    }
  }

  /** Relocation: the same dictionary answers the same at two places, whatever surrounds it. */
  lemma AddedKeyRelocated(f: seq<Byte>, p: nat, g: seq<Byte>, q: nat, img: Image, i: nat)
    requires Stored(f, p, img) && Stored(g, q, img) && i < |img.entries|
    ensures LookupText(f, p, img, img.entries[i].key) == LookupText(g, q, img, img.entries[i].key)
  {
    AddedKeyFound(f, p, img, i);
    AddedKeyFound(g, q, img, i);
  }

  /** A lookup that does not end does not: after any number of rounds its scan is going on. */
  lemma EndlessLookup(file: seq<Byte>, base: nat, img: Image, key: CString, n: nat)
    requires Stored(file, base, img) && !LookupEnds(img, key)
    ensures var (es, b) := (img.entries, BlockFor(img.entries, key) - 1);
            && b >= 0 && Rounds(file, base, BlockOffset(es, b), BlockOffset(es, b + 1), key, n).Going?
  {
    hide ImageBytes, DataBytes, WellFormed, EntryPos, MayContain, BlockFor, BlockFirst, Passable, Rounds, BlockCount;
    var (es, b) := (img.entries, BlockFor(img.entries, key) - 1);
    BlocksInside(es, b);
    ImageParts(file, base, img);
    ScanEndsExactly(file, base, es, BlockFirst(|es|, b), BlockFirst(|es|, b + 1), key);
  }

  // ---------- Keys that were not added ----------

  /** A reported position inside the data is the value of a real entry with exactly that key. */
  lemma ReportedInsideIsReal(file: seq<Byte>, base: nat, img: Image, key: CString)
    requires Stored(file, base, img)
    requires 0 < LookupOffset(file, base, img, key) <= TableStart(img.entries)
    ensures var (es, m) := (img.entries, Resolved(img.entries, key));
            m < |es| && es[m].key == key && LookupOffset(file, base, img, key) == ValuePos(es, m)
  {
    var (es, key') := (img.entries, key);
    var b := BlockFor(es, key) - 1;
    var m := Resolved(es, key);
    BlocksInside(es, b);
    if m == |es| {
      OverrunBehindData(file, base, es, BlockFirst(|es|, b), BlockFirst(|es|, b + 1), key);
    }
  }

  /** Whatever the overrun reports lies behind the data. */
  lemma OverrunBehindData(file: seq<Byte>, base: nat, es: seq<Entry>, s: nat, e: nat, key: CString)
    requires s <= |es| && e <= |es|
    ensures var o := Overrun(file, base, es, s, e, key); o == 0 || o > TableStart(es)
  {
    hide Parse, Window, EntryPos, LastWindow;
    var w := LastWindow(es, s, e);
    if w != [] {
      var p := TableStart(es) - EntryPos(es, w[0]);
      EntryPosMonotone(es, w[0], |es|);
      if p < CHUNK_SIZE {
        ParseForward(Window(file, base + EntryPos(es, w[0])), p, key);
      }
    }
  }

  /** The phantom keys of the block a key is looked for in, as the image and the bytes that
      follow it in the file determine them. */
  function PhantomsFor(img: Image, rest: seq<Byte>, c: nat): seq<CString> {
    var (es, n) := (img.entries, |img.entries|);
    var behind := TableBytes(es) + Bloom.FilterBytes(img.nHashes, img.buckets) + rest;
    if c == 0 then [] else PhantomKeys(es, behind, BlockFirst(n, c - 1), BlockFirst(n, c))
  }

  /** Exactly when a key that was never added is reported missing: the filter rejects it, or no
      block starts at or below it, or the scan of its block ends and the bytes behind the data
      do not show it as a key. */
  lemma AbsentKeyExactly(file: seq<Byte>, base: nat, img: Image, key: CString)
    requires Stored(file, base, img) && key !in Keys(img.entries)
    ensures var c := BlockFor(img.entries, key);
            LookupText(file, base, img, key) == Missing <==>
              || !MayContain(img, key) || c == 0
              || (LookupEnds(img, key) && key !in PhantomsFor(img, file[base + |ImageBytes(img)|..], c))
  {
    hide BlockCount, BlockLength, BlockFirst, BlockFor, MayContain, LookupEnds, EntryPos, TextAt, ImageBytes, Keys,
      FirstMatch, WellFormed, DataBytes, PhantomKeys, Overrun, TableBytes, Bloom.FilterBytes;
    var (es, c) := (img.entries, BlockFor(img.entries, key));
    NoMatchForAbsentKey(es, key);
    TextIsNotMissing(file, base + LookupOffset(file, base, img, key));
    if c > 0 {
      BehindData(file, base, img);
      OverrunShowsPhantoms(file, base, es, BlockFirst(|es|, c - 1), BlockFirst(|es|, c), key);
    }
    NoBlockEnds(img, key);
  }

  lemma NoBlockEnds(img: Image, key: CString)
    ensures !MayContain(img, key) || BlockFor(img.entries, key) == 0 ==> LookupEnds(img, key)
  {
  }

  /** What follows the data in the file: table, filter, and whatever the file goes on with. */
  lemma BehindData(file: seq<Byte>, base: nat, img: Image)
    requires At(file, base, ImageBytes(img))
    ensures base + TableStart(img.entries) <= base + |ImageBytes(img)| <= |file|
    ensures file[base + TableStart(img.entries)..]
         == TableBytes(img.entries) + Bloom.FilterBytes(img.nHashes, img.buckets) + file[base + |ImageBytes(img)|..]
  {
    hide At, ImageBytes, DataBytes, EntryPos, TableBytes, Bloom.FilterBytes, HeaderBytes;
    var (es, f) := (img.entries, Bloom.FilterBytes(img.nHashes, img.buckets));
    ImageParts(file, base, img);
    TwoPieces(file, base + TableStart(es), TableBytes(es), f);
  }

  lemma TwoPieces(file: seq<Byte>, at: nat, a: seq<Byte>, b: seq<Byte>)
    requires At(file, at, a) && At(file, at + |a|, b)
    ensures at + |a| + |b| <= |file| && file[at..] == a + b + file[at + |a| + |b|..]
  {
    assert file[at..] == file[at..at + |a|] + file[at + |a|..at + |a| + |b|] + file[at + |a| + |b|..];
  }

  lemma NoMatchForAbsentKey(es: seq<Entry>, key: CString)
    requires key !in Keys(es)
    ensures Resolved(es, key) == |es|
  {
    assert forall i | 0 <= i < |es| :: es[i].key == Keys(es)[i];
  }

  lemma TextIsNotMissing(file: seq<Byte>, at: nat)
    ensures TextAt(file, at) != Missing
  {
  }

  /** In particular a key is reported missing if the block it is looked for in ends a whole window
      before the table, and its scan ends: then no window shows anything behind the data. */
  lemma AbsentKeyInEarlyBlock(file: seq<Byte>, base: nat, img: Image, key: CString)
    requires Stored(file, base, img) && key !in Keys(img.entries) && LookupEnds(img, key)
    requires var c := BlockFor(img.entries, key);
             c > 0 ==> BlockOffset(img.entries, c) + CHUNK_SIZE <= TableStart(img.entries)
    ensures LookupText(file, base, img, key) == Missing
  {
    hide At, BlockCount, BlockLength, BlockFirst, BlockFor, MayContain, ImageBytes, WellFormed, LookupText, LookupEnds,
      EntryPos, Keys, LastWindow, KeysShown, TableBytes, Bloom.FilterBytes;
    AbsentKeyExactly(file, base, img, key);
    var (es, c) := (img.entries, BlockFor(img.entries, key));
    if c > 0 {
      var (s, e) := (BlockFirst(|es|, c - 1), BlockFirst(|es|, c));
      var w := LastWindow(es, s, e);
      if w != [] {
        EntryPosMonotone(es, w[0], e);
        NothingShown();
      }
    }
  }

  lemma NothingShown()
    ensures KeysShown([]) == []
  {
  }

  /** A dictionary of no entries reports every key missing. */
  lemma EmptyDictionary(file: seq<Byte>, base: nat, img: Image, key: CString)
    requires img.entries == []
    ensures LookupText(file, base, img, key) == Missing
  {
  }

  // ---------- From writing to reading ----------

  /** The entries a run of calls leaves behind: an entry is taken unless its key is below the last. */
  function Accepted(es: seq<Entry>, calls: seq<Entry>): seq<Entry> {
    if calls == [] then es else
      var (before, e) := (Accepted(es, calls[..|calls| - 1]), calls[|calls| - 1]);
      if before != [] && Compare(e.key, before[|before| - 1].key) < 0 then before else before + [e]
  }

  /** Of sorted calls none is refused. */
  lemma {:induction false} SortedAccepted(es: seq<Entry>)
    requires Sorted(es)
    ensures Accepted([], es) == es
  {
    if es != [] {
      var i := |es| - 1;
      SortedAccepted(es[..i]);
      NextInOrder(es, i);
    }
  }

  /** What a run of calls comes to, and then finishing. If no entries were announced, the program
      ends in the first call. */
  function RunOutcome(announced: nat, es: seq<Entry>, calls: seq<Entry>): W.Outcome {
    if announced == 0 && calls != [] then W.DividesByZero
    else if |Accepted(es, calls)| == announced then W.Done else W.WrongNumberEntries
  }

  /** Any run of calls, accepted or rejected, in any order, leaves exactly the serialisation of
      the accepted entries, which are sorted, and their filter. Finishing succeeds exactly if
      there are as many as announced. */
  method AddAny(w: W.DictionaryWriter, calls: seq<Entry>) returns (outcome: W.Outcome)
    requires w.Valid()
    modifies w, w.stream, w.stream.file, w.bloom.buckets
    ensures outcome == RunOutcome(w.nEntriesTotal, old(w.entries), calls)
    ensures outcome == W.DividesByZero ==> w.entries == [] && unchanged(w.stream.file)
    ensures outcome != W.DividesByZero ==> w.entries == Accepted(old(w.entries), calls)
    ensures outcome == W.Done ==>
              var image := ImageBytes(Image(w.entries, w.bloom.nHashes, w.bloom.buckets[..]));
              && At(w.stream.file.bytes, 0, image)
              && (|old(w.stream.file.bytes)| <= old(w.stream.pos) ==> w.stream.file.bytes == image)
    ensures Sorted(w.entries) && w.bloom.Valid()
    ensures w.bloom.Bits() == Bloom.AllBits(Keys(w.entries), w.bloom.nBits, w.bloom.nHashes)
    ensures w.bloom.nBits == old(w.bloom.nBits) && w.bloom.nHashes == old(w.bloom.nHashes)
    ensures w.bloom.buckets == old(w.bloom.buckets)
  {
    hide W.DictionaryWriter.Valid, Compare, Patched, EntryBytes, At, ImageBytes, Bloom.AllBits, Bloom.BitsOf,
      Bloom.BloomFilter.Bits, Sorted, Bloom.BloomFilter.Valid, Accepted, EntryPos, Keys;
    ValidParts(w);
    NoneCalled(w.entries);
    for i := 0 to |calls|
      invariant w.Valid() && w.entries == Accepted(old(w.entries), calls[..i])
      invariant w.nEntriesTotal == 0 ==> i == 0 && unchanged(w.stream.file)
      invariant |old(w.stream.file.bytes)| <= old(w.stream.pos) ==> |w.stream.file.bytes| <= w.stream.pos
    {
      OneMoreCall(w.entries, old(w.entries), calls, i);
      PatchedLength(w.stream.file.bytes, EntryBytes(calls[i]), w.stream.pos);
      outcome := w.AddEntry(calls[i].key, calls[i].value);
      ValidParts(w);
      if outcome == W.DividesByZero {
        return;
      }
    }
    assert calls[..|calls|] == calls;
    ValidParts(w);
    outcome := w.Finish();
    if outcome == W.Done {
      WholeFile(w.stream.file.bytes, Image(w.entries, w.bloom.nHashes, w.bloom.buckets[..]));
    }
  }

  lemma PatchedLength(file: seq<Byte>, data: seq<Byte>, at: nat)
    ensures |file| <= at ==> |Patched(file, data, at)| <= at + |data|
  {
  }

  /** A file that is no longer than the dictionary in it is that dictionary. */
  lemma WholeFile(file: seq<Byte>, img: Image)
    requires At(file, 0, ImageBytes(img))
    ensures |file| == |ImageBytes(img)| ==> file == ImageBytes(img)
    ensures TableStart(img.entries) <= |ImageBytes(img)|
  {
    hide ImageBytes, EntryPos;
    assert file[0..|file|] == file;
  }

  lemma NoneCalled(es: seq<Entry>)
    ensures Accepted(es, []) == es
  {
  }

  lemma OneMoreCall(now: seq<Entry>, es: seq<Entry>, calls: seq<Entry>, i: nat)
    requires i < |calls| && now == Accepted(es, calls[..i])
    ensures Accepted(es, calls[..i + 1])
         == if now != [] && Compare(calls[i].key, now[|now| - 1].key) < 0 then now else now + [calls[i]]
  {
    hide Compare;
    assert calls[..i + 1][..i] == calls[..i];
  }

  /** What the state between calls says of the filter. */
  lemma ValidParts(w: W.DictionaryWriter)
    requires w.Valid()
    ensures Sorted(w.entries) && w.bloom.Valid()
    ensures w.bloom.Bits() == Bloom.AllBits(Keys(w.entries), w.bloom.nBits, w.bloom.nHashes)
    ensures w.nEntriesTotal == 0 ==> w.entries == []
    ensures w.stream.pos == TableStart(w.entries)
  {
  }

  /** Writes a dictionary by any run of calls. */
  method Build(calls: seq<Entry>, announced: nat, file: File, optimalBits: nat, hashes: nat)
      returns (outcome: W.Outcome, ghost img: Image)
    requires announced < 0x8000_0000 && optimalBits < 0x8000_0000 && hashes < TWO_32
    requires announced > 0 ==> optimalBits > 0
    requires TableStart(Accepted([], calls)) < 0x1000_0000_0000_0000
    modifies file
    ensures outcome == RunOutcome(announced, [], calls)
    ensures outcome == W.Done ==>
              && img.entries == Accepted([], calls) && Stored(file.bytes, 0, img)
              && img.nHashes == hashes && 32 * |img.buckets| == Align(optimalBits)
              && (old(file.bytes) == [] ==> file.bytes == ImageBytes(img))
  {
    hide At, ImageBytes, Patched, Bloom.AllBits, Bloom.BitsOf, BlockCount, BlockLength, EntryPos, DataBytes, Sorted,
      WellFormed, Accepted, W.DictionaryWriter.Valid;
    var stream := new OutputStream(file);
    var w := new W.DictionaryWriter.NewForStream(stream, announced, optimalBits, hashes);
    w.Begin();
    outcome := AddAny(w, calls);
    img := Image(w.entries, hashes, w.bloom.buckets[..]);
    if outcome == W.Done {
      BuiltWellFormed(img, optimalBits);
    }
  }

  /** The filter of these keys lets a key pass. */
  ghost predicate Passes(es: seq<Entry>, optimalBits: nat, hashes: nat, key: CString) {
    optimalBits > 0 && Bloom.KeyBits(key, Align(optimalBits), hashes) <= Bloom.AllBits(Keys(es), Align(optimalBits), hashes)
  }

  /** The lookup of a key in a dictionary of these entries ends. */
  ghost predicate KeyEnds(es: seq<Entry>, optimalBits: nat, hashes: nat, key: CString) {
    var (n, c) := (|es|, BlockFor(es, key));
    Passes(es, optimalBits, hashes, key) && c > 0 ==> Passable(es, BlockFirst(n, c - 1), BlockFirst(n, c), key)
  }

  /** What the lookup of an added key gives. */
  ghost predicate GivesValue(es: seq<Entry>, key: CString, r: Text) {
    forall i | 0 <= i < |es| && es[i].key == key ::
      var m := Resolved(es, key);
      m < |es| && es[m].key == key && (DistinctKeys(es) ==> m == i)
      && r == if |es[m].value| <= 8190 then Found(es[m].value) else Endless
  }

  /** Writes a dictionary by any run of calls, accepted or rejected, opens it if finishing succeeded,
      and looks a key up whose lookup ends: every accepted key gives its value. */
  method BuildAndLookUp(calls: seq<Entry>, announced: nat, file: File, optimalBits: nat, hashes: nat, memory: seq<Byte>,
                        key: CString)
      returns (outcome: W.Outcome, r: Text, ghost img: Image)
    requires announced < 0x8000_0000 && optimalBits < 0x8000_0000 && hashes < TWO_32
    requires (announced > 0 ==> optimalBits > 0) && |memory| == HEADER_SIZE
    requires TableStart(Accepted([], calls)) < 0x1000_0000_0000_0000
    requires KeyEnds(Accepted([], calls), optimalBits, hashes, key)
    modifies file
    ensures outcome == RunOutcome(announced, [], calls)
    ensures outcome == W.Done ==>
              && img.entries == Accepted([], calls) && Stored(file.bytes, 0, img)
              && img.nHashes == hashes && 32 * |img.buckets| == Align(optimalBits)
              && r == LookupText(file.bytes, 0, img, key) && GivesValue(img.entries, key, r)
  {
    hide *;
    outcome, img := Build(calls, announced, file, optimalBits, hashes);
    r := Missing;
    if outcome == W.Done {
      r := OpenAndLookUp(file, optimalBits, memory, key, img);
    }
  }

  method OpenAndLookUp(file: File, ghost optimalBits: nat, memory: seq<Byte>, key: CString, ghost img: Image) returns (r: Text)
    requires Stored(file.bytes, 0, img) && |memory| == HEADER_SIZE && 32 * |img.buckets| == Align(optimalBits)
    requires KeyEnds(img.entries, optimalBits, img.nHashes, key)
    ensures r == LookupText(file.bytes, 0, img, key) && GivesValue(img.entries, key, r)
  {
    hide *;
    StoredParts(file.bytes, 0, img);
    KeyEndsLookup(img, optimalBits, key);
    ImageStartsWithMagic(file.bytes, 0, memory, img);
    var d := NewForFd(file, 0, memory);
    OpensStored(d, memory, img);
    r := d.LookupKey(key, img);
    LookupGivesValue(file.bytes, 0, img, key);
  }

  lemma StoredParts(file: seq<Byte>, base: nat, img: Image)
    requires Stored(file, base, img)
    ensures At(file, base, ImageBytes(img)) && WellFormed(img) && |img.entries| < 0x8000_0000
  {
  }

  lemma KeyEndsLookup(img: Image, optimalBits: nat, key: CString)
    requires WellFormed(img) && 32 * |img.buckets| == Align(optimalBits)
    ensures LookupEnds(img, key) <==> KeyEnds(img.entries, optimalBits, img.nHashes, key)
  {
    hide MayContain, BlockFor, BlockFirst, Passable, Passes, WellFormed;
    PassesIsMayContain(img, optimalBits, key);
  }

  lemma LookupGivesValue(file: seq<Byte>, base: nat, img: Image, key: CString)
    requires Stored(file, base, img) && LookupEnds(img, key)
    ensures GivesValue(img.entries, key, LookupText(file, base, img, key))
  {
    hide Stored, LookupEnds, LookupText, Resolved, DistinctKeys;
    forall i | 0 <= i < |img.entries| && img.entries[i].key == key
      ensures var (es, m) := (img.entries, Resolved(img.entries, key));
              && m < |es| && es[m].key == key && (DistinctKeys(es) ==> m == i)
              && LookupText(file, base, img, key)
              == if LookupEnds(img, key) && |es[m].value| <= 8190 then Found(es[m].value) else Endless
    {
      AddedKeyFound(file, base, img, i);
    }
  }

  lemma PassesIsMayContain(img: Image, optimalBits: nat, key: CString)
    requires WellFormed(img) && 32 * |img.buckets| == Align(optimalBits)
    ensures MayContain(img, key) <==> Passes(img.entries, optimalBits, img.nHashes, key)
  {
    hide Bloom.AllBits, Bloom.KeyBits, Bloom.BitsOf, Sorted, ImageBytes, Keys;
  }

  lemma ImageStartsWithMagic(file: seq<Byte>, base: nat, memory: seq<Byte>, img: Image)
    requires At(file, base, ImageBytes(img)) && |memory| == HEADER_SIZE
    ensures base + HEADER_SIZE <= |file| && HeaderRead(file, base, memory)[..8] == [68, 105, 99, 116, 86, 49, 32, 32]
  {
    hide DataBytes, TableBytes, Bloom.FilterBytes, EntryPos, Le, ImageBytes, At;
    ImageParts(file, base, img);
    var (t, f) := (TableStart(img.entries), BloomStart(img.entries));
    AtSlice(file, base, HeaderBytes(t, f));
    assert HeaderBytes(t, f)[..8] == MAGIC;
  }

  lemma BuiltWellFormed(img: Image, optimalBits: nat)
    requires Sorted(img.entries) && |img.entries| < 0x8000_0000
    requires optimalBits < 0x8000_0000 && img.nHashes < TWO_32 && (img.entries != [] ==> optimalBits > 0)
    requires TableStart(img.entries) < 0x1000_0000_0000_0000
    requires 32 * |img.buckets| == Align(optimalBits)
    requires Bloom.BitsOf(img.buckets) == Bloom.AllBits(Keys(img.entries), 32 * |img.buckets|, img.nHashes)
    ensures WellFormed(img)
  {
    BlockCountFits(|img.entries|);
  }

  lemma ImageSmall(img: Image, optimalBits: nat)
    requires |img.entries| < 0x8000_0000 && TableStart(img.entries) < 0x1000_0000_0000_0000
    requires 32 * |img.buckets| == Align(optimalBits) && optimalBits < 0x8000_0000
    ensures |ImageBytes(img)| < 0x2000_0000_0000_0000
  {
    hide EntryPos, BlockCount, BlockLength, DataBytes;
    BlockCountFits(|img.entries|);
  }

  lemma NextInOrder(es: seq<Entry>, i: nat)
    requires Sorted(es) && i < |es|
    ensures i > 0 ==> Compare(es[i].key, es[..i][i - 1].key) >= 0
  {
    if i > 0 {
      CompareFlip(es[i - 1].key, es[i].key);
    }
  }
}
