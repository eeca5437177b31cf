/** The streaming dictionary writer: entries go out as they come in, the header is patched in
    at the end. */
module DictionaryWriter {
  import opened Bytes
  import opened CStrings
  import opened DictionaryFormat
  import Bloom = BloomFilter

  /** `DividesByZero` stands for the program ending in a division by zero. */
  datatype Outcome = Done | EntriesOutOfOrder | WrongNumberEntries | DividesByZero

  class DictionaryWriter {
    const stream: OutputStream
    const nEntriesTotal: nat
    const blockLength: nat
    const nBlocks: nat
    const bloom: Bloom.BloomFilter

    var nEntriesAdded: nat
    var last: seq<CString>  // the last key added, if there is one
    var offsets: seq<nat>

    /** The accepted entries so far. */
    ghost var entries: seq<Entry>

    /** The state between calls, from `Begin` up to `Finish`: stream, filter and block offsets
        are exactly the serialisation of the accepted entries. */
    ghost predicate Valid()
      reads this, stream, stream.file, bloom, bloom.buckets
    {
      && nEntriesTotal < 0x8000_0000 && (nEntriesTotal > 0 ==> blockLength > 0)
      && blockLength == BlockLength(nEntriesTotal) && nBlocks == BlockCount(nEntriesTotal)
      && Sorted(entries)
      && nEntriesAdded == |entries|
      && last == (if entries == [] then [] else [entries[|entries| - 1].key])
      && offsets == OffsetList(entries, blockLength)
      && (nEntriesTotal == 0 ==> entries == [])
      && stream.pos == TableStart(entries)
      && (entries != [] ==> At(stream.file.bytes, HEADER_SIZE, DataBytes(entries)))
      && bloom.Valid()
      && (nEntriesTotal > 0 ==> bloom.nBits > 0)
      && bloom.Bits() == Bloom.AllBits(Keys(entries), bloom.nBits, bloom.nHashes)
    }

    /** `optimalBits` and `hashes` stand for the results of the floating-point formulas. */
    constructor NewForStream(stream: OutputStream, n: nat, optimalBits: nat, hashes: nat)
      requires n < 0x8000_0000
      requires optimalBits < 0x8000_0000 && hashes < TWO_32 && (n > 0 ==> optimalBits > 0)
      ensures this.stream == stream && nEntriesTotal == n && entries == []
      ensures fresh(bloom) && fresh(bloom.buckets)
      ensures bloom.nBits == Align(optimalBits) && bloom.nHashes == hashes
      ensures Ready()
    {
      this.stream := stream;
      nEntriesTotal := n;
      blockLength := BlockLength(n);
      nBlocks := BlockCount(n);
      nEntriesAdded, last, offsets, entries := 0, [], [], [];
      bloom := new Bloom.BloomFilter.InitForParams(optimalBits, hashes);
      new;
      assert Keys([]) == [];
    }

    /** A writer that has not begun. */
    ghost predicate Ready()
      reads this, bloom, bloom.buckets
    {
      && nEntriesTotal < 0x8000_0000 && (nEntriesTotal > 0 ==> blockLength > 0)
      && blockLength == BlockLength(nEntriesTotal) && nBlocks == BlockCount(nEntriesTotal)
      && nEntriesAdded == 0 && last == [] && offsets == [] && entries == []
      && bloom.Valid() && bloom.Bits() == {}
      && (nEntriesTotal > 0 ==> bloom.nBits > 0)
    }

    /** Leaves room for the header. */
    method Begin()
      requires Ready()
      modifies stream
      ensures Valid() && entries == []
    {
      stream.Seek(HEADER_SIZE);
      assert Keys(entries) == [];
    }

    /** Appends an entry, unless its key sorts before the last one. If no entries were announced,
        a block has length zero, and the program divides by it. */
    method AddEntry(key: CString, value: CString) returns (outcome: Outcome)
      requires Valid()
      modifies this, stream, stream.file, bloom.buckets
      ensures Valid()
      ensures outcome == (if old(entries) != [] && Compare(key, old(entries)[|old(entries)| - 1].key) < 0 then EntriesOutOfOrder
                          else if nEntriesTotal == 0 then DividesByZero else Done)
      ensures outcome != EntriesOutOfOrder <==>
                || old(entries) == []
                || var l := old(entries)[|old(entries)| - 1].key;
                   || (|l| <= |key| && key[..|l|] == l)
                   || exists k :: 0 <= k < |l| && k < |key| && l[..k] == key[..k] && l[k] < key[k]
      ensures outcome != Done ==> unchanged(this) && unchanged(stream) && unchanged(stream.file) && unchanged(bloom.buckets)
      ensures outcome == Done ==>
                && entries == old(entries) + [Entry(key, value)]
                && stream.file.bytes == Patched(old(stream.file.bytes), EntryBytes(Entry(key, value)), old(stream.pos))
                && stream.pos == old(stream.pos) + |EntryBytes(Entry(key, value))|
    {
      hide Patched, BlockLength, BlockCount, OffsetList, DataBytes, Bloom.AllBits, Bloom.KeyBits, Bloom.BitsOf, EntryPos,
        EntryBytes, Keys, Compare;
      if last != [] {
        CompareFlip(key, last[0]);
        NotBelow(last[0], key);
      }
      if last != [] && Compare(key, last[0]) < 0 {
        return EntriesOutOfOrder;
      }
      LengthOfNone();
      if blockLength == 0 {
        return DividesByZero;
      }
      StepFacts(entries, Entry(key, value), stream.file.bytes, blockLength, bloom.nBits, bloom.nHashes);
      Append(key, value);
      outcome := Done;
    }

    /** The unconditional part of AddEntry. */
    method Append(key: CString, value: CString)
      requires blockLength > 0 && bloom.Valid()
      modifies this, stream, stream.file, bloom.buckets
      ensures offsets == old(offsets) + (if old(nEntriesAdded) % blockLength == 0 then [old(stream.pos)] else [])
      ensures bloom.Valid() && bloom.Bits() == old(bloom.Bits()) + Bloom.KeyBits(key, bloom.nBits, bloom.nHashes)
      ensures stream.file.bytes == Patched(old(stream.file.bytes), EntryBytes(Entry(key, value)), old(stream.pos))
      ensures stream.pos == old(stream.pos) + |EntryBytes(Entry(key, value))|
      ensures nEntriesAdded == old(nEntriesAdded) + 1 && last == [key]
      ensures entries == old(entries) + [Entry(key, value)]
    {
      hide Patched, EntryBytes, Bloom.KeyBits, Bloom.BitsOf;
      if nEntriesAdded % blockLength == 0 {
        offsets := offsets + [stream.pos];
      }
      bloom.Add(key);
      WriteEntry(stream, key, value);
      nEntriesAdded := nEntriesAdded + 1;
      last := [key];
      entries := entries + [Entry(key, value)];
    }

    /** Writes the block table, the filter and, last, the header. A file that was longer keeps its end. */
    method Finish() returns (outcome: Outcome)
      requires Valid()
      modifies this, stream, stream.file
      ensures entries == old(entries)
      ensures outcome == (if |entries| == nEntriesTotal then Done else WrongNumberEntries)
      ensures outcome != Done ==> unchanged(this) && unchanged(stream) && unchanged(stream.file)
      ensures outcome == Done ==>
                var image := ImageBytes(Image(entries, bloom.nHashes, bloom.buckets[..]));
                && At(stream.file.bytes, 0, image)
                && |stream.file.bytes| == if |old(stream.file.bytes)| < |image| then |image| else |old(stream.file.bytes)|
    {
      hide BlockLength, BlockCount, OffsetList, BlockFirst, DataBytes, EntryPos, ImageBytes, TableBytes, HeaderBytes, Patched,
        Sorted, Compare, At, Keys, Bloom.AllBits, Bloom.BitsOf, Bloom.FilterBytes;
      if nEntriesAdded != nEntriesTotal {
        return WrongNumberEntries;
      }
      OffsetListComplete(entries);
      assert |offsets| == nBlocks;  // the assertion in the program
      CloseOffsets();
      FinishedImage(stream.file.bytes, Image(entries, bloom.nHashes, bloom.buckets[..]));
      WriteTail();
      outcome := Done;
    }

    /** Appends the end of the data, so that the last block has a length too. */
    method CloseOffsets()
      modifies this
      ensures offsets == old(offsets) + [stream.pos]
      ensures nEntriesAdded == old(nEntriesAdded) && last == old(last) && entries == old(entries)
    {
      offsets := offsets + [stream.pos];
    }

    /** The part of Finish behind its checks. */
    method WriteTail()
      requires nEntriesTotal == |entries| && nBlocks == BlockCount(nEntriesTotal)
      requires |offsets| == nBlocks + 1 && stream.pos == TableStart(entries)
      requires forall b | 0 <= b <= nBlocks :: offsets[b] == BlockOffset(entries, b)
      requires bloom.Valid()
      modifies stream, stream.file
      ensures var tail := TableBytes(entries) + Bloom.FilterBytes(bloom.nHashes, bloom.buckets[..]);
              stream.file.bytes == Patched(Patched(old(stream.file.bytes), tail, TableStart(entries)),
                                           HeaderBytes(TableStart(entries), BloomStart(entries)), 0)
    {
      hide Patched;
      var blockTableStart := stream.pos;
      PatchedTwice(stream.file.bytes, TableBytes(entries), Bloom.FilterBytes(bloom.nHashes, bloom.buckets[..]), blockTableStart);
      WriteBlockTable();
      var bloomFilterStart := stream.pos;
      bloom.WriteToStream(stream);
      stream.Seek(0);
      stream.Write(HeaderBytes(blockTableStart, bloomFilterStart));
    }

    method WriteBlockTable()
      requires nEntriesTotal == |entries| && nBlocks == BlockCount(nEntriesTotal)
      requires |offsets| == nBlocks + 1
      requires forall b | 0 <= b <= nBlocks :: offsets[b] == BlockOffset(entries, b)
      modifies stream, stream.file
      ensures stream.file.bytes == Patched(old(stream.file.bytes), TableBytes(entries), old(stream.pos))
      ensures stream.pos == old(stream.pos) + |TableBytes(entries)|
    {
      hide Patched, BlockCount, BlockOffset, Le;
      ghost var f, at := stream.file.bytes, stream.pos;
      stream.Write(Le(nBlocks, 2));
      assert Le(nBlocks, 2) + BlockEntries(entries, 0) == Le(nBlocks, 2);
      for i := 0 to nBlocks
        invariant stream.file.bytes == Patched(f, Le(nBlocks, 2) + BlockEntries(entries, i), at)
        invariant stream.pos == at + 2 + BLOCK_ENTRY_SIZE * i
      {
        ghost var done := Le(nBlocks, 2) + BlockEntries(entries, i);
        ghost var next := BlockEntryBytes(BlockOffset(entries, i), BlockSize(entries, i));
        PatchedTwice(f, done, next, at);
        assert done + next == Le(nBlocks, 2) + BlockEntries(entries, i + 1);
        stream.Write(BlockEntryBytes(offsets[i], offsets[i + 1] - offsets[i]));
      }
    }
  }

  lemma LengthOfNone()
    ensures BlockLength(0) == 0
  {
  }

  method WriteEntry(out: OutputStream, key: CString, value: CString)
    modifies out, out.file
    ensures out.file.bytes == Patched(old(out.file.bytes), EntryBytes(Entry(key, value)), old(out.pos))
    ensures out.pos == old(out.pos) + |EntryBytes(Entry(key, value))|
  {
    PatchedTwice(out.file.bytes, Terminated(key), Terminated(value), out.pos);
    out.Write(Terminated(key));
    out.Write(Terminated(value));
  }

  /** What one more entry adds to each part of the serialisation. */
  lemma StepFacts(es: seq<Entry>, e: Entry, f: seq<Byte>, l: nat, nBits: nat, nHashes: nat)
    requires l > 0 && Sorted(es)
    requires es != [] ==> At(f, HEADER_SIZE, DataBytes(es)) && Compare(e.key, es[|es| - 1].key) >= 0
    ensures Sorted(es + [e])
    ensures TableStart(es + [e]) == TableStart(es) + |EntryBytes(e)|
    ensures At(Patched(f, EntryBytes(e), TableStart(es)), HEADER_SIZE, DataBytes(es + [e]))
    ensures OffsetList(es + [e], l) == OffsetList(es, l) + (if |es| % l == 0 then [TableStart(es)] else [])
    ensures Bloom.AllBits(Keys(es + [e]), nBits, nHashes)
         == Bloom.AllBits(Keys(es), nBits, nHashes) + Bloom.KeyBits(e.key, nBits, nHashes)
  {
    hide Patched, EntryPos, EntryBytes, Compare, Sorted, At, DataBytes, OffsetList, Bloom.AllBits, Bloom.KeyBits, Keys;
    PositionStep(es, e);
    DataStep(f, es, e);
    SortedStep(es, e);
    OffsetsStep(es, e, l);
    BitsStep(es, e, nBits, nHashes);
  }

  lemma OffsetsStep(es: seq<Entry>, e: Entry, l: nat)
    requires l > 0
    ensures OffsetList(es + [e], l) == OffsetList(es, l) + (if |es| % l == 0 then [TableStart(es)] else [])
  {
    hide EntryPos;
    PositionStep(es, e);
    assert (es + [e])[..|es|] == es;
  }

  lemma BitsStep(es: seq<Entry>, e: Entry, nBits: nat, nHashes: nat)
    ensures Bloom.AllBits(Keys(es + [e]), nBits, nHashes)
         == Bloom.AllBits(Keys(es), nBits, nHashes) + Bloom.KeyBits(e.key, nBits, nHashes)
  {
    hide Bloom.KeyBits;
    assert Keys(es + [e])[..|es|] == Keys(es);
  }

  lemma PositionStep(es: seq<Entry>, e: Entry)
    ensures EntryPos(es + [e], |es|) == TableStart(es)
    ensures TableStart(es + [e]) == TableStart(es) + |EntryBytes(e)|
  {
    EntryPosPrefix(es, [e], |es|);
    EntryPosStep(es + [e], |es|);
  }

  lemma DataStep(f: seq<Byte>, es: seq<Entry>, e: Entry)
    requires es != [] ==> At(f, HEADER_SIZE, DataBytes(es))
    ensures At(Patched(f, EntryBytes(e), TableStart(es)), HEADER_SIZE, DataBytes(es + [e]))
  {
    hide At, Patched, EntryBytes;
    var g := Patched(f, EntryBytes(e), TableStart(es));
    assert es[..|es|] == es && (es + [e])[..|es|] == es;
    PatchedAt(f, EntryBytes(e), TableStart(es));
    if es != [] {
      PatchedFrame(f, EntryBytes(e), TableStart(es), HEADER_SIZE, DataBytes(es));
    } else {
      NoData(g);
    }
    AtSplit(g, HEADER_SIZE, DataBytes(es), EntryBytes(e));
  }

  lemma SortedStep(es: seq<Entry>, e: Entry)
    requires Sorted(es)
    requires es != [] ==> Compare(e.key, es[|es| - 1].key) >= 0
    ensures Sorted(es + [e])
  {
    forall i | 0 <= i < |es|
      ensures Compare(es[i].key, e.key) <= 0
    {
      var m := es[|es| - 1].key;
      CompareFlip(e.key, m);
      CompareEq(es[i].key, es[i].key);
      CompareTrans(es[i].key, m, e.key);
    }
  }

  /** Data in place, then table and filter behind it, then the header in front. */
  lemma FinishedImage(f: seq<Byte>, img: Image)
    requires img.entries != [] ==> At(f, HEADER_SIZE, DataBytes(img.entries))
    ensures var es := img.entries;
            var tail := TableBytes(es) + Bloom.FilterBytes(img.nHashes, img.buckets);
            var g := Patched(Patched(f, tail, TableStart(es)), HeaderBytes(TableStart(es), BloomStart(es)), 0);
            && At(g, 0, ImageBytes(img))
            && |g| == if |f| < |ImageBytes(img)| then |ImageBytes(img)| else |f|
  {
    hide BlockCount, Patched, HeaderBytes, Bloom.FilterBytes, TableBytes, ImageBytes, At, DataBytes;
    var es := img.entries;
    assert es[..|es|] == es;
    var filter, h := Bloom.FilterBytes(img.nHashes, img.buckets), HeaderBytes(TableStart(es), BloomStart(es));
    var tail := TableBytes(es) + filter;
    var g := Patched(f, tail, TableStart(es));
    PatchedAt(f, tail, TableStart(es));
    if es != [] {
      PatchedFrame(f, tail, TableStart(es), HEADER_SIZE, DataBytes(es));
    } else {
      NoData(g);
    }
    PatchedAt(g, h, 0);
    PatchedFrame(g, h, 0, HEADER_SIZE, DataBytes(es));
    PatchedFrame(g, h, 0, TableStart(es), tail);
    AtSplit(Patched(g, h, 0), TableStart(es), TableBytes(es), filter);
    ImageParts(Patched(g, h, 0), 0, img);
  }

  lemma NoData(g: seq<Byte>)
    requires |g| >= HEADER_SIZE
    ensures DataBytes([]) == [] && At(g, HEADER_SIZE, DataBytes([]))
  {
  }
}
