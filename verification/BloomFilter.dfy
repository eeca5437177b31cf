/** The Bloom filter embedded in a dictionary: an array of 32-bit buckets that stands for a set
    of bit positions. The bit count and the hash count are parameters; both come from
    floating-point formulas in the program. */
module BloomFilter {
  import opened Bytes
  import opened CStrings
  import opened Words

  // ---------- Hashing, in 32-bit arithmetic that wraps ----------

  const FNV_32_PRIME: nat := 16777619
  const FNV_32_OFFS_BASIS: Word := 2166136261

  function FnvMix(a: Word): Word {
    var a1 := Wrap(a + Wrap(a * 8192));
    var a2 := Xor(a1, a1 / 128);
    var a3 := Wrap(a2 + Wrap(a2 * 8));
    var a4 := Xor(a3, a3 / 131072);
    Wrap(a4 + Wrap(a4 * 32))
  }

  /** A `char` promoted to `int`: plain char is signed on the platforms shipped to. */
  function SignExtended(c: Byte): Word {
    if c < 128 then c else c + 0xFFFF_FF00
  }

  /** The FNV accumulator after a string. */
  function FnvFold(s: seq<Byte>): Word {
    if s == [] then FNV_32_OFFS_BASIS
    else Wrap(Xor(FnvFold(s[..|s| - 1]), SignExtended(s[|s| - 1])) * FNV_32_PRIME)
  }

  method Fnv1a(key: CString) returns (h: Word)
    ensures h == KeyHash(key)
  {
    var a: Word := FNV_32_OFFS_BASIS;
    for i := 0 to |key|
      invariant a == FnvFold(key[..i])
    {
      assert key[..i + 1][..i] == key[..i];
      a := Wrap(Xor(a, SignExtended(key[i])) * FNV_32_PRIME);
    }
    assert key[..|key|] == key;
    h := FnvMix(a);
  }

  function Fnv1aB(a: Word): Word {
    FnvMix(Wrap(a * FNV_32_PRIME))
  }

  /** The i-th bit position for the hash pair (a, b): an arithmetic progression that wraps
      at 32 bits before it is reduced. */
  function Position(a: nat, b: nat, nBits: nat, i: nat): (p: nat)
    requires nBits > 0
    ensures p < nBits
    decreases i
  {
    if i == 0 then a % nBits else Wrap(Position(a, b, nBits, i - 1) + b) % nBits
  }

  function FirstPositions(a: nat, b: nat, nBits: nat, n: nat): (s: set<nat>)
    requires nBits > 0
    ensures forall p | p in s :: p < nBits
    ensures forall i | 0 <= i < n :: Position(a, b, nBits, i) in s
    decreases n
  {
    if n == 0 then {} else FirstPositions(a, b, nBits, n - 1) + {Position(a, b, nBits, n - 1)}
  }

  function KeyHash(key: CString): Word {
    FnvMix(FnvFold(key))
  }

  /** The bits a key occupies. */
  function KeyBits(key: CString, nBits: nat, nHashes: nat): (s: set<nat>)
    ensures forall p | p in s :: p < nBits
  {
    if nBits == 0 then {} else FirstPositions(KeyHash(key), Fnv1aB(KeyHash(key)), nBits, nHashes)
  }

  /** The bits of all keys of a run. */
  function AllBits(keys: seq<CString>, nBits: nat, nHashes: nat): set<nat> {
    if keys == [] then {}
    else AllBits(keys[..|keys| - 1], nBits, nHashes) + KeyBits(keys[|keys| - 1], nBits, nHashes)
  }

  method ComputeHashes(key: CString, hashes: array<nat>, nBits: nat)
    requires 0 < nBits < TWO_32
    modifies hashes
    ensures forall i | 0 <= i < hashes.Length :: hashes[i] == Position(KeyHash(key), Fnv1aB(KeyHash(key)), nBits, i)
    ensures hashes.Length > 0 ==> hashes[0] == KeyHash(key) % nBits
    ensures 0x1_0000_0000 % nBits == 0 ==>
              forall i | 0 <= i < hashes.Length :: hashes[i] == (KeyHash(key) + i * Fnv1aB(KeyHash(key))) % nBits
    ensures forall i | 0 <= i < hashes.Length ::
              (forall j | 0 <= j < i :: hashes[j] + Fnv1aB(KeyHash(key)) < 0x1_0000_0000) ==>
                hashes[i] == (KeyHash(key) + i * Fnv1aB(KeyHash(key))) % nBits
  {
    hide KeyHash, Fnv1aB, Position;
    var a := Fnv1a(key);
    var b := Fnv1aB(a);
    FillHashes(a, b, hashes, nBits);
    Slots(a, b, nBits, hashes[..]);
  }

  /** What the slots hold: the first the hash itself, and then a plain progression, if the bit
      count divides 2^32, or as long as no sum wraps. */
  lemma Slots(a: nat, b: nat, nBits: nat, hashes: seq<nat>)
    requires 0 < nBits < TWO_32 && forall i | 0 <= i < |hashes| :: hashes[i] == Position(a, b, nBits, i)
    ensures |hashes| > 0 ==> hashes[0] == a % nBits
    ensures forall i | 0 <= i < |hashes| :: 0x1_0000_0000 % nBits == 0 ==> hashes[i] == (a + i * b) % nBits
    ensures forall i | 0 <= i < |hashes| ::
              (forall j | 0 <= j < i :: hashes[j] + b < 0x1_0000_0000) ==> hashes[i] == (a + i * b) % nBits
  {
    hide Position;
    PositionStep(a, b, nBits, 0);
    forall i | 0 <= i < |hashes|
      ensures 0x1_0000_0000 % nBits == 0 || (forall j | 0 <= j < i :: hashes[j] + b < 0x1_0000_0000) ==>
                hashes[i] == (a + i * b) % nBits
    {
      if 0x1_0000_0000 % nBits == 0 || (forall j | 0 <= j < i :: hashes[j] + b < 0x1_0000_0000) {
        forall j | 0 <= j < i
          ensures 0x1_0000_0000 % nBits == 0 || Position(a, b, nBits, j) + b < TWO_32
        {
          assert hashes[j] == Position(a, b, nBits, j);
        }
        PositionClosed(a, b, nBits, i);
      }
    }
  }

  /** Each position is the one before plus the second hash, wrapped and then reduced. */
  lemma PositionStep(a: nat, b: nat, nBits: nat, i: nat)
    requires nBits > 0
    ensures Position(a, b, nBits, i)
         == if i == 0 then a % nBits else (Position(a, b, nBits, i - 1) + b) % 0x1_0000_0000 % nBits
  {
  }

  lemma {:induction false} PositionClosed(a: nat, b: nat, nBits: nat, i: nat)
    requires nBits > 0
    requires forall j | 0 <= j < i :: TWO_32 % nBits == 0 || Position(a, b, nBits, j) + b < TWO_32
    ensures Position(a, b, nBits, i) == (a + i * b) % nBits
    decreases i
  {
    hide Position;
    PositionStep(a, b, nBits, i);
    if i == 0 {
      assert a + 0 * b == a;
    } else {
      PositionClosed(a, b, nBits, i - 1);
      var x := Position(a, b, nBits, i - 1);
      if TWO_32 % nBits == 0 {
        WrapKeepsMod(x + b, nBits);
      }
      ModAdd(a + (i - 1) * b, b, nBits);
      assert a + (i - 1) * b + b == a + i * b;
    }
  }

  /** Reducing before an addition or after it is the same. */
  lemma ModAdd(y: nat, b: nat, n: nat)
    requires n > 0
    ensures (y % n + b) % n == (y + b) % n
  {
    var (q, r) := (y / n, y % n + b);
    assert n * (q + r / n) == n * q + n * (r / n);
    ModUnique(y + b, n, q + r / n, r % n);
  }

  /** And so is reducing before or after wrapping, if the modulus divides 2^32. */
  lemma WrapKeepsMod(z: nat, n: nat)
    requires n > 0 && TWO_32 % n == 0
    ensures z % TWO_32 % n == z % n
  {
    var (q, w, m) := (z / TWO_32, z % TWO_32, TWO_32 / n);
    assert n * (m * q + w / n) == n * m * q + n * (w / n);
    ModUnique(z, n, m * q + w / n, w % n);
  }

  /** The bits a key occupies are its slots. */
  lemma {:induction false} PositionAmong(a: nat, b: nat, nBits: nat, n: nat, p: nat) returns (i: nat)
    requires nBits > 0 && p in FirstPositions(a, b, nBits, n)
    ensures i < n && p == Position(a, b, nBits, i)
    decreases n
  {
    hide Position;
    i := n - 1;
    if p != Position(a, b, nBits, n - 1) {
      i := PositionAmong(a, b, nBits, n - 1, p);
    }
  }

  lemma KeyBitsMembers(key: CString, nBits: nat, nHashes: nat, p: nat)
    ensures p in KeyBits(key, nBits, nHashes) <==>
              nBits > 0 && exists i :: 0 <= i < nHashes && p == Position(KeyHash(key), Fnv1aB(KeyHash(key)), nBits, i)
  {
    hide KeyHash, Fnv1aB, Position, FirstPositions;
    if p in KeyBits(key, nBits, nHashes) {
      var i := PositionAmong(KeyHash(key), Fnv1aB(KeyHash(key)), nBits, nHashes, p);
    }
  }

  /** One character more: it is taken as a signed `char`, exclusive-ored into the accumulator, and
      the product with the FNV prime wraps. */
  lemma FoldStep(s: seq<Byte>, c: Byte)
    ensures FnvFold([]) == 0x811C_9DC5
    ensures c < 128 ==> FnvFold(s + [c]) == Xor(FnvFold(s), c) * 0x0100_0193 % 0x1_0000_0000
    ensures c >= 128 ==> FnvFold(s + [c]) == Xor(FnvFold(s), 0x1_0000_0000 + c - 256) * 0x0100_0193 % 0x1_0000_0000
  {
    hide Xor;
    assert (s + [c])[..|s|] == s;
  }

  method FillHashes(a: nat, b: nat, hashes: array<nat>, nBits: nat)
    requires 0 < nBits < TWO_32
    modifies hashes
    ensures forall i | 0 <= i < hashes.Length :: hashes[i] == Position(a, b, nBits, i)
  {
    var x := a % nBits;
    for i := 0 to hashes.Length
      invariant x == Position(a, b, nBits, i)
      invariant forall k | 0 <= k < i :: hashes[k] == Position(a, b, nBits, k)
    {
      hashes[i] := x;
      x := Wrap(x + b) % nBits;
    }
  }

  lemma {:induction false} AllBitsHas(keys: seq<CString>, nBits: nat, nHashes: nat, i: nat)
    requires i < |keys|
    ensures KeyBits(keys[i], nBits, nHashes) <= AllBits(keys, nBits, nHashes)
    decreases |keys|
  {
    hide KeyBits;
    if i < |keys| - 1 {
      AllBitsHas(keys[..|keys| - 1], nBits, nHashes, i);
    }
  }

  lemma {:induction false} AllBitsFrom(keys: seq<CString>, nBits: nat, nHashes: nat, p: nat) returns (i: nat)
    requires p in AllBits(keys, nBits, nHashes)
    ensures i < |keys| && p in KeyBits(keys[i], nBits, nHashes)
    decreases |keys|
  {
    hide KeyBits;
    i := |keys| - 1;
    if p !in KeyBits(keys[i], nBits, nHashes) {
      i := AllBitsFrom(keys[..i], nBits, nHashes, p);
    }
  }

  /** A position is set after a run of adds iff some added key hashes to it. */
  lemma AllBitsMembers(keys: seq<CString>, nBits: nat, nHashes: nat, p: nat)
    ensures p in AllBits(keys, nBits, nHashes) <==> exists i :: 0 <= i < |keys| && p in KeyBits(keys[i], nBits, nHashes)
  {
    hide KeyBits, AllBits;
    if p in AllBits(keys, nBits, nHashes) {
      var i := AllBitsFrom(keys, nBits, nHashes, p);
    }
    if i :| 0 <= i < |keys| && p in KeyBits(keys[i], nBits, nHashes) {
      AllBitsHas(keys, nBits, nHashes, i);
    }
  }

  lemma AllBitsWithin(a: seq<CString>, b: seq<CString>, nBits: nat, nHashes: nat)
    requires forall k :: k in a ==> k in b
    ensures AllBits(a, nBits, nHashes) <= AllBits(b, nBits, nHashes)
  {
    hide KeyBits, AllBits;
    forall p | p in AllBits(a, nBits, nHashes)
      ensures p in AllBits(b, nBits, nHashes)
    {
      var i := AllBitsFrom(a, nBits, nHashes, p);
      assert a[i] in a;
      var j :| 0 <= j < |b| && b[j] == a[i];
      AllBitsHas(b, nBits, nHashes, j);
    }
  }

  /** Neither the order of the adds nor repeating one changes the filter. */
  lemma AddOrderIrrelevant(a: seq<CString>, b: seq<CString>, nBits: nat, nHashes: nat)
    requires forall k :: k in a <==> k in b
    ensures AllBits(a, nBits, nHashes) == AllBits(b, nBits, nHashes)
  {
    hide KeyBits, AllBits;
    AllBitsWithin(a, b, nBits, nHashes);
    AllBitsWithin(b, a, nBits, nHashes);
  }

  /** No false negatives. */
  lemma AddedKeyCovered(keys: seq<CString>, key: CString, nBits: nat, nHashes: nat)
    requires key in keys
    ensures KeyBits(key, nBits, nHashes) <= AllBits(keys, nBits, nHashes)
  {
    hide KeyBits, AllBits;
    var i :| 0 <= i < |keys| && keys[i] == key;
    AllBitsHas(keys, nBits, nHashes, i);
  }

  // ---------- Buckets as a set of positions ----------

  predicate HasBit(buckets: seq<Word>, p: nat)
    requires p < 32 * |buckets|
  {
    Bit(buckets[p / 32], p % 32)
  }

  function BitsOf(buckets: seq<Word>): (s: set<nat>) {
    set p | 0 <= p < 32 * |buckets| && HasBit(buckets, p)
  }

  /** Position `p` is digit `p % 32` of bucket `p / 32`. */
  lemma BitsMembers(buckets: seq<Word>, p: nat)
    ensures p in BitsOf(buckets) <==> p < 32 * |buckets| && buckets[p / 32] / Pow2(p % 32) % 2 == 1
  {
    hide Bit;
    if p < 32 * |buckets| {
      BitMeaning(buckets[p / 32], p % 32);
    }
  }

  lemma SetOneBitAt(buckets: seq<Word>, h: nat, p: nat)
    requires h < 32 * |buckets| && p < 32 * |buckets|
    ensures HasBit(buckets[h / 32 := Or(buckets[h / 32], Mask(h % 32))], p) <==> HasBit(buckets, p) || p == h
  {
    var w := buckets[h / 32];
    if p / 32 == h / 32 {
      assert buckets[h / 32 := Or(w, Mask(h % 32))][p / 32] == Or(w, Mask(h % 32));
      OrMask(w, h % 32, p % 32);
    } else {
      assert buckets[h / 32 := Or(w, Mask(h % 32))][p / 32] == buckets[p / 32];
    }
  }

  /** Or-ing one mask into one bucket adds exactly one position. */
  lemma SetOneBit(buckets: seq<Word>, h: nat)
    requires h < 32 * |buckets|
    ensures BitsOf(buckets[h / 32 := Or(buckets[h / 32], Mask(h % 32))]) == BitsOf(buckets) + {h}
  {
    var after := buckets[h / 32 := Or(buckets[h / 32], Mask(h % 32))];
    forall p: nat
      ensures p in BitsOf(after) <==> p in BitsOf(buckets) + {h}
    {
      if p < 32 * |buckets| {
        SetOneBitAt(buckets, h, p);
      }
    }
  }

  lemma NoBits(buckets: seq<Word>)
    requires forall i | 0 <= i < |buckets| :: buckets[i] == 0
    ensures BitsOf(buckets) == {}
  {
    forall p: nat | p < 32 * |buckets|
      ensures !HasBit(buckets, p)
    {
      ZeroBit(p % 32);
    }
  }

  // ---------- On disk ----------

  const HEADER_SIZE: nat := 12

  function BucketBytes(buckets: seq<Word>): (s: seq<Byte>)
    ensures |s| == 4 * |buckets|
  {
    if buckets == [] then []
    else BucketBytes(buckets[..|buckets| - 1]) + Le(buckets[|buckets| - 1], 4)
  }

  function FilterHeader(nBits: nat, nHashes: nat): (s: seq<Byte>)
    ensures |s| == HEADER_SIZE
  {
    Le(nBits, 4) + Le(nBits / 32, 4) + Le(nHashes, 4)
  }

  function FilterBytes(nHashes: nat, buckets: seq<Word>): (s: seq<Byte>)
    ensures |s| == HEADER_SIZE + 4 * |buckets|
  {
    FilterHeader(32 * |buckets|, nHashes) + BucketBytes(buckets)
  }

  lemma {:induction false} BucketAt(file: seq<Byte>, off: nat, buckets: seq<Word>, i: nat)
    requires At(file, off, BucketBytes(buckets)) && i < |buckets|
    ensures At(file, off + 4 * i, Le(buckets[i], 4))
    decreases |buckets|
  {
    var last := |buckets| - 1;
    AtSplit(file, off, BucketBytes(buckets[..last]), Le(buckets[last], 4));
    if i < last {
      BucketAt(file, off, buckets[..last], i);
    }
  }

  lemma {:induction false} FromLeBound(s: seq<Byte>)
    ensures FromLe(s) < Pow256(|s|)
  {
    if s != [] {
      FromLeBound(s[1..]);
    }
  }

  /** Four bytes of a buffer as the machine word they are. */
  function WordAt(data: seq<Byte>, i: nat): Word
    requires 4 * i + 4 <= |data|
  {
    FromLeBound(data[4 * i..4 * i + 4]);
    Pow256Values();
    FromLe(data[4 * i..4 * i + 4])
  }

  lemma HeaderFields(file: seq<Byte>, off: nat, nBits: nat, nHashes: nat)
    requires At(file, off, FilterHeader(nBits, nHashes))
    requires nBits < TWO_32 && nHashes < TWO_32
    ensures var h := Slice(file, HEADER_SIZE, off);
            |h| == HEADER_SIZE && FromLe(h[0..4]) == nBits && FromLe(h[4..8]) == nBits / 32 && FromLe(h[8..12]) == nHashes
  {
    AtSlice(file, off, FilterHeader(nBits, nHashes));
    var h := FilterHeader(nBits, nHashes);
    assert h[0..4] == Le(nBits, 4) && h[4..8] == Le(nBits / 32, 4) && h[8..12] == Le(nHashes, 4);
    Le4(nBits);
    Le4(nBits / 32);
    Le4(nHashes);
  }

  lemma WordRead(file: seq<Byte>, off: nat, buckets: seq<Word>, i: nat)
    requires At(file, off, BucketBytes(buckets)) && i < |buckets|
    ensures |Slice(file, 4 * |buckets|, off)| == 4 * |buckets|
    ensures WordAt(Slice(file, 4 * |buckets|, off), i) == buckets[i]
  {
    hide FromLe, Slice, Le, At, BucketBytes, WordAt;
    var data, w := Slice(file, 4 * |buckets|, off), buckets[i];
    BucketAt(file, off, buckets, i);
    AtSlice(file, off, BucketBytes(buckets));
    SlicePart(file, off, 4 * |buckets|, 4 * i, 4);
    AtSlice(file, off + 4 * i, Le(w, 4));
    WordOfBytes(data, i, w);
  }

  lemma WordOfBytes(data: seq<Byte>, i: nat, w: Word)
    requires 4 * i + 4 <= |data| && data[4 * i..4 * i + 4] == Le(w, 4)
    ensures WordAt(data, i) == w
  {
    hide FromLe, Le;
    Le4(w);
  }

  lemma WordsRead(file: seq<Byte>, off: nat, buckets: seq<Word>)
    requires At(file, off, BucketBytes(buckets))
    ensures |Slice(file, 4 * |buckets|, off)| == 4 * |buckets|
    ensures forall i | 0 <= i < |buckets| :: WordAt(Slice(file, 4 * |buckets|, off), i) == buckets[i]
  {
    forall i | 0 <= i < |buckets|
      ensures WordAt(Slice(file, 4 * |buckets|, off), i) == buckets[i]
    {
      WordRead(file, off, buckets, i);
    }
  }

  // ---------- Reading a filter back ----------

  /** The header read over zeroed memory: a read that is short at the end of the file leaves zeros. */
  function HeaderAt(file: seq<Byte>, offset: nat): (h: seq<Byte>)
    ensures |h| == HEADER_SIZE
  {
    Padded(Slice(file, HEADER_SIZE, offset), HEADER_SIZE)
  }

  /** And so are `n` buckets. */
  function BucketsAt(file: seq<Byte>, offset: nat, n: nat): (b: seq<Word>)
    ensures |b| == n
  {
    var data := Padded(Slice(file, 4 * n, offset), 4 * n);
    seq(n, i requires 0 <= i < n => WordAt(data, i))
  }

  /** A stored filter reads back with its counts and buckets. */
  lemma StoredFilterRead(filter: BloomFilter, file: seq<Byte>, offset: nat, hashes: nat, stored: seq<Word>)
    requires filter.ReadFrom(file, offset) && At(file, offset, FilterBytes(hashes, stored))
    requires 32 * |stored| < TWO_32 && hashes < TWO_32
    ensures filter.Valid() && filter.nBits == 32 * |stored| && filter.nHashes == hashes && filter.buckets[..] == stored
  {
    hide FromLe, At, FilterHeader, BucketBytes, Padded, WordAt;
    AtSplit(file, offset, FilterHeader(32 * |stored|, hashes), BucketBytes(stored));
    HeaderFields(file, offset, 32 * |stored|, hashes);
    WholePadded(Slice(file, HEADER_SIZE, offset));
    WordsRead(file, offset + HEADER_SIZE, stored);
    WholePadded(Slice(file, 4 * |stored|, offset + HEADER_SIZE));
  }

  lemma WholePadded(s: seq<Byte>)
    ensures Padded(s, |s|) == s
  {
    assert s[..|s|] == s;
  }

  class BloomFilter {
    var nBits: nat
    var nBuckets: nat
    var nHashes: nat
    var buckets: array<Word>

    ghost predicate Valid()
      reads this, buckets
    {
      && nBits == 32 * nBuckets && nBuckets == buckets.Length
      && nBits < TWO_32 && nHashes < TWO_32
    }

    /** The set of positions this filter stands for. */
    ghost function Bits(): set<nat>
      reads this, buckets
    {
      BitsOf(buckets[..])
    }

    /** The bit count is rounded up to whole buckets. */
    constructor InitForParams(optimalBits: nat, hashes: nat)
      requires optimalBits + 31 < TWO_32 && hashes < TWO_32
      ensures Valid() && fresh(buckets)
      ensures optimalBits <= nBits < optimalBits + 32 && nHashes == hashes
      ensures Bits() == {}
    {
      nBits := Align(optimalBits);
      nBuckets := Align(optimalBits) / 32;
      nHashes := hashes;
      buckets := new Word[Align(optimalBits) / 32](_ => 0);
      new;
      NoBits(buckets[..]);
    }

    /** The filter holds what the file has at `offset`, whatever that is. */
    ghost predicate ReadFrom(file: seq<Byte>, offset: nat)
      reads this, buckets
    {
      var header := HeaderAt(file, offset);
      && nBits == FromLe(header[0..4]) && nBuckets == FromLe(header[4..8]) && nHashes == FromLe(header[8..12])
      && buckets[..] == BucketsAt(file, offset + HEADER_SIZE, nBuckets)
    }

    /** Reads a filter. */
    constructor InitForFd(fd: File, offset: nat)
      ensures fresh(buckets) && ReadFrom(fd.bytes, offset)
    {
      hide FromLe;
      var header := Padded(fd.Pread(HEADER_SIZE, offset), HEADER_SIZE);
      var n := FromLe(header[4..8]);
      nBits, nBuckets, nHashes := FromLe(header[0..4]), n, FromLe(header[8..12]);
      var data := Padded(fd.Pread(4 * n, offset + HEADER_SIZE), 4 * n);
      buckets := new Word[n](i requires 0 <= i < n => WordAt(data, i));
    }

    method WriteToStream(out: OutputStream)
      requires Valid()
      modifies out, out.file
      ensures out.file.bytes == Patched(old(out.file.bytes), FilterBytes(nHashes, buckets[..]), old(out.pos))
      ensures out.pos == old(out.pos) + |FilterBytes(nHashes, buckets[..])|
    {
      out.Write(FilterHeader(nBits, nHashes));
      PatchedTwice(old(out.file.bytes), FilterHeader(nBits, nHashes), BucketBytes(buckets[..]), old(out.pos));
      out.Write(BucketBytes(buckets[..]));
    }

    method Add(key: CString)
      requires Valid()
      modifies buckets
      ensures Valid()
      ensures Bits() == old(Bits()) + KeyBits(key, nBits, nHashes)
    {
      if nBits == 0 {
        return;
      }
      var hashes := new nat[nHashes];
      ComputeHashes(key, hashes, nBits);
      SetAll(hashes[..], KeyHash(key), Fnv1aB(KeyHash(key)));
    }

    method SetAll(hashes: seq<nat>, ghost a: Word, ghost b: Word)
      requires Valid() && nBits > 0 && |hashes| == nHashes
      requires forall k | 0 <= k < nHashes :: hashes[k] == Position(a, b, nBits, k)
      modifies buckets
      ensures Valid()
      ensures Bits() == old(Bits()) + FirstPositions(a, b, nBits, nHashes)
    {
      for i := 0 to nHashes
        invariant Bits() == old(Bits()) + FirstPositions(a, b, nBits, i)
      {
        SetPosition(hashes[i]);
      }
    }

    method SetPosition(h: nat)
      requires Valid() && h < nBits
      modifies buckets
      ensures Valid() && Bits() == old(Bits()) + {h}
    {
      var bucket := h / 32;
      assert bucket < nBuckets;
      ghost var before := buckets[..];
      SetOneBit(before, h);
      buckets[bucket] := Or(buckets[bucket], Mask(h % 32));
      assert buckets[..] == before[bucket := Or(before[bucket], Mask(h % 32))];
    }

    method Test(key: CString) returns (r: bool)
      requires Valid()
      ensures r <==> nBits != 0 && KeyBits(key, nBits, nHashes) <= Bits()
    {
      if nBits == 0 {
        return false;
      }
      var hashes := new nat[nHashes];
      ComputeHashes(key, hashes, nBits);
      r := TestAll(hashes[..], KeyHash(key), Fnv1aB(KeyHash(key)));
    }

    method TestAll(hashes: seq<nat>, ghost a: Word, ghost b: Word) returns (r: bool)
      requires Valid() && nBits > 0 && |hashes| == nHashes
      requires forall k | 0 <= k < nHashes :: hashes[k] == Position(a, b, nBits, k)
      ensures r <==> FirstPositions(a, b, nBits, nHashes) <= Bits()
    {
      for i := 0 to nHashes
        invariant FirstPositions(a, b, nBits, i) <= Bits()
      {
        var h := hashes[i];
        var bucket := h / 32;
        assert bucket < nBuckets;
        assert h in Bits() <==> HasBit(buckets[..], h);
        AndMask(buckets[bucket], h % 32);
        if And(buckets[bucket], Mask(h % 32)) == 0 {
          return false;
        }
      }
      return true;
    }
  }

  /** A run of adds on a fresh filter, written out and read back at any offset. */
  method AddAllAndReload(keys: seq<CString>, optimalBits: nat, hashes: nat, out: OutputStream) returns (reloaded: BloomFilter)
    requires optimalBits + 31 < TWO_32 && hashes < TWO_32
    modifies out, out.file
    ensures reloaded.Valid() && reloaded.nBits == Align(optimalBits) && reloaded.nHashes == hashes
    ensures reloaded.Bits() == AllBits(keys, reloaded.nBits, hashes)
  {
    hide KeyBits, AllBits, BitsOf, FilterBytes, Patched, At, BloomFilter.ReadFrom;
    var filter := new BloomFilter.InitForParams(optimalBits, hashes);
    NoKeys(filter.nBits, hashes);
    for i := 0 to |keys|
      invariant filter.Valid() && fresh(filter) && fresh(filter.buckets)
      invariant filter.nBits == Align(optimalBits) && filter.nHashes == hashes
      invariant filter.Bits() == AllBits(keys[..i], filter.nBits, hashes)
    {
      OneMoreKey(keys, i, filter.nBits, hashes);
      filter.Add(keys[i]);
    }
    assert keys[..|keys|] == keys;
    var at := out.pos;
    ghost var before := out.file.bytes;
    filter.WriteToStream(out);
    PatchedAt(before, FilterBytes(hashes, filter.buckets[..]), at);
    reloaded := new BloomFilter.InitForFd(out.file, at);
    StoredFilterRead(reloaded, out.file.bytes, at, hashes, filter.buckets[..]);
  }

  lemma NoKeys(nBits: nat, nHashes: nat)
    ensures AllBits([], nBits, nHashes) == {}
  {
  }

  lemma OneMoreKey(keys: seq<CString>, i: nat, nBits: nat, nHashes: nat)
    requires i < |keys|
    ensures AllBits(keys[..i + 1], nBits, nHashes) == AllBits(keys[..i], nBits, nHashes) + KeyBits(keys[i], nBits, nHashes)
  {
    hide KeyBits;
    assert keys[..i + 1][..i] == keys[..i];
  }
}
