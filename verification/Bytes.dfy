/** Bytes, little-endian integers, and the file both formats are stored in.
    A file is a growing sequence of bytes: `pwrite` past the end leaves a hole of zeros,
    `pread` is short only at the end of the file. */
module Bytes {

  type Byte = b: int | 0 <= b < 256

  const TWO_32: nat := 0x1_0000_0000
  const TWO_63: nat := 0x8000_0000_0000_0000
  const TWO_64: nat := 0x1_0000_0000_0000_0000

  function Min(a: int, b: int): int {
    if a <= b then a else b
  }

  function Zeros(n: nat): (s: seq<Byte>)
    ensures |s| == n && forall i | 0 <= i < n :: s[i] == 0
  {
    seq(n, _ => 0)
  }

  /** The ALIGN macro: the least multiple of 32 that is not below `n`. */
  function Align(n: nat): (r: nat)
    ensures n <= r < n + 32 && r % 32 == 0
  {
    (n + 31) / 32 * 32
  }

  /** A buffer of `n` bytes that a read has filled as far as the file went. */
  function Padded(s: seq<Byte>, n: nat): (r: seq<Byte>)
    requires |s| <= n
    ensures |r| == n && r[..|s|] == s && forall i | |s| <= i < n :: r[i] == 0
  {
    s + Zeros(n - |s|)
  }

  // ---------- Little-endian integers ----------

  function Pow256(k: nat): (p: nat)
    ensures p > 0
  {
    if k == 0 then 1 else 256 * Pow256(k - 1)
  }

  /** Byte `i` of `v`, counted from the least significant one. */
  function Digit(v: nat, i: nat): Byte
    decreases i
  {
    if i == 0 then v % 256 else Digit(v / 256, i - 1)
  }

  /** `k` bytes of `v`, least significant first; higher bytes are cut off. */
  function Le(v: nat, k: nat): (s: seq<Byte>)
    ensures |s| == k
  {
    seq(k, i requires 0 <= i < k => Digit(v, i))
  }

  function FromLe(s: seq<Byte>): nat {
    if s == [] then 0 else s[0] + 256 * FromLe(s[1..])
  }

  /** What the bytes of a number stand for: the first is the least significant one. */
  lemma FromLeBytes(a: nat, b: nat, c: nat, d: nat, e: nat, f: nat, g: nat, h: nat)
    requires a < 256 && b < 256 && c < 256 && d < 256 && e < 256 && f < 256 && g < 256 && h < 256
    ensures FromLe([a]) == a && FromLe([a, b]) == a + 0x100 * b
    ensures FromLe([a, b, c, d]) == a + 0x100 * b + 0x1_0000 * c + 0x100_0000 * d
    ensures FromLe([a, b, c, d, e, f, g, h])
         == a + 0x100 * b + 0x1_0000 * c + 0x100_0000 * d + 0x1_0000_0000 * e + 0x100_0000_0000 * f
            + 0x1_0000_0000_0000 * g + 0x100_0000_0000_0000 * h
  {
    hide FromLe;
    FromLeNone();
    FromLeMore(a, [], [a]);
    FromLeMore(b, [], [b]);
    FromLeMore(a, [b], [a, b]);
    FromLeMore(d, [], [d]);
    FromLeMore(c, [d], [c, d]);
    FromLeMore(b, [c, d], [b, c, d]);
    FromLeMore(a, [b, c, d], [a, b, c, d]);
    FromLeMore(h, [], [h]);
    FromLeMore(g, [h], [g, h]);
    FromLeMore(f, [g, h], [f, g, h]);
    FromLeMore(e, [f, g, h], [e, f, g, h]);
    FromLeMore(d, [e, f, g, h], [d, e, f, g, h]);
    FromLeMore(c, [d, e, f, g, h], [c, d, e, f, g, h]);
    FromLeMore(b, [c, d, e, f, g, h], [b, c, d, e, f, g, h]);
    FromLeMore(a, [b, c, d, e, f, g, h], [a, b, c, d, e, f, g, h]);
  }

  lemma FromLeNone()
    ensures FromLe([]) == 0
  {
  }

  lemma FromLeMore(x: Byte, s: seq<Byte>, t: seq<Byte>)
    requires t == [x] + s
    ensures FromLe(t) == x + 256 * FromLe(s)
  {
    assert t[1..] == s;
  }

  lemma {:induction false} LeRoundTrip(v: nat, k: nat)
    ensures FromLe(Le(v, k)) == v % Pow256(k)
    decreases k
  {
    if k > 0 {
      var p := Pow256(k - 1);
      LeRoundTrip(v / 256, k - 1);
      assert Le(v, k)[1..] == Le(v / 256, k - 1);
      DigitSplit(v, p);
    }
  }

  lemma DigitSplit(v: nat, p: nat)
    requires p > 0
    ensures v % 256 + 256 * ((v / 256) % p) == v % (256 * p)
  {
    var q, r := v / 256 / p, v % 256 + 256 * ((v / 256) % p);
    assert v == 256 * p * q + r by {
      assert v / 256 == p * q + (v / 256) % p;
    }
    assert 0 <= r < 256 * p;
    ModUnique(v, 256 * p, q, r);
  }

  lemma ModUnique(v: nat, m: nat, q: int, r: int)
    requires m > 0 && v == m * q + r && 0 <= r < m
    ensures v % m == r
  {
    var d: int := v / m - q;
    var md: int := m * d;
    assert md == r - v % m;
    assert md < m && 0 < md + m;
    assert d == 0;
  }

  lemma Pow256Values()
    ensures Pow256(1) == 256 && Pow256(2) == 65536 && Pow256(4) == TWO_32 && Pow256(8) == TWO_64
  {
    assert Pow256(3) == 256 * Pow256(2);
    assert Pow256(5) == 256 * Pow256(4);
    assert Pow256(6) == 256 * Pow256(5);
    assert Pow256(7) == 256 * Pow256(6);
  }

  /** The widths the formats use, with the round trip each one gives. */
  lemma Le2(v: nat)
    requires v < 65536
    ensures FromLe(Le(v, 2)) == v
  {
    Pow256Values();
    LeWidth(v, 2);
  }

  lemma Le4(v: nat)
    requires v < TWO_32
    ensures FromLe(Le(v, 4)) == v
  {
    Pow256Values();
    LeWidth(v, 4);
  }

  lemma Le8(v: nat)
    requires v < TWO_64
    ensures FromLe(Le(v, 8)) == v
  {
    Pow256Values();
    LeWidth(v, 8);
  }

  lemma LeWidth(v: nat, k: nat)
    ensures v < Pow256(k) ==> FromLe(Le(v, k)) == v
  {
    LeRoundTrip(v, k);
    if v < Pow256(k) {
      ModUnique(v, Pow256(k), 0, v);
    }
  }

  // ---------- Reading and writing at an offset ----------

  /** What `pread` of `n` bytes at `off` delivers. */
  function Slice(file: seq<Byte>, n: nat, off: nat): (r: seq<Byte>)
    ensures |r| == (if off <= |file| then Min(n, |file| - off) else 0)
  {
    if off <= |file| then file[off..off + Min(n, |file| - off)] else []
  }

  /** What the file holds after `pwrite` of `data` at `off`. */
  function Patched(file: seq<Byte>, data: seq<Byte>, off: nat): (r: seq<Byte>) {
    if data == [] then file else
      var base := if |file| < off then file + Zeros(off - |file|) else file;
      base[..off] + data + (if off + |data| < |base| then base[off + |data|..] else [])
  }

  /** `data` is stored at `off`. */
  ghost predicate At(file: seq<Byte>, off: nat, data: seq<Byte>) {
    off + |data| <= |file| && file[off..off + |data|] == data
  }

  lemma PatchedAt(file: seq<Byte>, data: seq<Byte>, off: nat)
    requires data != []
    ensures |Patched(file, data, off)| == (if off + |data| < |file| then |file| else off + |data|)
    ensures At(Patched(file, data, off), off, data)
    ensures forall i | 0 <= i < |file| && !(off <= i < off + |data|) :: Patched(file, data, off)[i] == file[i]
    ensures forall i | |file| <= i < off :: Patched(file, data, off)[i] == 0
  {
  }

  /** A write leaves every range it does not touch as it was. */
  lemma PatchedFrame(file: seq<Byte>, data: seq<Byte>, off: nat, a: nat, x: seq<Byte>)
    requires At(file, a, x)
    requires a + |x| <= off || off + |data| <= a || data == []
    ensures At(Patched(file, data, off), a, x)
  {
    if data != [] {
      PatchedAt(file, data, off);
      var g := Patched(file, data, off);
      assert forall i | 0 <= i < |x| :: g[a + i] == file[a + i] && file[a..a + |x|][i] == x[i];
    }
  }

  /** Two writes that follow each other are one write. */
  lemma PatchedTwice(file: seq<Byte>, a: seq<Byte>, b: seq<Byte>, off: nat)
    requires a != []
    ensures Patched(Patched(file, a, off), b, off + |a|) == Patched(file, a + b, off)
  {
    if b == [] {
      assert a + b == a;
    } else {
      var f, h := Patched(Patched(file, a, off), b, off + |a|), Patched(file, a + b, off);
      assert |f| == |h|;
      assert forall i | 0 <= i < |f| :: f[i] == h[i];
    }
  }

  lemma AtSplit(file: seq<Byte>, off: nat, a: seq<Byte>, b: seq<Byte>)
    ensures At(file, off, a + b) <==> At(file, off, a) && At(file, off + |a|, b)
  {
    if off + |a| + |b| <= |file| {
      var s := file[off..off + |a| + |b|];
      assert s[..|a|] == file[off..off + |a|];
      assert s[|a|..] == file[off + |a|..off + |a| + |b|];
      if s == a + b {
        assert s[..|a|] == a && s[|a|..] == b;
      }
      if file[off..off + |a|] == a && file[off + |a|..off + |a| + |b|] == b {
        assert s == s[..|a|] + s[|a|..];
      }
    }
  }

  /** A stored string is what a read of its length delivers. */
  lemma AtSlice(file: seq<Byte>, off: nat, data: seq<Byte>)
    requires At(file, off, data)
    ensures Slice(file, |data|, off) == data
  {
  }

  lemma SlicePart(file: seq<Byte>, off: nat, n: nat, i: nat, len: nat)
    requires off + n <= |file| && i + len <= n
    ensures Slice(file, n, off)[i..i + len] == Slice(file, len, off + i)
  {
    var whole, part := Slice(file, n, off), Slice(file, len, off + i);
    assert whole == file[off..off + n] && part == file[off + i..off + i + len];
    assert forall k | 0 <= k < len :: whole[i..i + len][k] == part[k];
  }

  /** A piece of a stored string is stored too. */
  lemma AtPart(file: seq<Byte>, off: nat, data: seq<Byte>, i: nat, j: nat)
    requires At(file, off, data) && i <= j <= |data|
    ensures At(file, off + i, data[i..j])
  {
    assert data == data[..i] + (data[i..j] + data[j..]);
    AtSplit(file, off, data[..i], data[i..j] + data[j..]);
    AtSplit(file, off + i, data[i..j], data[j..]);
  }

  /** A field of a structure that is stored in the file. */
  lemma FieldAt(file: seq<Byte>, at: nat, s: seq<Byte>, i: nat, j: nat)
    requires At(file, at, s) && i <= j <= |s|
    ensures at + j <= |file| && file[at + i..at + j] == s[i..j]
  {
    AtPart(file, at, s, i, j);
  }

  /** What is stored in a file is stored wherever the file is stored. */
  lemma AtInside(file: seq<Byte>, at: nat, inner: seq<Byte>, off: nat, data: seq<Byte>)
    requires At(file, at, inner) && At(inner, off, data)
    ensures At(file, at + off, data)
  {
    AtPart(file, at, inner, off, off + |data|);
  }

  lemma AtByte(file: seq<Byte>, off: nat, data: seq<Byte>, i: nat)
    requires At(file, off, data) && i < |data|
    ensures off + i < |file| && file[off + i] == data[i]
  {
    assert file[off..off + |data|][i] == data[i];
  }

  /** `data` is stored at `off`, wherever nothing is stored. */
  ghost predicate Has(file: seq<Byte>, off: nat, data: seq<Byte>) {
    data != [] ==> At(file, off, data)
  }

  lemma HasPatched(file: seq<Byte>, data: seq<Byte>, off: nat)
    ensures Has(Patched(file, data, off), off, data)
  {
    hide Patched, At;
    if data != [] {
      PatchedAt(file, data, off);
    }
  }

  lemma HasFrame(file: seq<Byte>, data: seq<Byte>, off: nat, a: nat, x: seq<Byte>)
    requires Has(file, a, x)
    requires a + |x| <= off || off + |data| <= a
    ensures Has(Patched(file, data, off), a, x)
  {
    hide Patched, At;
    if x != [] {
      PatchedFrame(file, data, off, a, x);
    }
  }

  // ---------- Pieces laid end to end ----------

  function Concat(parts: seq<seq<Byte>>): seq<Byte> {
    if parts == [] then [] else Concat(parts[..|parts| - 1]) + parts[|parts| - 1]
  }

  /** Writing one more piece behind the others. */
  lemma ConcatGrows(file: seq<Byte>, off: nat, parts: seq<seq<Byte>>, i: nat)
    requires i < |parts|
    ensures Concat(parts[..i + 1]) == Concat(parts[..i]) + parts[i]
    ensures Patched(Patched(file, Concat(parts[..i]), off), parts[i], off + |Concat(parts[..i])|)
         == Patched(file, Concat(parts[..i + 1]), off)
  {
    hide Patched;
    var done := Concat(parts[..i]);
    assert parts[..i + 1][..i] == parts[..i];
    if done == [] {
      PatchedNothing(file, off);
      assert done + parts[i] == parts[i];
    } else {
      PatchedTwice(file, done, parts[i], off);
    }
  }

  lemma PatchedNothing(file: seq<Byte>, off: nat)
    ensures Patched(file, [], off) == file
  {
  }

  /** Each piece is at its place. */
  lemma {:induction false} ConcatAt(file: seq<Byte>, off: nat, parts: seq<seq<Byte>>, i: nat)
    requires At(file, off, Concat(parts)) && i < |parts|
    ensures At(file, off + |Concat(parts[..i])|, parts[i])
    decreases |parts|
  {
    var init := parts[..|parts| - 1];
    AtSplit(file, off, Concat(init), parts[|parts| - 1]);
    if i < |init| {
      ConcatAt(file, off, init, i);
      assert init[..i] == parts[..i];
    }
  }

  lemma ConcatHas(file: seq<Byte>, off: nat, parts: seq<seq<Byte>>, i: nat)
    requires Has(file, off, Concat(parts)) && i < |parts|
    ensures Has(file, off + |Concat(parts[..i])|, parts[i])
  {
    hide At;
    if parts[i] != [] {
      ConcatPrefix(parts, i);
      ConcatAt(file, off, parts, i);
    }
  }

  lemma {:induction false} ConcatSize(parts: seq<seq<Byte>>, n: nat)
    requires forall i | 0 <= i < |parts| :: |parts[i]| == n
    ensures |Concat(parts)| == n * |parts|
  {
    if parts != [] {
      var init := parts[..|parts| - 1];
      ConcatSize(init, n);
      OneTimeMore(n, |init|);
      assert Concat(parts) == Concat(init) + parts[|init|];
    }
  }

  lemma OneTimeMore(n: nat, k: nat)
    ensures n * (k + 1) == n * k + n
  {
  }

  /** A prefix of the pieces, and the piece behind it, lie inside the whole. */
  lemma {:induction false} ConcatPrefix(parts: seq<seq<Byte>>, i: nat)
    requires i <= |parts|
    ensures |Concat(parts[..i])| <= |Concat(parts)|
    ensures i < |parts| ==> |Concat(parts[..i])| + |parts[i]| <= |Concat(parts)|
    decreases |parts|
  {
    if i < |parts| {
      var init := parts[..|parts| - 1];
      ConcatPrefix(init, i);
      assert init[..i] == parts[..i];
    } else {
      assert parts[..i] == parts;
    }
  }

  // ---------- The file descriptor ----------

  class File {
    var bytes: seq<Byte>

    constructor (initial: seq<Byte>)
      ensures bytes == initial
    {
      bytes := initial;
    }

    function Pread(n: nat, off: nat): (r: seq<Byte>)
      reads this
      ensures |r| == (if off <= |bytes| then Min(n, |bytes| - off) else 0)
      ensures forall i | 0 <= i < |r| :: r[i] == bytes[off + i]
    {
      Slice(bytes, n, off)
    }

    method Pwrite(data: seq<Byte>, off: nat)
      modifies this
      ensures bytes == Patched(old(bytes), data, off)
    {
      bytes := Patched(bytes, data, off);
    }
  }

  /** A seekable output stream on a file: the stream position moves with every write. */
  class OutputStream {
    const file: File
    var pos: nat

    constructor (file: File)
      ensures this.file == file && pos == 0
    {
      this.file := file;
      pos := 0;
    }

    method Seek(to: nat)
      modifies this
      ensures pos == to
    {
      pos := to;
    }

    method Write(data: seq<Byte>)
      modifies this, file
      ensures file.bytes == Patched(old(file.bytes), data, old(pos))
      ensures pos == old(pos) + |data|
    {
      file.Pwrite(data, pos);
      pos := pos + |data|;
    }
  }
}
