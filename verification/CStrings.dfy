/** NUL-terminated strings: how they are measured inside a buffer and how they are compared. */
module CStrings {
  import opened Bytes

  predicate NulFree(s: seq<Byte>) {
    forall i | 0 <= i < |s| :: s[i] != 0
  }

  type CString = s: seq<Byte> | NulFree(s)

  /** The bytes a string takes on disk: its CSTRING_SIZE is one more than its length. */
  function Terminated(s: CString): (r: seq<Byte>)
    ensures |r| == |s| + 1
  {
    s + [0]
  }

  /** The index of the first NUL of `buf` at or after `i`, or the end of the buffer. */
  function NulFrom(buf: seq<Byte>, i: nat): (j: nat)
    requires i <= |buf|
    ensures i <= j <= |buf|
    ensures forall k | i <= k < j :: buf[k] != 0
    ensures j < |buf| ==> buf[j] == 0
    decreases |buf| - i
  {
    if i == |buf| || buf[i] == 0 then i else NulFrom(buf, i + 1)
  }

  /** The string a caller sees in a buffer: everything before the first NUL. */
  function CStringOf(buf: seq<Byte>): (s: CString)
    ensures |s| <= |buf| && s == buf[..|s|]
    ensures |s| < |buf| ==> buf[|s|] == 0
  {
    buf[..NulFrom(buf, 0)]
  }

  lemma NulFromUnique(buf: seq<Byte>, i: nat, j: nat)
    requires i <= j < |buf| && buf[j] == 0
    requires forall k | i <= k < j :: buf[k] != 0
    ensures NulFrom(buf, i) == j
  {
  }

  // ---------- strcmp and memcmp ----------

  /** Lexicographic order on unsigned bytes; a proper prefix comes first. */
  function Compare(a: seq<Byte>, b: seq<Byte>): (c: int)
    ensures -1 <= c <= 1
  {
    if a == [] && b == [] then 0
    else if a == [] then -1
    else if b == [] then 1
    else if a[0] < b[0] then -1
    else if a[0] > b[0] then 1
    else Compare(a[1..], b[1..])
  }

  /** Which order it is: a sequence is below its proper extensions, and otherwise the first
      byte that differs decides. */
  lemma {:induction false} CompareMeaning(a: seq<Byte>, b: seq<Byte>)
    ensures Compare(a, b) < 0 <==>
              || (|a| < |b| && b[..|a|] == a)
              || exists k :: 0 <= k < |a| && k < |b| && a[..k] == b[..k] && a[k] < b[k]
    ensures Compare(a, b) == 0 <==> a == b
  {
    CompareEq(a, b);
    if a == [] || b == [] {
    } else if a[0] != b[0] {
      FirstDiffers(a, b);
    } else {
      CompareMeaning(a[1..], b[1..]);
      PrefixBehindFirst(a, b);
      DifferenceBehindFirst(a, b);
    }
  }

  lemma FirstDiffers(a: seq<Byte>, b: seq<Byte>)
    requires a != [] && b != [] && a[0] != b[0]
    ensures !(|a| < |b| && b[..|a|] == a)
    ensures a[0] < b[0] <==> exists k :: 0 <= k < |a| && k < |b| && a[..k] == b[..k] && a[k] < b[k]
  {
    assert a[..|a|] == a && a[..0] == b[..0];
    forall k | 0 < k <= |a| && k <= |b|
      ensures a[..k] != b[..k]
    {
      SameStart(a, b, k);
    }
  }

  lemma SameStart(a: seq<Byte>, b: seq<Byte>, k: nat)
    requires 0 < k <= |a| && k <= |b|
    ensures a[..k] == b[..k] ==> a[0] == b[0]
  {
    assert a[..k][0] == a[0] && b[..k][0] == b[0];
  }

  lemma PrefixBehindFirst(a: seq<Byte>, b: seq<Byte>)
    requires a != [] && b != [] && a[0] == b[0]
    ensures |a| < |b| && b[..|a|] == a <==> |a[1..]| < |b[1..]| && b[1..][..|a[1..]|] == a[1..]
  {
    if |a| < |b| {
      SamePrefix(a, b, |a|);
      assert a[..|a|] == a && a[1..][..|a| - 1] == a[1..];
    }
  }

  lemma DifferenceBehindFirst(a: seq<Byte>, b: seq<Byte>)
    requires a != [] && b != [] && a[0] == b[0]
    ensures (exists k :: 0 <= k < |a| && k < |b| && a[..k] == b[..k] && a[k] < b[k]) <==>
              exists k :: 0 <= k < |a[1..]| && k < |b[1..]| && a[1..][..k] == b[1..][..k] && a[1..][k] < b[1..][k]
  {
    if k :| 0 <= k < |a| && k < |b| && a[..k] == b[..k] && a[k] < b[k] {
      SamePrefix(a, b, k);
      assert a[1..][k - 1] == a[k] && b[1..][k - 1] == b[k];
    }
    if k :| 0 <= k < |a[1..]| && k < |b[1..]| && a[1..][..k] == b[1..][..k] && a[1..][k] < b[1..][k] {
      SamePrefix(a, b, k + 1);
      assert a[1..][k] == a[k + 1] && b[1..][k] == b[k + 1];
    }
  }

  lemma SamePrefix(a: seq<Byte>, b: seq<Byte>, k: nat)
    requires 0 < k <= |a| && k <= |b| && a[0] == b[0]
    ensures a[..k] == b[..k] <==> a[1..][..k - 1] == b[1..][..k - 1]
  {
    assert a[..k] == [a[0]] + a[1..][..k - 1] && b[..k] == [b[0]] + b[1..][..k - 1];
    assert a[..k][1..] == a[1..][..k - 1] && b[..k][1..] == b[1..][..k - 1];
  }

  lemma {:induction false} CompareEq(a: seq<Byte>, b: seq<Byte>)
    ensures Compare(a, b) == 0 <==> a == b
  {
    if a != [] && b != [] {
      CompareEq(a[1..], b[1..]);
      if a[0] == b[0] && a[1..] == b[1..] {
        assert a == [a[0]] + a[1..] && b == [b[0]] + b[1..];
      }
    }
  }

  lemma {:induction false} CompareFlip(a: seq<Byte>, b: seq<Byte>)
    ensures Compare(a, b) == -Compare(b, a)
  {
    if a != [] && b != [] {
      CompareFlip(a[1..], b[1..]);
    }
  }

  /** Not to be below is to extend, or to be greater at the first difference. */
  lemma NotBelow(l: seq<Byte>, key: seq<Byte>)
    ensures Compare(l, key) <= 0 <==>
              || (|l| <= |key| && key[..|l|] == l)
              || exists k :: 0 <= k < |l| && k < |key| && l[..k] == key[..k] && l[k] < key[k]
  {
    hide Compare;
    CompareMeaning(l, key);
    if |l| == |key| {
      assert key[..|l|] == key;
    }
  }

  lemma {:induction false} CompareTrans(a: seq<Byte>, b: seq<Byte>, c: seq<Byte>)
    requires Compare(a, b) <= 0 && Compare(b, c) <= 0
    ensures Compare(a, c) <= 0
    ensures Compare(a, b) < 0 || Compare(b, c) < 0 ==> Compare(a, c) < 0
  {
    if a != [] && b != [] && c != [] && a[0] == b[0] == c[0] {
      CompareTrans(a[1..], b[1..], c[1..]);
    }
  }

  /** strncmp over two buffers of the same size: stops at the first difference or common NUL. */
  function StrNCmp(x: seq<Byte>, y: seq<Byte>): (c: int)
    requires |x| == |y|
  {
    if x == [] then 0
    else if x[0] != y[0] then x[0] - y[0]
    else if x[0] == 0 then 0
    else StrNCmp(x[1..], y[1..])
  }

  /** The first difference that is not behind a common NUL decides; without one it is 0. */
  lemma {:induction false} StrNCmpMeaning(x: seq<Byte>, y: seq<Byte>, k: nat)
    requires |x| == |y| && k <= |x| && forall i | 0 <= i < k :: x[i] == y[i] != 0
    ensures k < |x| && x[k] < y[k] ==> StrNCmp(x, y) < 0
    ensures k < |x| && x[k] > y[k] ==> StrNCmp(x, y) > 0
    ensures k == |x| || x[k] == y[k] == 0 ==> StrNCmp(x, y) == 0
  {
    if k > 0 {
      StrNCmpMeaning(x[1..], y[1..], k - 1);
    }
  }

  /** A comparison cut off after strlen(key) + 1 bytes has the sign of the full comparison,
      whatever follows the stored string in the buffer. */
  lemma {:induction false} StrNCmpIsCompare(x: seq<Byte>, stored: CString, key: CString)
    requires |x| == |key| + 1
    requires forall i | 0 <= i <= |stored| && i < |x| :: x[i] == Terminated(stored)[i]
    ensures StrNCmp(x, Terminated(key)) > 0 <==> Compare(stored, key) > 0
    ensures StrNCmp(x, Terminated(key)) == 0 <==> stored == key
  {
    CompareEq(stored, key);
    var y := Terminated(key);
    assert x[0] == Terminated(stored)[0];
    if stored == [] {
      assert x[0] == 0;
    } else if key == [] {
      assert x[0] == stored[0];
    } else if x[0] == y[0] {
      var x', s', k' := x[1..], stored[1..], key[1..];
      forall i | 0 <= i <= |s'| && i < |x'| ensures x'[i] == Terminated(s')[i] {
        assert x'[i] == x[i + 1] == Terminated(stored)[i + 1];
      }
      StrNCmpIsCompare(x', s', k');
      CompareEq(s', k');
      assert y[1..] == Terminated(k');
    }
  }

  /** strncmp of two buffers of one size finds them equal iff they hold the same string. */
  lemma {:induction false} StrNCmpEqual(x: seq<Byte>, y: seq<Byte>)
    requires |x| == |y|
    ensures StrNCmp(x, y) == 0 <==> CStringOf(x) == CStringOf(y)
  {
    if x == [] {
    } else if x[0] == 0 || y[0] == 0 {
      CStringEmpty(x);
      CStringEmpty(y);
    } else {
      CStringStep(x);
      CStringStep(y);
      StrNCmpEqual(x[1..], y[1..]);
      var (s, t) := (CStringOf(x[1..]), CStringOf(y[1..]));
      if [x[0]] + s == [y[0]] + t {
        assert ([x[0]] + s)[1..] == s && ([y[0]] + t)[1..] == t && ([x[0]] + s)[0] == ([y[0]] + t)[0];
      }
    }
  }

  lemma CStringEmpty(x: seq<Byte>)
    requires x != []
    ensures CStringOf(x) == [] <==> x[0] == 0
  {
  }

  lemma CStringStep(x: seq<Byte>)
    requires x != [] && x[0] != 0
    ensures CStringOf(x) == [x[0]] + CStringOf(x[1..])
  {
    var j := NulFrom(x, 0);
    NulShift(x, 1);
    assert j == 1 + NulFrom(x[1..], 0);
  }

  lemma {:induction false} NulShift(x: seq<Byte>, i: nat)
    requires 1 <= i <= |x|
    ensures NulFrom(x, i) == 1 + NulFrom(x[1..], i - 1)
    decreases |x| - i
  {
    if i < |x| && x[i] != 0 {
      NulShift(x, i + 1);
    }
  }

  /** The first `n` bytes of a string in memory, padded with NULs. */
  function FirstBytes(s: CString, n: nat): (r: seq<Byte>)
    ensures |r| == n
  {
    if |s| < n then s + Zeros(n - |s|) else s[..n]
  }

  lemma FirstBytesString(s: CString, n: nat)
    ensures CStringOf(FirstBytes(s, n)) == if |s| < n then s else s[..n]
  {
    if |s| < n {
      NulFromUnique(FirstBytes(s, n), 0, |s|);
    }
  }
}
