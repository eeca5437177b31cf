/** The pool of string constants of a V2 shard: every string is stored once, and a string is
    named by its offset in the pool. */
module ConstantPool {
  import opened Bytes
  import opened CStrings

  /** The pool as it is written out. */
  function PoolBytes(strings: seq<CString>): seq<Byte> {
    if strings == [] then [] else PoolBytes(strings[..|strings| - 1]) + Terminated(strings[|strings| - 1])
  }

  /** The index of a string in the pool, or the number of strings. */
  function IndexOf(strings: seq<CString>, s: CString): (i: nat)
    ensures i <= |strings|
    ensures i < |strings| <==> s in strings
    ensures i < |strings| ==> strings[i] == s
  {
    if strings == [] || strings[0] == s then 0 else 1 + IndexOf(strings[1..], s)
  }

  ghost predicate NoDuplicates(strings: seq<CString>) {
    forall i, j | 0 <= i < j < |strings| :: strings[i] != strings[j]
  }

  /** The offset of a string in a pool that holds it. */
  function PoolOffset(strings: seq<CString>, s: CString): nat {
    |PoolBytes(strings[..IndexOf(strings, s)])|
  }

  /** The pool after a string has been asked for. */
  function Intern(strings: seq<CString>, s: CString): seq<CString> {
    if s in strings then strings else strings + [s]
  }

  lemma {:induction false} IndexOfAppend(strings: seq<CString>, s: CString, t: CString)
    ensures s in strings ==> IndexOf(strings + [t], s) == IndexOf(strings, s)
    ensures s !in strings ==> IndexOf(strings + [s], s) == |strings|
  {
    if strings != [] && strings[0] != s {
      IndexOfAppend(strings[1..], s, t);
      assert (strings + [t])[1..] == strings[1..] + [t];
      assert (strings + [s])[1..] == strings[1..] + [s];
    }
  }

  /** Offsets never move: asking for another string leaves them as they are. A new string gets
      the current size of the pool. */
  lemma InternOffsets(strings: seq<CString>, s: CString, t: CString)
    ensures s in strings ==> s in Intern(strings, t) && PoolOffset(Intern(strings, t), s) == PoolOffset(strings, s)
    ensures t !in strings ==> PoolOffset(Intern(strings, t), t) == |PoolBytes(strings)|
    ensures t in Intern(strings, t)
  {
    IndexOfAppend(strings, s, t);
    IndexOfAppend(strings, t, t);
    if s in strings {
      assert (strings + [t])[..IndexOf(strings, s)] == strings[..IndexOf(strings, s)];
    }
    assert (strings + [t])[..|strings|] == strings;
  }

  lemma InternSize(strings: seq<CString>, t: CString)
    ensures |PoolBytes(Intern(strings, t))| == |PoolBytes(strings)| + (if t in strings then 0 else |t| + 1)
    ensures NoDuplicates(strings) ==> NoDuplicates(Intern(strings, t))
  {
    assert (strings + [t])[..|strings|] == strings;
  }

  lemma {:induction false} PoolPrefix(strings: seq<CString>, i: nat)
    requires i < |strings|
    ensures |PoolBytes(strings[..i])| + |strings[i]| + 1 <= |PoolBytes(strings)|
    decreases |strings|
  {
    var init := strings[..|strings| - 1];
    if i < |init| {
      PoolPrefix(init, i);
      assert init[..i] == strings[..i];
    } else {
      assert strings[..i] == init;
    }
  }

  /** Every string lies inside the pool. */
  lemma OffsetInside(strings: seq<CString>, s: CString)
    requires s in strings
    ensures PoolOffset(strings, s) + |s| + 1 <= |PoolBytes(strings)|
  {
    hide PoolBytes, IndexOf;
    PoolPrefix(strings, IndexOf(strings, s));
  }

  /** Different strings occupy disjoint ranges. */
  lemma DistinctStringsDisjoint(strings: seq<CString>, s: CString, t: CString)
    requires s in strings && t in strings && s != t
    ensures PoolOffset(strings, s) + |s| + 1 <= PoolOffset(strings, t)
         || PoolOffset(strings, t) + |t| + 1 <= PoolOffset(strings, s)
  {
    var i, j := IndexOf(strings, s), IndexOf(strings, t);
    if i < j {
      PoolPrefix(strings[..j], i);
      assert strings[..j][..i] == strings[..i];
    } else {
      PoolPrefix(strings[..i], j);
      assert strings[..i][..j] == strings[..j];
    }
  }

  /** In a written pool each offset holds its string. */
  lemma StringStored(file: seq<Byte>, at: nat, strings: seq<CString>, s: CString)
    requires At(file, at, PoolBytes(strings)) && s in strings
    ensures At(file, at + PoolOffset(strings, s), Terminated(s))
  {
    hide At, PoolBytes, IndexOf;
    StringStoredAt(file, at, strings, IndexOf(strings, s));
  }

  lemma {:induction false} StringStoredAt(file: seq<Byte>, at: nat, strings: seq<CString>, i: nat)
    requires At(file, at, PoolBytes(strings)) && i < |strings|
    ensures At(file, at + |PoolBytes(strings[..i])|, Terminated(strings[i]))
    decreases |strings|
  {
    hide At;
    var init := strings[..|strings| - 1];
    AtSplit(file, at, PoolBytes(init), Terminated(strings[|strings| - 1]));
    if i < |init| {
      StringStoredAt(file, at, init, i);
      assert init[..i] == strings[..i];
    } else {
      assert strings[..i] == init;
    }
  }

  /** What the pool answers when a string is asked for: for a string that is there already, the
      offset comes back through a 32-bit cast. */
  function Answer(strings: seq<CString>, s: CString): nat {
    if s in strings then PoolOffset(strings, s) % TWO_32 else |PoolBytes(strings)|
  }

  /** The cast keeps the answer: the string is new, or its offset is below 4 GiB. */
  predicate Answerable(strings: seq<CString>, s: CString) {
    s in strings ==> PoolOffset(strings, s) < TWO_32
  }

  /** The pool answers with the offset of the string exactly if the string is new or its own
      offset is below 4 GiB, however large the pool is. */
  lemma AnswerIsOffset(strings: seq<CString>, x: CString)
    ensures x in Intern(strings, x)
    ensures Answer(strings, x) == PoolOffset(Intern(strings, x), x) <==> Answerable(strings, x)
  {
    hide PoolOffset, PoolBytes, IndexOf;
    InternOffsets(strings, x, x);
  }

  /** Interning a name and then a content type: both are there, nothing moves, and each answer is
      right exactly if its cast keeps it. */
  lemma TwoInterns(strings: seq<CString>, a: CString, b: CString)
    requires NoDuplicates(strings)
    ensures var (s1, s2) := (Intern(strings, a), Intern(Intern(strings, a), b));
            && NoDuplicates(s2) && a in s2 && b in s2
            && (Answer(strings, a) == PoolOffset(s2, a) <==> Answerable(strings, a))
            && (Answer(s1, b) == PoolOffset(s2, b) <==> Answerable(s1, b))
            && forall x: CString :: x in strings ==> x in s2 && PoolOffset(s2, x) == PoolOffset(strings, x)
  {
    hide Answer, Answerable, PoolOffset, PoolBytes, NoDuplicates, Intern;
    var (s1, s2) := (Intern(strings, a), Intern(Intern(strings, a), b));
    InternSize(strings, a);
    InternSize(s1, b);
    AnswerIsOffset(strings, a);
    AnswerIsOffset(s1, b);
    InternOffsets(s1, a, b);
    forall x: CString | x in strings
      ensures x in s2 && PoolOffset(s2, x) == PoolOffset(strings, x)
    {
      InternOffsets(strings, x, a);
      InternOffsets(s1, x, b);
    }
  }

  /** The hash table of the pool: every string with its offset. */
  ghost predicate Agrees(table: map<CString, nat>, strings: seq<CString>) {
    && (forall s :: s in table <==> s in strings)
    && (forall s :: s in table ==> table[s] == PoolOffset(strings, s))
  }

  lemma AgreesGrows(table: map<CString, nat>, strings: seq<CString>, s: CString)
    requires Agrees(table, strings) && s !in strings
    ensures Agrees(table[s := |PoolBytes(strings)|], strings + [s])
  {
    hide PoolOffset, PoolBytes;
    InternOffsets(strings, s, s);
    forall t
      ensures t in strings ==> PoolOffset(strings + [s], t) == PoolOffset(strings, t)
    {
      InternOffsets(strings, t, s);
    }
  }

  class ConstantPool {
    var totalSize: nat
    var stringsToOffsets: map<CString, nat>
    var strings: seq<CString>

    ghost predicate Valid()
      reads this
    {
      && NoDuplicates(strings)
      && totalSize == |PoolBytes(strings)|
      && Agrees(stringsToOffsets, strings)
    }

    constructor ()
      ensures Valid() && strings == []
    {
      totalSize, stringsToOffsets, strings := 0, map[], [];
    }

    /** Interns a string. */
    method Add(s: CString) returns (offset: nat)
      requires Valid()
      modifies this
      ensures Valid()
      ensures strings == Intern(old(strings), s)
      ensures offset == Answer(old(strings), s)
    {
      hide PoolOffset, PoolBytes, NoDuplicates;
      if s in stringsToOffsets {
        return stringsToOffsets[s] % TWO_32;
      }
      InternOffsets(strings, s, s);
      InternSize(strings, s);
      AgreesGrows(stringsToOffsets, strings, s);
      offset := totalSize;
      stringsToOffsets := stringsToOffsets[s := offset];
      strings := strings + [s];
      totalSize := totalSize + |s| + 1;
    }

    method Write(fd: File, offset: nat)
      requires Valid()
      modifies fd
      ensures fd.bytes == Patched(old(fd.bytes), PoolBytes(strings), offset)
    {
      hide Patched;
      var at := offset;
      PatchedNothing(fd.bytes, offset);
      for i := 0 to |strings|
        invariant at == offset + |PoolBytes(strings[..i])|
        invariant fd.bytes == Patched(old(fd.bytes), PoolBytes(strings[..i]), offset)
      {
        AppendString(old(fd.bytes), offset, strings, i);
        fd.Pwrite(Terminated(strings[i]), at);
        at := at + |strings[i]| + 1;
      }
      assert strings[..|strings|] == strings;
    }
  }

  lemma AppendString(file: seq<Byte>, offset: nat, strings: seq<CString>, i: nat)
    requires i < |strings|
    ensures PoolBytes(strings[..i + 1]) == PoolBytes(strings[..i]) + Terminated(strings[i])
    ensures Patched(Patched(file, PoolBytes(strings[..i]), offset), Terminated(strings[i]), offset + |PoolBytes(strings[..i])|)
         == Patched(file, PoolBytes(strings[..i + 1]), offset)
  {
    assert strings[..i + 1][..i] == strings[..i];
    var done := PoolBytes(strings[..i]);
    if done == [] {
      assert done + Terminated(strings[i]) == Terminated(strings[i]);
    } else {
      PatchedTwice(file, done, Terminated(strings[i]), offset);
    }
  }

  /** The pool after a run of requests. */
  function InternAll(strings: seq<CString>, requests: seq<CString>): seq<CString> {
    if requests == [] then strings else Intern(InternAll(strings, requests[..|requests| - 1]), requests[|requests| - 1])
  }

  /** Over any run of requests every requested string is in the pool, none is there twice, and
      what was there keeps its offset. */
  lemma {:induction false} PoolRun(strings: seq<CString>, requests: seq<CString>)
    requires NoDuplicates(strings)
    ensures NoDuplicates(InternAll(strings, requests))
    ensures forall s | s in requests :: s in InternAll(strings, requests)
    ensures forall s | s in strings ::
              s in InternAll(strings, requests) && PoolOffset(InternAll(strings, requests), s) == PoolOffset(strings, s)
    decreases |requests|
  {
    hide PoolOffset, PoolBytes, NoDuplicates, Intern;
    if requests != [] {
      var init, last := requests[..|requests| - 1], requests[|requests| - 1];
      PoolRun(strings, init);
      var before := InternAll(strings, init);
      InternSize(before, last);
      forall s
        ensures s in before ==> s in Intern(before, last) && PoolOffset(Intern(before, last), s) == PoolOffset(before, s)
      {
        InternOffsets(before, s, last);
      }
      InternOffsets(before, last, last);
      assert forall s | s in requests :: s in init || s == last;
    }
  }
}
