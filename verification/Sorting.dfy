/** Sorting as the array library does it: stable, by a key compared as bytes. */
module Sorting {
  import opened Bytes
  import opened CStrings

  function Insert<T>(x: T, s: seq<T>, key: T -> seq<Byte>): seq<T> {
    if s == [] || Compare(key(x), key(s[0])) <= 0 then [x] + s else [s[0]] + Insert(x, s[1..], key)
  }

  function Sorted<T>(s: seq<T>, key: T -> seq<Byte>): (r: seq<T>) {
    if s == [] then [] else Insert(s[0], Sorted(s[1..], key), key)
  }

  /** The elements with key `k`, in their order. */
  function WithKey<T>(s: seq<T>, key: T -> seq<Byte>, k: seq<Byte>): (r: seq<T>)
    ensures |r| <= |s|
  {
    if s == [] then [] else (if key(s[0]) == k then [s[0]] else []) + WithKey(s[1..], key, k)
  }

  ghost predicate Ascending<T>(s: seq<T>, key: T -> seq<Byte>) {
    forall i, j | 0 <= i < j < |s| :: Compare(key(s[i]), key(s[j])) <= 0
  }

  // ---------- Insertion ----------

  lemma {:induction false} InsertPermutes<T>(x: T, s: seq<T>, key: T -> seq<Byte>)
    ensures multiset(Insert(x, s, key)) == multiset([x] + s)
  {
    if !(s == [] || Compare(key(x), key(s[0])) <= 0) {
      InsertPermutes(x, s[1..], key);
      assert s == [s[0]] + s[1..];
    }
  }

  /** A least element in front of an ascending sequence. */
  lemma LeastFirst<T>(x: T, s: seq<T>, key: T -> seq<Byte>)
    requires Ascending(s, key)
    requires forall j | 0 <= j < |s| :: Compare(key(x), key(s[j])) <= 0
    ensures Ascending([x] + s, key)
  {
    hide Compare;
  }

  lemma BelowFirstBelowAll<T>(x: T, s: seq<T>, key: T -> seq<Byte>)
    requires Ascending(s, key)
    requires s != [] ==> Compare(key(x), key(s[0])) <= 0
    ensures forall j | 0 <= j < |s| :: Compare(key(x), key(s[j])) <= 0
  {
    hide Compare;
    forall j | 0 <= j < |s|
      ensures Compare(key(x), key(s[j])) <= 0
    {
      CompareEq(key(s[0]), key(s[0]));
      CompareTrans(key(x), key(s[0]), key(s[j]));
    }
  }

  /** What is below all elements, and below the one that is inserted, is below all that result. */
  lemma BelowInserted<T>(low: seq<Byte>, x: T, s: seq<T>, key: T -> seq<Byte>)
    requires Compare(low, key(x)) <= 0
    requires forall j | 0 <= j < |s| :: Compare(low, key(s[j])) <= 0
    ensures forall j | 0 <= j < |Insert(x, s, key)| :: Compare(low, key(Insert(x, s, key)[j])) <= 0
  {
    hide Insert, Compare;
    var t := Insert(x, s, key);
    InsertPermutes(x, s, key);
    forall j | 0 <= j < |t|
      ensures Compare(low, key(t[j])) <= 0
    {
      assert t[j] in multiset([x] + s);
    }
  }

  lemma {:induction false} InsertAscending<T>(x: T, s: seq<T>, key: T -> seq<Byte>)
    requires Ascending(s, key)
    ensures Ascending(Insert(x, s, key), key)
  {
    hide Insert, Compare, Ascending;
    InsertUnfolds(x, s, key);
    if s == [] || Compare(key(x), key(s[0])) <= 0 {
      BelowFirstBelowAll(x, s, key);
      LeastFirst(x, s, key);
    } else {
      RestAscending(s, key);
      InsertAscending(x, s[1..], key);
      CompareFlip(key(x), key(s[0]));
      BelowInserted(key(s[0]), x, s[1..], key);
      LeastFirst(s[0], Insert(x, s[1..], key), key);
    }
  }

  lemma RestAscending<T>(s: seq<T>, key: T -> seq<Byte>)
    requires s != [] && Ascending(s, key)
    ensures Ascending(s[1..], key)
    ensures forall j | 0 <= j < |s| - 1 :: Compare(key(s[0]), key(s[1..][j])) <= 0
  {
    hide Compare;
  }

  lemma InsertUnfolds<T>(x: T, s: seq<T>, key: T -> seq<Byte>)
    ensures Insert(x, s, key)
         == if s == [] || Compare(key(x), key(s[0])) <= 0 then [x] + s else [s[0]] + Insert(x, s[1..], key)
  {
  }

  lemma {:induction false} InsertStable<T>(x: T, s: seq<T>, key: T -> seq<Byte>, k: seq<Byte>)
    ensures WithKey(Insert(x, s, key), key, k) == (if key(x) == k then [x] else []) + WithKey(s, key, k)
  {
    if s == [] || Compare(key(x), key(s[0])) <= 0 {
      assert ([x] + s)[1..] == s;
    } else {
      InsertStable(x, s[1..], key, k);
      CompareEq(key(x), key(s[0]));
      assert ([s[0]] + Insert(x, s[1..], key))[1..] == Insert(x, s[1..], key);
    }
  }

  // ---------- The sort ----------

  /** Sorting rearranges and nothing else. */
  lemma {:induction false} SortedPermutes<T>(s: seq<T>, key: T -> seq<Byte>)
    ensures multiset(Sorted(s, key)) == multiset(s)
  {
    if s != [] {
      SortedPermutes(s[1..], key);
      InsertPermutes(s[0], Sorted(s[1..], key), key);
      assert s == [s[0]] + s[1..];
    }
  }

  lemma SortedLength<T>(s: seq<T>, key: T -> seq<Byte>)
    ensures |Sorted(s, key)| == |s|
    ensures forall x :: x in Sorted(s, key) <==> x in s
  {
    SortedPermutes(s, key);
    assert |multiset(Sorted(s, key))| == |multiset(s)|;
    assert forall x :: x in Sorted(s, key) <==> x in multiset(s);
  }

  /** The result is in ascending order. */
  lemma {:induction false} SortedAscending<T>(s: seq<T>, key: T -> seq<Byte>)
    ensures Ascending(Sorted(s, key), key)
  {
    if s != [] {
      SortedAscending(s[1..], key);
      InsertAscending(s[0], Sorted(s[1..], key), key);
    }
  }

  /** Elements with equal keys keep their order. */
  lemma {:induction false} SortedStable<T>(s: seq<T>, key: T -> seq<Byte>, k: seq<Byte>)
    ensures WithKey(Sorted(s, key), key, k) == WithKey(s, key, k)
  {
    if s != [] {
      SortedStable(s[1..], key, k);
      InsertStable(s[0], Sorted(s[1..], key), key, k);
    }
  }

  lemma {:induction false} WithKeyEmpty<T>(s: seq<T>, key: T -> seq<Byte>, k: seq<Byte>)
    ensures WithKey(s, key, k) == [] <==> forall j | 0 <= j < |s| :: key(s[j]) != k
  {
    if s != [] {
      WithKeyEmpty(s[1..], key, k);
      assert forall j | 1 <= j < |s| :: s[j] == s[1..][j - 1];
      assert forall j | 0 <= j < |s| - 1 :: s[1..][j] == s[j + 1];
    }
  }

  ghost predicate DistinctBy<T>(s: seq<T>, key: T -> seq<Byte>) {
    forall i, j | 0 <= i < j < |s| :: key(s[i]) != key(s[j])
  }

  lemma {:induction false} WithKeyAtMostOne<T>(s: seq<T>, key: T -> seq<Byte>, k: seq<Byte>)
    requires DistinctBy(s, key)
    ensures |WithKey(s, key, k)| <= 1
  {
    if s != [] {
      WithKeyAtMostOne(s[1..], key, k);
      WithKeyEmpty(s[1..], key, k);
      assert forall j | 1 <= j < |s| :: s[1..][j - 1] == s[j];
    }
  }

  lemma {:induction false} WithKeyTwo<T>(s: seq<T>, key: T -> seq<Byte>, i: nat, j: nat)
    requires i < j < |s| && key(s[i]) == key(s[j])
    ensures |WithKey(s, key, key(s[j]))| >= 2
  {
    if i > 0 {
      WithKeyTwo(s[1..], key, i - 1, j - 1);
    } else {
      WithKeyEmpty(s[1..], key, key(s[j]));
      assert s[1..][j - 1] == s[j];
    }
  }

  /** Distinct keys stay distinct. */
  lemma SortedDistinct<T>(s: seq<T>, key: T -> seq<Byte>)
    requires DistinctBy(s, key)
    ensures DistinctBy(Sorted(s, key), key)
  {
    hide Sorted;
    var r := Sorted(s, key);
    forall i, j | 0 <= i < j < |r|
      ensures key(r[i]) != key(r[j])
    {
      SortedStable(s, key, key(r[j]));
      WithKeyAtMostOne(s, key, key(r[j]));
      if key(r[i]) == key(r[j]) {
        WithKeyTwo(r, key, i, j);
      }
    }
  }
}
