/** How the dictionary reader parses what it reads: the scan of one window of the file, and
    what a sequence of windows adds up to. */
module DictionaryScan {
  import opened Bytes
  import opened CStrings
  import opened DictionaryFormat

  /** The chunk buffer after a read at `at`: one byte more than the read, so it ends in a NUL. */
  function Window(file: seq<Byte>, at: nat): (w: seq<Byte>)
    ensures |w| == CHUNK_SIZE + 1
    ensures forall i | 0 <= i < CHUNK_SIZE && at + i < |file| :: w[i] == file[at + i]
  {
    Padded(Slice(file, CHUNK_SIZE, at), CHUNK_SIZE + 1)
  }

  /** What a scan of a window reports: a match, and where the value of the key starts; or the
      start of the first entry that does not end strictly inside the window. */
  datatype Scan = Hit(value: nat) | Resume(entry: nat)

  /** The plain parse of a window as alternating keys and values, from `p` on. */
  function Parse(chunk: seq<Byte>, p: nat, key: CString): Scan
    requires |chunk| == CHUNK_SIZE + 1 && p < CHUNK_SIZE
    decreases CHUNK_SIZE - p
  {
    var q := NulFrom(chunk, p) + 1;
    if q >= CHUNK_SIZE then Resume(p)
    else if chunk[p..q - 1] == key then Hit(q)
    else
      var v := NulFrom(chunk, q) + 1;
      if v >= CHUNK_SIZE then Resume(p) else Parse(chunk, v, key)
  }

  /** The inner loop of the scan. */
  method ScanWindow(chunk: seq<Byte>, key: CString) returns (r: Scan)
    requires |chunk| == CHUNK_SIZE + 1
    ensures r == Parse(chunk, 0, key)
  {
    ghost var whole := Parse(chunk, 0, key);
    var str := 0;
    while true
      invariant 0 <= str < CHUNK_SIZE
      invariant whole == Parse(chunk, str, key)
      decreases CHUNK_SIZE - str
    {
      var chunkKey := str;
      str := NulFrom(chunk, str) + 1;
      if str >= CHUNK_SIZE {
        return Resume(chunkKey);
      }
      if chunk[chunkKey..str - 1] == key {
        return Hit(str);
      }
      str := NulFrom(chunk, str) + 1;
      if str >= CHUNK_SIZE {
        return Resume(chunkKey);
      }
    }
  }

  // ---------- Entries inside a window ----------

  /** The string stored at `at + p` as the window at `at` shows it: complete with its NUL if it
      fits, otherwise without one before the window's last byte. */
  lemma StringInWindow(file: seq<Byte>, at: nat, p: nat, s: CString)
    requires At(file, at + p, Terminated(s)) && p < CHUNK_SIZE
    ensures var q := NulFrom(Window(file, at), p) + 1;
            if p + |s| + 1 < CHUNK_SIZE then q == p + |s| + 1 && Window(file, at)[p..q - 1] == s else q >= CHUNK_SIZE
  {
    hide Window, At, NulFrom;
    var w := Window(file, at);
    forall k | p <= k < p + |s| && k < CHUNK_SIZE
      ensures w[k] == s[k - p] != 0
    {
      WindowByte(file, at, p, s, k - p);
    }
    if p + |s| + 1 < CHUNK_SIZE {
      WindowByte(file, at, p, s, |s|);
      NulFromUnique(w, p, p + |s|);
      assert w[p..p + |s|] == s;
    }
  }

  lemma WindowByte(file: seq<Byte>, at: nat, p: nat, s: CString, i: nat)
    requires At(file, at + p, Terminated(s)) && i <= |s| && p + i < CHUNK_SIZE
    ensures Window(file, at)[p + i] == Terminated(s)[i]
  {
    hide Window, At;
    AtByte(file, at + p, Terminated(s), i);
  }

  /** One parsing step over one stored entry. */
  lemma ParseEntry(file: seq<Byte>, at: nat, p: nat, e: Entry, key: CString)
    requires At(file, at + p, EntryBytes(e)) && p < CHUNK_SIZE
    ensures Parse(Window(file, at), p, key) ==
            if e.key == key && p + |key| + 1 < CHUNK_SIZE then Hit(p + |key| + 1)
            else if p + |EntryBytes(e)| < CHUNK_SIZE then Parse(Window(file, at), p + |EntryBytes(e)|, key)
            else Resume(p)
  {
    hide Window, NulFrom, Parse, At;
    ParseUnfolds(Window(file, at), p, key);
    AtSplit(file, at + p, Terminated(e.key), Terminated(e.value));
    StringInWindow(file, at, p, e.key);
    var q := p + |e.key| + 1;
    if q < CHUNK_SIZE {
      StringInWindow(file, at, q, e.value);
    }
  }

  /** The first entry at or after `i` with the given key. */
  function FirstMatch(es: seq<Entry>, i: nat, key: CString): (m: nat)
    requires i <= |es|
    ensures i <= m <= |es|
    ensures m < |es| ==> es[m].key == key
    decreases |es| - i
  {
    if i == |es| || es[i].key == key then i else FirstMatch(es, i + 1, key)
  }

  lemma {:induction false} NoEarlierMatch(es: seq<Entry>, i: nat, k: nat, key: CString)
    requires i <= k < |es| && k < FirstMatch(es, i, key)
    ensures es[k].key != key
    decreases k - i
  {
    if i < k {
      NoEarlierMatch(es, i + 1, k, key);
    }
  }

  lemma FirstMatchSkip(es: seq<Entry>, i: nat, j: nat, key: CString)
    requires i <= |es| && i <= j <= FirstMatch(es, i, key)
    ensures FirstMatch(es, i, key) == FirstMatch(es, j, key)
    decreases j - i
  {
    if i < j {
      FirstMatchSkip(es, i + 1, j, key);
    }
  }

  /** The first entry from `j` on that does not end strictly inside the window at entry `i`. */
  function NextWindow(es: seq<Entry>, i: nat, j: nat): (k: nat)
    requires i <= j <= |es|
    ensures j <= k <= |es|
    ensures k < |es| ==> EntryPos(es, k + 1) - EntryPos(es, i) >= CHUNK_SIZE
    ensures j < k ==> EntryPos(es, k) - EntryPos(es, i) < CHUNK_SIZE
    decreases |es| - j
  {
    if j < |es| && EntryPos(es, j + 1) - EntryPos(es, i) < CHUNK_SIZE then NextWindow(es, i, j + 1) else j
  }

  /** The window that reaches the end of the data, among those a scan of the entries [i, e) reads. */
  function LastWindow(es: seq<Entry>, i: nat, e: nat): (w: seq<nat>)
    requires i <= |es| && e <= |es|
    ensures w == [] || (|w| == 1 && i <= w[0] < e && NextWindow(es, w[0], w[0]) == |es|)
    decreases |es| - i
  {
    if i >= e then [] else
      var j := NextWindow(es, i, i);
      if j == |es| then [i] else if j == i then [] else LastWindow(es, j, e)
  }

  /** What the bytes behind the data add to a scan of the entries [i, e). */
  function Overrun(file: seq<Byte>, base: nat, es: seq<Entry>, i: nat, e: nat, key: CString): nat
    requires i <= |es| && e <= |es|
  {
    var w := LastWindow(es, i, e);
    if w == [] then 0 else TailHit(file, base, es, w[0], key)
  }

  /** The match the window at entry `i` shows behind the data, if any. */
  function TailHit(file: seq<Byte>, base: nat, es: seq<Entry>, i: nat, key: CString): nat
    requires i <= |es|
  {
    var p := TableStart(es) - EntryPos(es, i);
    if 0 <= p < CHUNK_SIZE then
      match Parse(Window(file, base + EntryPos(es, i)), p, key)
      case Hit(v) => EntryPos(es, i) + v
      case Resume(_) => 0
    else 0
  }

  /** A parse only moves forward. */
  lemma {:induction false} ParseForward(chunk: seq<Byte>, p: nat, key: CString)
    requires |chunk| == CHUNK_SIZE + 1 && p < CHUNK_SIZE
    ensures match Parse(chunk, p, key) case Hit(v) => p < v < CHUNK_SIZE case Resume(q) => p <= q
    decreases CHUNK_SIZE - p
  {
    hide Parse, NulFrom;
    ParseUnfolds(chunk, p, key);
    var q := NulFrom(chunk, p) + 1;
    if q < CHUNK_SIZE && chunk[p..q - 1] != key {
      var v := NulFrom(chunk, q) + 1;
      if v < CHUNK_SIZE {
        ParseForward(chunk, v, key);
      }
    }
  }

  lemma ParseUnfolds(chunk: seq<Byte>, p: nat, key: CString)
    requires |chunk| == CHUNK_SIZE + 1 && p < CHUNK_SIZE
    ensures var q := NulFrom(chunk, p) + 1;
            Parse(chunk, p, key)
            == if q >= CHUNK_SIZE then Resume(p)
               else if chunk[p..q - 1] == key then Hit(q)
               else var v := NulFrom(chunk, q) + 1;
                    if v >= CHUNK_SIZE then Resume(p) else Parse(chunk, v, key)
  {
    hide NulFrom;
  }

  /** The size limit is exact: the scan of a window that starts with an entry of another key makes
      no progress, and is repeated for ever, if and only if the entry does not end strictly
      inside the window. */
  lemma StallsIffTooLong(file: seq<Byte>, at: nat, e: Entry, key: CString)
    requires At(file, at, EntryBytes(e)) && e.key != key
    ensures Parse(Window(file, at), 0, key) == Resume(0) <==> |e.key| + |e.value| + 2 > 8190
  {
    hide Parse, Window, At;
    ParseEntry(file, at, 0, e, key);
    if Fits(e) {
      ParseForward(Window(file, at), |EntryBytes(e)|, key);
    }
  }

  /** Over entries without a match the parse of a window steps from entry to entry. */
  lemma {:induction false} ParseRun(file: seq<Byte>, base: nat, es: seq<Entry>, i: nat, j: nat, key: CString)
    requires At(file, base + HEADER_SIZE, DataBytes(es)) && i <= |es| && i <= j <= FirstMatch(es, i, key)
    requires EntryPos(es, j) < EntryPos(es, i) + CHUNK_SIZE
    ensures EntryPos(es, i) <= EntryPos(es, j)
    ensures Parse(Window(file, base + EntryPos(es, i)), 0, key)
         == Parse(Window(file, base + EntryPos(es, i)), EntryPos(es, j) - EntryPos(es, i), key)
    decreases j
  {
    hide Parse, Window, DataBytes;
    EntryPosMonotone(es, i, j);
    if i < j {
      EntryPosStep(es, j - 1);
      EntryPosMonotone(es, i, j - 1);
      ParseRun(file, base, es, i, j - 1, key);
      EntryAt(file, base, es, j - 1);
      NoEarlierMatch(es, i, j - 1, key);
      ParseEntry(file, base + EntryPos(es, i), EntryPos(es, j - 1) - EntryPos(es, i), es[j - 1], key);
    }
  }

  /** A scan of the window at `from` that matched with the value at `pos`. */
  predicate HitsAt(r: Scan, from: nat, pos: nat) {
    r.Hit? && from + r.value == pos
  }

  predicate ResumesAt(r: Scan, from: nat, pos: nat) {
    r.Resume? && from + r.entry == pos
  }

  /** What the scan of the window at entry `i` finds: a complete key of a real entry; or the
      next entry boundary to resume at, which is `i` itself if the entry is too long; or whatever
      follows the data. */
  lemma WindowScan(file: seq<Byte>, base: nat, es: seq<Entry>, i: nat, key: CString)
    requires At(file, base + HEADER_SIZE, DataBytes(es)) && i < |es|
    ensures var (j, m, at) := (NextWindow(es, i, i), FirstMatch(es, i, key), EntryPos(es, i));
            var r := Parse(Window(file, base + at), 0, key);
            && at <= EntryPos(es, j)
            && (m < j ==> HitsAt(r, at, ValuePos(es, m)))
            && (j <= m && j < |es| ==>
                  if j == m && ValuePos(es, m) < at + CHUNK_SIZE then HitsAt(r, at, ValuePos(es, m))
                  else ResumesAt(r, at, EntryPos(es, j)))
            && (j == m == |es| && r.Hit? ==> TailHit(file, base, es, i, key) == at + r.value)
            && (j == m == |es| && r.Resume? ==> TailHit(file, base, es, i, key) == 0 && at + r.entry >= TableStart(es))
  {
    hide Parse, Window, DataBytes, EntryPos, At, EntryBytes;
    var j, m := NextWindow(es, i, i), FirstMatch(es, i, key);
    var k := if m < j then m else j;
    EntryPosMonotone(es, i, k);
    EntryPosMonotone(es, k, j);
    ParseRun(file, base, es, i, k, key);
    var p := EntryPos(es, k) - EntryPos(es, i);
    if k < |es| {
      ParseStored(file, base, es, i, k, key);
      EntryPosStep(es, k);
      if k < j {
        EntryPosMonotone(es, k + 1, j);
      } else if k < m {
        NoEarlierMatch(es, i, k, key);
      }
    } else {
      ParseForward(Window(file, base + EntryPos(es, i)), p, key);
    }
  }

  /** The parse of the window at entry `i`, once it has come to entry `k`. */
  lemma ParseStored(file: seq<Byte>, base: nat, es: seq<Entry>, i: nat, k: nat, key: CString)
    requires At(file, base + HEADER_SIZE, DataBytes(es)) && i <= k < |es|
    requires EntryPos(es, i) <= EntryPos(es, k) < EntryPos(es, i) + CHUNK_SIZE
    ensures var (at, p) := (EntryPos(es, i), EntryPos(es, k) - EntryPos(es, i));
            var (here, next) := (Parse(Window(file, base + at), p, key), EntryPos(es, k + 1) - at);
            && (es[k].key == key && ValuePos(es, k) < at + CHUNK_SIZE ==> HitsAt(here, at, ValuePos(es, k)))
            && (!(es[k].key == key && ValuePos(es, k) < at + CHUNK_SIZE) && next >= CHUNK_SIZE ==> here == Resume(p))
  {
    hide Parse, Window, DataBytes, At;
    EntryAt(file, base, es, k);
    EntryPosStep(es, k);
    ParseEntry(file, base + EntryPos(es, i), EntryPos(es, k) - EntryPos(es, i), es[k], key);
  }

  // ---------- The keys a piece of a file shows ----------

  /** The complete NUL-terminated strings of a buffer, one behind the other. */
  function Strings(buf: seq<Byte>): seq<CString> {
    var n := NulFrom(buf, 0);
    if n == |buf| then [] else [buf[..n]] + Strings(buf[n + 1..])
  }

  /** Every other element, beginning with the first. */
  function EveryOther(ss: seq<CString>): seq<CString> {
    if ss == [] then [] else [ss[0]] + if |ss| == 1 then [] else EveryOther(ss[2..])
  }

  /** What looks like keys, if a buffer is read as keys and values. */
  function KeysShown(buf: seq<Byte>): seq<CString> {
    EveryOther(Strings(buf))
  }

  /** The first NUL of a window behind `p`, seen from a piece of it. */
  /** What they are: the strings with their NULs, laid end to end, are the bytes but for what
      follows the last NUL. */
  lemma {:induction false} StringsMeaning(buf: seq<Byte>) returns (pieces: seq<seq<Byte>>, rest: seq<Byte>)
    ensures |pieces| == |Strings(buf)| && forall i | 0 <= i < |pieces| :: pieces[i] == Strings(buf)[i] + [0]
    ensures NulFree(rest) && buf == Concat(pieces) + rest
  {
    hide NulFrom, Concat, Strings;
    StringsStep(buf);
    var n := NulFrom(buf, 0);
    if n == |buf| {
      pieces, rest := [], buf;
      ConcatNone(buf);
    } else {
      var later;
      later, rest := StringsMeaning(buf[n + 1..]);
      pieces := [buf[..n] + [0]] + later;
      OnePieceMore(buf, n, later, rest);
    }
  }

  lemma ConcatNone(s: seq<Byte>)
    ensures s == Concat([]) + s
  {
  }

  lemma OnePieceMore(buf: seq<Byte>, n: nat, later: seq<seq<Byte>>, rest: seq<Byte>)
    requires n < |buf| && buf[n] == 0 && buf[n + 1..] == Concat(later) + rest
    ensures buf == Concat([buf[..n] + [0]] + later) + rest
  {
    hide Concat;
    ConcatFirst(buf[..n] + [0], later);
    assert buf == buf[..n] + [0] + buf[n + 1..];
  }

  lemma {:induction false} ConcatFirst(x: seq<Byte>, parts: seq<seq<Byte>>)
    ensures Concat([x] + parts) == x + Concat(parts)
  {
    hide Concat;
    ConcatLast(parts);
    ConcatLast([x] + parts);
    if parts == [] {
      assert [x] + parts == [x] && [x][..0] == [];
      ConcatLast([]);
    } else {
      var n := |parts| - 1;
      ConcatFirst(x, parts[..n]);
      assert ([x] + parts)[..n + 1] == [x] + parts[..n] && ([x] + parts)[n + 1] == parts[n];
    }
  }

  lemma ConcatLast(parts: seq<seq<Byte>>)
    ensures Concat(parts) == if parts == [] then [] else Concat(parts[..|parts| - 1]) + parts[|parts| - 1]
  {
  }

  /** Of them every other one is a key, from the first on. */
  lemma {:induction false} EveryOtherAt(ss: seq<CString>, i: nat)
    ensures |EveryOther(ss)| == (|ss| + 1) / 2
    ensures 2 * i < |ss| ==> i < |EveryOther(ss)| && EveryOther(ss)[i] == ss[2 * i]
    decreases |ss|
  {
    if |ss| >= 2 {
      EveryOtherAt(ss[2..], if i == 0 then 0 else i - 1);
    }
  }

  lemma NulInPiece(chunk: seq<Byte>, p: nat, n: nat)
    requires p <= n <= |chunk|
    ensures NulFrom(chunk[p..n], 0) == Min(NulFrom(chunk, p), n) - p
  {
    var (piece, k) := (chunk[p..n], Min(NulFrom(chunk, p), n) - p);
    assert forall i | 0 <= i < k :: piece[i] == chunk[p + i];
    if k < |piece| {
      assert piece[k] == chunk[p + k];
      NulFromUnique(piece, 0, k);
    }
  }

  /** One step of the plain parse. */
  lemma ParseStep(chunk: seq<Byte>, p: nat, key: CString)
    requires |chunk| == CHUNK_SIZE + 1 && p < CHUNK_SIZE
    ensures var n := NulFrom(chunk, p);
            if n >= CHUNK_SIZE - 1 then !Parse(chunk, p, key).Hit?
            else if chunk[p..n] == key then Parse(chunk, p, key).Hit?
            else var v := NulFrom(chunk, n + 1);
                 if v >= CHUNK_SIZE - 1 then !Parse(chunk, p, key).Hit?
                 else Parse(chunk, p, key) == Parse(chunk, v + 1, key)
  {
  }

  /** One pair of what a buffer shows. */
  lemma KeysShownStep(buf: seq<Byte>)
    ensures var n := NulFrom(buf, 0);
            if n == |buf| then KeysShown(buf) == []
            else var rest := buf[n + 1..];
                 var v := NulFrom(rest, 0);
                 KeysShown(buf) == if v == |rest| then [buf[..n]] else [buf[..n]] + KeysShown(rest[v + 1..])
  {
    hide Strings, EveryOther, NulFrom;
    StringsStep(buf);
    NoneShown();
    var n := NulFrom(buf, 0);
    if n < |buf| {
      var rest := buf[n + 1..];
      var v := NulFrom(rest, 0);
      StringsStep(rest);
      if v < |rest| {
        EveryOtherPair(buf[..n], rest[..v], Strings(rest[v + 1..]));
      } else {
        EveryOtherOne(buf[..n]);
      }
    }
  }

  lemma StringsStep(buf: seq<Byte>)
    ensures var n := NulFrom(buf, 0);
            Strings(buf) == if n == |buf| then [] else [buf[..n]] + Strings(buf[n + 1..])
  {
    hide NulFrom;
  }

  lemma NoneShown()
    ensures EveryOther([]) == []
  {
  }

  lemma EveryOtherOne(a: CString)
    ensures EveryOther([a] + []) == [a]
  {
    assert [a] + [] == [a];
  }

  /** A piece of a buffer from its first NUL on. */
  lemma PieceFromNul(chunk: seq<Byte>, p: nat, end: nat)
    requires p <= end < |chunk|
    ensures var (buf, n, k) := (chunk[p..end], NulFrom(chunk, p), NulFrom(chunk[p..end], 0));
            if n >= end then k == |buf| else k < |buf| && buf[..k] == chunk[p..n] && buf[k + 1..] == chunk[n + 1..end]
  {
    NulInPiece(chunk, p, end);
  }

  lemma FirstKeyShown(chunk: seq<Byte>, p: nat, n: nat, end: nat, rest: seq<Byte>)
    requires p <= end < |chunk| && n == NulFrom(chunk, p) && n < end && rest == chunk[n + 1..end]
    ensures var v := NulFrom(rest, 0);
            KeysShown(chunk[p..end])
            == if v == |rest| then [chunk[p..n]] else [chunk[p..n]] + KeysShown(rest[v + 1..])
  {
    hide KeysShown, NulFrom;
    PieceFromNul(chunk, p, end);
    FirstOf(chunk[p..end], chunk[p..n], rest);
  }

  lemma FirstOf(buf: seq<Byte>, key: seq<Byte>, rest: seq<Byte>)
    requires NulFrom(buf, 0) < |buf| && buf[..NulFrom(buf, 0)] == key && buf[NulFrom(buf, 0) + 1..] == rest
    ensures var v := NulFrom(rest, 0);
            KeysShown(buf) == if v == |rest| then [key] else [key] + KeysShown(rest[v + 1..])
  {
    hide KeysShown, NulFrom;
    KeysShownStep(buf);
  }

  /** One pair of what is left of a window shows. */
  lemma PieceShows(chunk: seq<Byte>, p: nat, end: nat)
    requires p <= end < |chunk|
    ensures var n := NulFrom(chunk, p);
            if n >= end then KeysShown(chunk[p..end]) == []
            else var v := NulFrom(chunk, n + 1);
                 if v >= end then KeysShown(chunk[p..end]) == [chunk[p..n]]
                 else KeysShown(chunk[p..end]) == [chunk[p..n]] + KeysShown(chunk[v + 1..end])
  {
    hide KeysShown, NulFrom;
    if NulFrom(chunk, p) < end {
      var n := NulFrom(chunk, p);
      FirstKeyShown(chunk, p, n, end, chunk[n + 1..end]);
      PieceFromNul(chunk, n + 1, end);
    } else {
      KeysShownStep(chunk[p..end]);
      PieceFromNul(chunk, p, end);
    }
  }

  /** A parse hits exactly the keys shown by what is left of the window, wherever it comes from. */
  lemma {:induction false} ParseShows(chunk: seq<Byte>, p: nat, key: CString)
    requires |chunk| == CHUNK_SIZE + 1 && p < CHUNK_SIZE
    ensures Parse(chunk, p, key).Hit? <==> key in KeysShown(chunk[p..CHUNK_SIZE - 1])
    decreases CHUNK_SIZE - p
  {
    hide Parse, KeysShown, NulFrom;
    ParseStep(chunk, p, key);
    PieceShows(chunk, p, CHUNK_SIZE - 1);
    var n := NulFrom(chunk, p);
    if n < CHUNK_SIZE - 1 {
      var v := NulFrom(chunk, n + 1);
      if v < CHUNK_SIZE - 1 {
        ParseShows(chunk, v + 1, key);
      }
    }
  }

  lemma EveryOtherPair(a: CString, b: CString, ss: seq<CString>)
    ensures EveryOther([a] + ([b] + ss)) == [a] + EveryOther(ss)
  {
    assert ([a] + ([b] + ss))[2..] == ss;
  }

  /** The keys that a scan of the entries [s, e) sees although they were never added: those shown
      by the bytes behind the data, as far as the last window of the scan reaches. */
  function PhantomKeys(es: seq<Entry>, behind: seq<Byte>, s: nat, e: nat): seq<CString>
    requires s <= |es| && e <= |es|
  {
    var w := LastWindow(es, s, e);
    if w == [] then [] else KeysShown(WindowRest(behind, CHUNK_SIZE - 1 - (TableStart(es) - EntryPos(es, w[0]))))
  }

  /** The first `n` bytes, with zeros where there are none. */
  function WindowRest(behind: seq<Byte>, n: int): seq<Byte> {
    if n < 0 then [] else Padded(Slice(behind, n, 0), n)
  }

  lemma RestOfWindow(file: seq<Byte>, at: nat, p: nat)
    requires at + p <= |file| && p < CHUNK_SIZE
    ensures Window(file, at)[p..CHUNK_SIZE - 1] == WindowRest(file[at + p..], CHUNK_SIZE - 1 - p)
  {
    var (w, r) := (Window(file, at), WindowRest(file[at + p..], CHUNK_SIZE - 1 - p));
    forall i | 0 <= i < CHUNK_SIZE - 1 - p
      ensures w[p + i] == r[i]
    {
      if at + p + i < |file| {
        assert r[i] == file[at + p..][i];
      }
    }
  }

  /** The overrun of a scan reports something exactly for its phantom keys. */
  lemma OverrunShowsPhantoms(file: seq<Byte>, base: nat, es: seq<Entry>, s: nat, e: nat, key: CString)
    requires s <= |es| && e <= |es| && base + TableStart(es) <= |file|
    ensures Overrun(file, base, es, s, e, key) != 0 <==> key in PhantomKeys(es, file[base + TableStart(es)..], s, e)
  {
    hide Parse, Window, KeysShown, WindowRest, EntryPos, LastWindow;
    var w := LastWindow(es, s, e);
    if w != [] {
      EntryPosMonotone(es, w[0], |es|);
      var (at, p) := (base + EntryPos(es, w[0]), TableStart(es) - EntryPos(es, w[0]));
      assert p < CHUNK_SIZE;
      RestOfWindow(file, at, p);
      ParseShows(Window(file, at), p, key);
      ParseForward(Window(file, at), p, key);
    }
  }
}
