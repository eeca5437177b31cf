/** Adding blobs from several threads. Each call moves through its steps on its own; the lock
    makes the pool step and the reservation step atomic, and the data is written outside it.
    A schedule is any sequence of thread numbers. */
module AddBlobMachine {
  import opened Bytes
  import opened CStrings
  import opened BlobLayout
  import opened BlobStore
  import Pool = ConstantPool

  /** Where a call is. */
  datatype Thread =
    | Start
    | Refused
    | Pooled(nameOffs: nat, contentTypeOffs: nat)
    | Summed(nameOffs: nat, contentTypeOffs: nat, csum: Digest)
    | Writing(index: nat, dataStart: nat, written: nat)
    | Publishing(index: nat, dataStart: nat)
    | Returned(index: nat)
  {
    predicate Listed() {
      Writing? || Publishing? || Returned?
    }
  }

  /** The shared state, the calls, and, for reference, the order in which calls were listed. */
  datatype State = State(file: seq<Byte>, offset: nat, table: map<seq<Byte>, nat>, strings: seq<CString>,
                         blobs: seq<SBlob>, threads: seq<Thread>, order: seq<nat>)

  function Initial(file: seq<Byte>, n: nat): State {
    State(file, HEADER_SIZE, map[], [], [], seq(n, _ => Start), [])
  }

  /** One step of call `t`. A write step moves up to `n` bytes, as many as one read delivers. */
  function Step(c: Codec, tasks: seq<BlobSpec>, s: State, t: nat, n: nat): State
    requires t < |tasks| == |s.threads|
  {
    var task := tasks[t];
    match s.threads[t]
    case Start =>
      if !Acceptable(task) then s.(threads := s.threads[t := Refused]) else
        var strings1 := Pool.Intern(s.strings, task.name);
        s.(strings := Pool.Intern(strings1, task.contentType),
           threads := s.threads[t := Pooled(Pool.Answer(s.strings, task.name), Pool.Answer(strings1, task.contentType))])
    case Pooled(nameOffs, typeOffs) =>
      s.(threads := s.threads[t := Summed(nameOffs, typeOffs, c.sha256(Packed(c, task)))])
    case Summed(nameOffs, typeOffs, csum) =>
      var found := Found(s.table, csum);
      var listed := s.(blobs := s.blobs + [SBlob(task.flags, nameOffs, typeOffs, csum, 0, |task.contents|, 0)],
                       order := s.order + [t]);
      if found == 0 then
        listed.(offset := Align(s.offset + |Packed(c, task)|), table := s.table[csum := s.offset],
                threads := s.threads[t := Writing(|s.blobs|, s.offset, 0)])
      else listed.(threads := s.threads[t := Publishing(|s.blobs|, found)])
    case Writing(i, start, w) =>
      var data := Packed(c, task);
      if w < |data| then
        var k := ChunkSize(n, |data| - w);
        s.(file := Patched(s.file, data[w..w + k], start + w), threads := s.threads[t := Writing(i, start, w + k)])
      else s.(threads := s.threads[t := Publishing(i, start)])
    case Publishing(i, start) =>
      if i < |s.blobs| then
        s.(blobs := s.blobs[i := s.blobs[i].(dataStart := start, size := |Packed(c, task)|)],
           threads := s.threads[t := Returned(i)])
      else s
    case Returned(_) => s
    case Refused => s
  }

  function ChunkSize(n: nat, left: nat): (k: nat)
    requires left > 0
    ensures 0 < k <= left && k <= BUFFER_SIZE
  {
    Min(if n == 0 then 1 else n, Min(left, BUFFER_SIZE))
  }

  lemma StepKeepsThreads(c: Codec, tasks: seq<BlobSpec>, s: State, t: nat, n: nat)
    requires t < |tasks| == |s.threads|
    ensures |Step(c, tasks, s, t, n).threads| == |tasks|
  {
  }

  /** The state after a schedule: who moves, and how much a write would move. */
  function Exec(c: Codec, tasks: seq<BlobSpec>, s: State, schedule: seq<(nat, nat)>): (r: State)
    requires |s.threads| == |tasks|
    ensures |r.threads| == |tasks|
  {
    if schedule == [] then s else
      var before := Exec(c, tasks, s, schedule[..|schedule| - 1]);
      var (t, n) := schedule[|schedule| - 1];
      if t < |tasks| then
        StepKeepsThreads(c, tasks, before, t, n);
        Step(c, tasks, before, t, n)
      else before
  }

  // ---------- The invariant ----------

  /** The blobs in the order in which they were listed. */
  function Specs(tasks: seq<BlobSpec>, order: seq<nat>): (bs: seq<BlobSpec>)
    requires forall i | 0 <= i < |order| :: order[i] < |tasks|
    ensures |bs| == |order| && forall i | 0 <= i < |order| :: bs[i] == tasks[order[i]]
  {
    seq(|order|, i requires 0 <= i < |order| => tasks[order[i]])
  }

  /** Positions in the list and calls past their reservation correspond one to one. */
  ghost predicate Ordered(tasks: seq<BlobSpec>, s: State) {
    && |s.threads| == |tasks| && |s.order| == |s.blobs|
    && (forall i | 0 <= i < |s.order| ::
          s.order[i] < |tasks| && s.threads[s.order[i]].Listed() && s.threads[s.order[i]].index == i)
    && (forall t | 0 <= t < |tasks| ::
          s.threads[t].Listed() ==> s.threads[t].index < |s.order| && s.order[s.threads[t].index] == t)
  }

  function Ps(c: Codec, tasks: seq<BlobSpec>, s: State): (ps: seq<Payload>)
    requires forall i | 0 <= i < |s.order| :: s.order[i] < |tasks|
    ensures |ps| == |s.order|
  {
    Payloads(c, Specs(tasks, s.order))
  }

  /** The pool holds the strings of a blob that was not refused. */
  ghost predicate PoolHolds(s: State, b: BlobSpec, nameOffs: nat, typeOffs: nat) {
    && Acceptable(b)
    && b.name in s.strings && nameOffs == Pool.PoolOffset(s.strings, b.name)
    && b.contentType in s.strings && typeOffs == Pool.PoolOffset(s.strings, b.contentType)
  }

  /** What a call knows at each point. */
  ghost predicate ThreadOk(c: Codec, tasks: seq<BlobSpec>, s: State, t: nat)
    requires Ordered(tasks, s) && t < |tasks|
  {
    var (b, ps) := (tasks[t], Ps(c, tasks, s));
    match s.threads[t]
    case Pooled(a, d) => PoolHolds(s, b, a, d)
    case Summed(a, d, csum) => PoolHolds(s, b, a, d) && csum == c.sha256(Packed(c, b))
    case Writing(i, start, w) => IsFirst(ps, i) && start == DataStart(ps, i) && w <= |Packed(c, b)|
    case Publishing(i, start) => start == DataStart(ps, i)
    case _ => true
  }

  /** A listed header is complete except for place and size, which come last. */
  ghost predicate BlobOk(c: Codec, tasks: seq<BlobSpec>, s: State, i: nat)
    requires Ordered(tasks, s) && i < |s.order|
  {
    var (b, h, ps) := (tasks[s.order[i]], s.blobs[i], Ps(c, tasks, s));
    && h.flags == b.flags && h.csum == c.sha256(Packed(c, b)) && h.uncompressedSize == |b.contents|
    && PoolHolds(s, b, h.nameOffs, h.contentTypeOffs)
    && (s.threads[s.order[i]].Returned? ==> h.dataStart == DataStart(ps, i) && h.size == |Packed(c, b)|)
  }

  /** How much of a placed payload has been written. */
  function Filled(thread: Thread, size: nat): nat {
    if thread.Writing? then thread.written else size
  }

  ghost predicate RangeOk(c: Codec, tasks: seq<BlobSpec>, s: State, i: nat)
    requires Ordered(tasks, s) && i < |s.order|
  {
    var ps := Ps(c, tasks, s);
    var w := Filled(s.threads[s.order[i]], |ps[i].data|);
    IsFirst(ps, i) ==> w <= |ps[i].data| && (w > 0 ==> At(s.file, DataStart(ps, i), ps[i].data[..w]))
  }

  ghost predicate Inv(c: Codec, tasks: seq<BlobSpec>, s: State) {
    && Ordered(tasks, s)
    && s.offset == WriteOffset(Ps(c, tasks, s)) && s.table == CsumTable(Ps(c, tasks, s))
    && Pool.NoDuplicates(s.strings)
    && (forall t | 0 <= t < |tasks| :: ThreadOk(c, tasks, s, t))
    && (forall i | 0 <= i < |s.order| :: BlobOk(c, tasks, s, i))
    && (forall i | 0 <= i < |s.order| :: RangeOk(c, tasks, s, i))
  }

  /** The next step of call `t` looks nothing up, or only what survives the 32-bit cast: places
      and string offsets below 4 GiB. The shard itself may be larger. */
  predicate StepSafe(tasks: seq<BlobSpec>, s: State, t: nat)
    requires t < |tasks| == |s.threads|
  {
    match s.threads[t]
    case Start => Acceptable(tasks[t]) ==> StringsAnswerable(s.strings, tasks[t])
    case Summed(_, _, csum) => csum in s.table ==> s.table[csum] < TWO_32
    case _ => true
  }

  /** Every step of the run is of that kind. */
  predicate Safe(c: Codec, tasks: seq<BlobSpec>, s: State, schedule: seq<(nat, nat)>)
    requires |s.threads| == |tasks|
  {
    schedule == [] ||
    var (init, t) := (schedule[..|schedule| - 1], schedule[|schedule| - 1].0);
    Safe(c, tasks, s, init) && (t < |tasks| ==> StepSafe(tasks, Exec(c, tasks, s, init), t))
  }

  lemma InvThreads(c: Codec, tasks: seq<BlobSpec>, s: State)
    requires Inv(c, tasks, s)
    ensures |s.threads| == |tasks|
  {
    hide ThreadOk, BlobOk, RangeOk;
  }

  lemma InitialInv(c: Codec, tasks: seq<BlobSpec>, file: seq<Byte>)
    ensures Inv(c, tasks, Initial(file, |tasks|))
  {
  }

  /** A step that moves one call, and nothing else that the parts of the invariant about other
      calls depend on. */
  ghost predicate Quiet(tasks: seq<BlobSpec>, s: State, r: State, t: nat) {
    && t < |tasks| && Ordered(tasks, s) && |r.threads| == |tasks|
    && r.order == s.order && |r.blobs| == |s.blobs|
    && (forall u | 0 <= u < |tasks| && u != t :: r.threads[u] == s.threads[u])
    && (r.threads[t].Listed() <==> s.threads[t].Listed())
    && (s.threads[t].Listed() ==> r.threads[t].index == s.threads[t].index)
  }

  lemma QuietOrdered(tasks: seq<BlobSpec>, s: State, r: State, t: nat)
    requires Quiet(tasks, s, r, t)
    ensures Ordered(tasks, r)
  {
  }

  /** The pool only grows, so known offsets stay right. */
  ghost predicate PoolGrows(s: State, r: State) {
    forall x: CString :: x in s.strings ==> x in r.strings && Pool.PoolOffset(r.strings, x) == Pool.PoolOffset(s.strings, x)
  }

  // ---------- Steps outside the list ----------

  /** A step of a call that is not listed, changing nothing shared except the pool. */
  lemma UnlistedStep(c: Codec, tasks: seq<BlobSpec>, s: State, r: State, t: nat)
    requires Inv(c, tasks, s) && Quiet(tasks, s, r, t) && !s.threads[t].Listed()
    requires PoolGrows(s, r) && Pool.NoDuplicates(r.strings)
    requires r.file == s.file && r.offset == s.offset && r.table == s.table && r.blobs == s.blobs
    requires Ordered(tasks, r) && ThreadOk(c, tasks, r, t)
    ensures Inv(c, tasks, r)
  {
    hide WriteOffset, CsumTable, DataStart, IsFirst, Payloads, Packed, Pool.PoolOffset, Pool.NoDuplicates;
    forall u | 0 <= u < |tasks|
      ensures ThreadOk(c, tasks, r, u)
    {
      assert ThreadOk(c, tasks, s, u);
    }
    forall i | 0 <= i < |r.order|
      ensures BlobOk(c, tasks, r, i) && RangeOk(c, tasks, r, i)
    {
      assert BlobOk(c, tasks, s, i) && RangeOk(c, tasks, s, i);
      assert r.order[i] != t;
    }
  }

  /** The locked pool step, exactly. */
  lemma PoolStep(c: Codec, tasks: seq<BlobSpec>, s: State, t: nat, n: nat)
    requires Inv(c, tasks, s) && t < |tasks| && s.threads[t].Start?
    ensures |s.threads| == |tasks|
    ensures Inv(c, tasks, Step(c, tasks, s, t, n)) <==> StepSafe(tasks, s, t)
  {
    hide Inv, Pool.PoolOffset, Pool.NoDuplicates, Pool.PoolBytes, Pool.Intern, Pool.Answer, Pool.Answerable, Step;
    InvThreads(c, tasks, s);
    PoolTransition(c, tasks, s, t, n);
    InvNoDuplicates(c, tasks, s);
    var (r, b) := (Step(c, tasks, s, t, n), tasks[t]);
    if Acceptable(b) {
      Pool.TwoInterns(s.strings, b.name, b.contentType);
      if Inv(c, tasks, r) {
        InvThread(c, tasks, r, t);
      }
    }
    if StepSafe(tasks, s, t) {
      PooledKeepsInv(c, tasks, s, r, t);
    }
  }

  lemma InvNoDuplicates(c: Codec, tasks: seq<BlobSpec>, s: State)
    requires Inv(c, tasks, s)
    ensures Pool.NoDuplicates(s.strings)
  {
    hide ThreadOk, BlobOk, RangeOk, Pool.NoDuplicates;
  }

  lemma InvThread(c: Codec, tasks: seq<BlobSpec>, s: State, t: nat)
    requires Inv(c, tasks, s) && t < |tasks|
    ensures Ordered(tasks, s) && ThreadOk(c, tasks, s, t)
  {
    hide ThreadOk, BlobOk, RangeOk;
  }

  lemma PoolTransition(c: Codec, tasks: seq<BlobSpec>, s: State, t: nat, n: nat)
    requires t < |tasks| == |s.threads| && s.threads[t].Start?
    ensures var (b, r) := (tasks[t], Step(c, tasks, s, t, n));
            if Acceptable(b) then
              var strings1 := Pool.Intern(s.strings, b.name);
              r == s.(strings := Pool.Intern(strings1, b.contentType),
                      threads := s.threads[t := Pooled(Pool.Answer(s.strings, b.name), Pool.Answer(strings1, b.contentType))])
            else r == s.(threads := s.threads[t := Refused])
  {
    hide Pool.Intern, Pool.Answer;
  }

  lemma PooledKeepsInv(c: Codec, tasks: seq<BlobSpec>, s: State, r: State, t: nat)
    requires Inv(c, tasks, s) && t < |tasks| && s.threads[t].Start? && |r.threads| == |tasks|
    requires r == s.(strings := r.strings, threads := s.threads[t := r.threads[t]])
    requires var th := r.threads[t];
             th.Refused? || (th.Pooled? && PoolHolds(r, tasks[t], th.nameOffs, th.contentTypeOffs))
    requires PoolGrows(s, r) && Pool.NoDuplicates(r.strings)
    ensures Inv(c, tasks, r)
  {
    hide WriteOffset, CsumTable, Ps, BlobOk, RangeOk, PoolGrows, PoolHolds, Pool.NoDuplicates;
    QuietOrdered(tasks, s, r, t);
    UnlistedStep(c, tasks, s, r, t);
  }

  lemma SumStep(c: Codec, tasks: seq<BlobSpec>, s: State, t: nat, n: nat)
    requires Inv(c, tasks, s) && t < |tasks| && s.threads[t].Pooled?
    ensures Inv(c, tasks, Step(c, tasks, s, t, n))
  {
    hide Inv, Step;
    InvThreads(c, tasks, s);
    SumTransition(c, tasks, s, t, n);
    SummedKeepsInv(c, tasks, s, Step(c, tasks, s, t, n), t);
  }

  lemma SummedKeepsInv(c: Codec, tasks: seq<BlobSpec>, s: State, r: State, t: nat)
    requires Inv(c, tasks, s) && t < |tasks| && s.threads[t].Pooled?
    requires var th := s.threads[t];
             r == s.(threads := s.threads[t := Summed(th.nameOffs, th.contentTypeOffs, c.sha256(Packed(c, tasks[t])))])
    ensures Inv(c, tasks, r)
  {
    hide Inv, Packed, PoolHolds, BlobOk, RangeOk, Ps;
    InvThread(c, tasks, s, t);
    InvNoDuplicates(c, tasks, s);
    QuietOrdered(tasks, s, r, t);
    SamePool(s, r, tasks[t], s.threads[t].nameOffs, s.threads[t].contentTypeOffs);
    UnlistedStep(c, tasks, s, r, t);
  }

  lemma SamePool(s: State, r: State, b: BlobSpec, nameOffs: nat, typeOffs: nat)
    requires r.strings == s.strings
    ensures PoolGrows(s, r) && (PoolHolds(s, b, nameOffs, typeOffs) <==> PoolHolds(r, b, nameOffs, typeOffs))
  {
    hide Pool.PoolOffset;
  }

  // ---------- The reservation ----------

  lemma SpecsGrow(c: Codec, tasks: seq<BlobSpec>, s: State, r: State, t: nat)
    requires Ordered(tasks, s) && t < |tasks| && r.order == s.order + [t]
    ensures Ps(c, tasks, r) == Ps(c, tasks, s) + [PayloadOf(c, tasks[t])]
  {
  }

  lemma LockOrdered(c: Codec, tasks: seq<BlobSpec>, s: State, t: nat, n: nat)
    requires Ordered(tasks, s) && t < |tasks| && s.threads[t].Summed?
    ensures Ordered(tasks, Step(c, tasks, s, t, n))
    ensures Step(c, tasks, s, t, n).order == s.order + [t]
  {
    var r := Step(c, tasks, s, t, n);
    forall u | 0 <= u < |tasks|
      ensures r.threads[u].Listed() ==> r.threads[u].index < |r.order| && r.order[r.threads[u].index] == u
    {
    }
    forall i | 0 <= i < |r.order|
      ensures r.order[i] < |tasks| && r.threads[r.order[i]].Listed() && r.threads[r.order[i]].index == i
    {
      if i < |s.order| {
        assert r.order[i] == s.order[i] != t;
      }
    }
  }

  lemma LockTransition(c: Codec, tasks: seq<BlobSpec>, s: State, t: nat, n: nat)
    requires t < |tasks| == |s.threads| && s.threads[t].Summed?
    ensures var (r, b, th) := (Step(c, tasks, s, t, n), tasks[t], s.threads[t]);
            var place := Found(s.table, th.csum);
            && r.strings == s.strings && r.file == s.file && r.order == s.order + [t]
            && r.blobs == s.blobs + [SBlob(b.flags, th.nameOffs, th.contentTypeOffs, th.csum, 0, |b.contents|, 0)]
            && r.threads == s.threads[t := if place == 0 then Writing(|s.blobs|, s.offset, 0) else Publishing(|s.blobs|, place)]
            && r.offset == (if place == 0 then Align(s.offset + |Packed(c, b)|) else s.offset)
            && r.table == if place == 0 then s.table[th.csum := s.offset] else s.table
  {
    hide Packed, Align;
  }

  /** The locked step finds, or notes, the data start that the layout gives the new payload. */
  lemma LockReserves(c: Codec, tasks: seq<BlobSpec>, s: State, t: nat, n: nat)
    requires Inv(c, tasks, s) && t < |tasks| && s.threads[t].Summed? && StepSafe(tasks, s, t)
    requires Ordered(tasks, Step(c, tasks, s, t, n)) && Step(c, tasks, s, t, n).order == s.order + [t]
    ensures var (r, m) := (Step(c, tasks, s, t, n), |s.order|);
            var ps := Ps(c, tasks, r);
            && r.offset == WriteOffset(ps) && r.table == CsumTable(ps)
            && r.threads[t] == (if IsFirst(ps, m) then Writing(m, DataStart(ps, m), 0) else Publishing(m, DataStart(ps, m)))
  {
    hide WriteOffset, CsumTable, DataStart, IsFirst, Packed, Align, Ps, Step;
    assert ThreadOk(c, tasks, s, t);
    SpecsGrow(c, tasks, s, Step(c, tasks, s, t, n), t);
    LockTransition(c, tasks, s, t, n);
    var (ps, p) := (Ps(c, tasks, s), PayloadOf(c, tasks[t]));
    if p.csum in s.table {
      ReserveSeen(ps, p);
      TableValueAnswered(ps, p.csum);
    } else {
      ReserveFresh(ps, p);
    }
  }

  /** The condition is exact: a call whose checksum is in the table takes over the place noted
      there if and only if that place lies below 4 GiB. Above, the cast loses the upper half. */
  lemma ReuseExact(c: Codec, tasks: seq<BlobSpec>, s: State, t: nat, n: nat)
    requires Inv(c, tasks, s) && t < |tasks| && s.threads[t].Summed? && s.threads[t].csum in s.table
    ensures Step(c, tasks, s, t, n).threads[t] == Publishing(|s.blobs|, s.table[s.threads[t].csum])
       <==> s.table[s.threads[t].csum] < TWO_32
  {
    hide WriteOffset, CsumTable, DataStart, IsFirst, Packed, Ps, Pool.PoolOffset, Pool.NoDuplicates, ThreadOk, BlobOk,
      RangeOk;
    ReserveSeen(Ps(c, tasks, s), Payload(s.threads[t].csum, []));
  }

  /** And then the invariant is lost: the call goes to the wrong place, or to a new one. */
  lemma ReuseLost(c: Codec, tasks: seq<BlobSpec>, s: State, t: nat, n: nat)
    requires Inv(c, tasks, s) && t < |tasks| && s.threads[t].Summed? && !StepSafe(tasks, s, t)
    ensures !Inv(c, tasks, Step(c, tasks, s, t, n))
  {
    hide WriteOffset, CsumTable, DataStart, IsFirst, Packed, Align, Ps, Step, BlobOk, RangeOk, PoolHolds;
    var r := Step(c, tasks, s, t, n);
    assert ThreadOk(c, tasks, s, t);
    LockOrdered(c, tasks, s, t, n);
    SpecsGrow(c, tasks, s, r, t);
    ReserveSeen(Ps(c, tasks, s), PayloadOf(c, tasks[t]));
    LockTransition(c, tasks, s, t, n);
    hide Inv;
    if Inv(c, tasks, r) {
      InvThread(c, tasks, r, t);
      assert false;
    }
  }

  /** What the locked step changes: the call is listed, with a header that lacks place and size. */
  lemma LockListing(c: Codec, tasks: seq<BlobSpec>, s: State, t: nat, n: nat)
    requires Inv(c, tasks, s) && t < |tasks| && s.threads[t].Summed? && StepSafe(tasks, s, t)
    ensures var r := Step(c, tasks, s, t, n);
            && Listing(c, tasks, s, r, t) && ThreadOk(c, tasks, r, t)
            && r.offset == WriteOffset(Ps(c, tasks, r)) && r.table == CsumTable(Ps(c, tasks, r))
            && BlobOk(c, tasks, r, |s.order|) && RangeOk(c, tasks, r, |s.order|)
  {
    hide WriteOffset, CsumTable, DataStart, IsFirst, Packed, Align, Ps, Pool.PoolOffset, Pool.NoDuplicates, At,
      BlobOk, RangeOk, Step, PoolHolds;
    var r := Step(c, tasks, s, t, n);
    LockOrdered(c, tasks, s, t, n);
    LockReserves(c, tasks, s, t, n);
    SpecsGrow(c, tasks, s, r, t);
    LockTransition(c, tasks, s, t, n);
    NewHeader(c, tasks, s, r, t);
    NothingFilled(c, tasks, r, t);
  }

  lemma NewHeader(c: Codec, tasks: seq<BlobSpec>, s: State, r: State, t: nat)
    requires Ordered(tasks, s) && Ordered(tasks, r) && t < |tasks| && s.threads[t].Summed? && ThreadOk(c, tasks, s, t)
    requires r.order == s.order + [t] && r.strings == s.strings && !r.threads[t].Returned?
    requires var (b, th) := (tasks[t], s.threads[t]);
             r.blobs == s.blobs + [SBlob(b.flags, th.nameOffs, th.contentTypeOffs, th.csum, 0, |b.contents|, 0)]
    ensures BlobOk(c, tasks, r, |s.order|)
  {
    hide Packed, Ps, DataStart, Pool.PoolOffset;
  }

  /** A payload that has just got its place has nothing written yet; one that shares a place has
      none of its own. */
  lemma NothingFilled(c: Codec, tasks: seq<BlobSpec>, r: State, t: nat)
    requires Ordered(tasks, r) && t < |tasks|
    requires match r.threads[t]
             case Writing(i, _, w) => w == 0
             case Publishing(i, _) => !IsFirst(Ps(c, tasks, r), i)
             case _ => false
    ensures RangeOk(c, tasks, r, r.threads[t].index)
  {
    hide DataStart, IsFirst, Ps, At;
  }

  lemma LockStep(c: Codec, tasks: seq<BlobSpec>, s: State, t: nat, n: nat)
    requires Inv(c, tasks, s) && t < |tasks| && s.threads[t].Summed? && StepSafe(tasks, s, t)
    ensures Inv(c, tasks, Step(c, tasks, s, t, n))
  {
    var r := Step(c, tasks, s, t, n);
    LockListing(c, tasks, s, t, n);
    hide Step, WriteOffset, CsumTable, Ps, Pool.NoDuplicates, ThreadOk, BlobOk, RangeOk;
    forall u | 0 <= u < |tasks|
      ensures ThreadOk(c, tasks, r, u)
    {
      LockKeepsThread(c, tasks, s, r, t, u);
    }
    forall i | 0 <= i < |r.order|
      ensures BlobOk(c, tasks, r, i) && RangeOk(c, tasks, r, i)
    {
      if i < |s.order| {
        LockKeepsBlob(c, tasks, s, r, t, i);
      }
    }
  }

  ghost predicate Listing(c: Codec, tasks: seq<BlobSpec>, s: State, r: State, t: nat) {
    && Inv(c, tasks, s) && Ordered(tasks, r) && t < |tasks| && r.order == s.order + [t]
    && r.strings == s.strings && r.file == s.file && |r.blobs| == |s.blobs| + 1 && r.blobs[..|s.blobs|] == s.blobs
    && (forall u | 0 <= u < |tasks| && u != t :: r.threads[u] == s.threads[u])
    && Ps(c, tasks, r) == Ps(c, tasks, s) + [PayloadOf(c, tasks[t])]
    && !s.threads[t].Listed()
  }

  lemma LockKeepsThread(c: Codec, tasks: seq<BlobSpec>, s: State, r: State, t: nat, u: nat)
    requires Listing(c, tasks, s, r, t) && u < |tasks|
    requires ThreadOk(c, tasks, r, t)
    ensures ThreadOk(c, tasks, r, u)
  {
    hide WriteOffset, CsumTable, DataStart, IsFirst, Packed, Ps, Pool.PoolOffset, Pool.NoDuplicates;
    if u != t {
      assert ThreadOk(c, tasks, s, u);
      if s.threads[u].Listed() {
        FirstSamePrefix(Ps(c, tasks, s), Ps(c, tasks, r), s.threads[u].index);
      }
    }
  }

  lemma LockKeepsBlob(c: Codec, tasks: seq<BlobSpec>, s: State, r: State, t: nat, i: nat)
    requires Listing(c, tasks, s, r, t) && i < |s.order|
    ensures BlobOk(c, tasks, r, i) && RangeOk(c, tasks, r, i)
  {
    hide WriteOffset, CsumTable, DataStart, IsFirst, Packed, Ps, Pool.PoolOffset, Pool.NoDuplicates;
    assert BlobOk(c, tasks, s, i) && RangeOk(c, tasks, s, i);
    assert r.order[i] == s.order[i] != t && r.blobs[i] == s.blobs[i];
    FirstSamePrefix(Ps(c, tasks, s), Ps(c, tasks, r), i);
  }

  // ---------- Writing and publishing ----------

  /** No call writes outside its own range; in particular no step but a write touches the file. */
  lemma OwnRangeOnly(c: Codec, tasks: seq<BlobSpec>, s: State, t: nat, n: nat)
    requires Inv(c, tasks, s) && t < |tasks|
    ensures var r := Step(c, tasks, s, t, n);
            if s.threads[t].Writing? then
              var (start, data) := (s.threads[t].dataStart, Packed(c, tasks[t]));
              && start == DataStart(Ps(c, tasks, s), s.threads[t].index)
              && |s.file| <= |r.file|
              && forall i | 0 <= i < |s.file| && !(start <= i < start + |data|) :: r.file[i] == s.file[i]
            else r.file == s.file
  {
    hide WriteOffset, CsumTable, DataStart, IsFirst, Packed, Align, Ps, Pool.PoolOffset, Pool.NoDuplicates, Patched,
      Pool.Intern;
    assert ThreadOk(c, tasks, s, t);
    match s.threads[t]
    case Writing(i, start, w) =>
      var data := Packed(c, tasks[t]);
      if w < |data| {
        var k := ChunkSize(n, |data| - w);
        PatchedAt(s.file, data[w..w + k], start + w);
      }
    case _ =>
  }

  /** The bytes a write step adds extend the filled part of its range. */
  lemma ChunkFills(file: seq<Byte>, start: nat, data: seq<Byte>, w: nat, k: nat)
    requires w + k <= |data| && k > 0
    requires w > 0 ==> At(file, start, data[..w])
    ensures At(Patched(file, data[w..w + k], start + w), start, data[..w + k])
  {
    hide Patched, At;
    var (a, b) := (data[..w], data[w..w + k]);
    var g := Patched(file, b, start + w);
    PatchedAt(file, b, start + w);
    assert data[..w + k] == a + b;
    if w > 0 {
      PatchedFrame(file, b, start + w, start, a);
      AtSplit(g, start, a, b);
    } else {
      assert a + b == b;
    }
  }

  /** And they leave what another payload has got so far. */
  lemma ChunkSpares(file: seq<Byte>, ps: seq<Payload>, m: nat, w: nat, k: nat, i: nat, f: nat)
    requires m < |ps| && i < |ps| && i != m && IsFirst(ps, m) && IsFirst(ps, i)
    requires w + k <= |ps[m].data| && 0 < f <= |ps[i].data|
    requires At(file, DataStart(ps, i), ps[i].data[..f])
    ensures At(Patched(file, ps[m].data[w..w + k], DataStart(ps, m) + w), DataStart(ps, i), ps[i].data[..f])
  {
    hide DataStart, IsFirst, At, Patched;
    RangesDisjoint(ps, i, m);
    PatchedFrame(file, ps[m].data[w..w + k], DataStart(ps, m) + w, DataStart(ps, i), ps[i].data[..f]);
  }

  lemma WriteKeepsRange(c: Codec, tasks: seq<BlobSpec>, s: State, r: State, t: nat, w: nat, k: nat, i: nat)
    requires Inv(c, tasks, s) && Ordered(tasks, r) && r.order == s.order && t < |tasks|
    requires s.threads[t].Writing? && w == s.threads[t].written
    requires 0 < k && w + k <= |Packed(c, tasks[t])|
    requires r.threads == s.threads[t := s.threads[t].(written := w + k)]
    requires r.file == Patched(s.file, Packed(c, tasks[t])[w..w + k], s.threads[t].dataStart + w)
    requires i < |s.order|
    ensures RangeOk(c, tasks, r, i)
  {
    hide WriteOffset, CsumTable, DataStart, IsFirst, Packed, Ps, Patched, At, Pool.PoolOffset, Pool.NoDuplicates,
      BlobOk;
    var (ps, m) := (Ps(c, tasks, s), s.threads[t].index);
    assert ThreadOk(c, tasks, s, t) && RangeOk(c, tasks, s, i);
    PayloadListed(c, tasks, s, t);
    SameOrder(c, tasks, s, r);
    hide Inv, ThreadOk;
    if i == m {
      ChunkFills(s.file, DataStart(ps, m), ps[m].data, w, k);
    } else if IsFirst(ps, i) && Filled(s.threads[s.order[i]], |ps[i].data|) > 0 {
      ChunkSpares(s.file, ps, m, w, k, i, Filled(s.threads[s.order[i]], |ps[i].data|));
    }
  }

  lemma WriteTransition(c: Codec, tasks: seq<BlobSpec>, s: State, t: nat, n: nat)
    requires t < |tasks| == |s.threads| && s.threads[t].Writing? && s.threads[t].written < |Packed(c, tasks[t])|
    ensures var (data, th) := (Packed(c, tasks[t]), s.threads[t]);
            var k := ChunkSize(n, |data| - th.written);
            Step(c, tasks, s, t, n) == s.(file := Patched(s.file, data[th.written..th.written + k], th.dataStart + th.written),
                                          threads := s.threads[t := th.(written := th.written + k)])
  {
    hide Packed, Patched, ChunkSize;
  }

  lemma WriteStep(c: Codec, tasks: seq<BlobSpec>, s: State, t: nat, n: nat)
    requires Inv(c, tasks, s) && t < |tasks| && s.threads[t].Writing? && s.threads[t].written < |Packed(c, tasks[t])|
    ensures Inv(c, tasks, Step(c, tasks, s, t, n))
  {
    hide Packed, Patched, Step, Inv;
    InvThreads(c, tasks, s);
    WriteTransition(c, tasks, s, t, n);
    var (w, left) := (s.threads[t].written, |Packed(c, tasks[t])| - s.threads[t].written);
    ChunkWritten(c, tasks, s, Step(c, tasks, s, t, n), t, w, ChunkSize(n, left));
  }

  lemma ChunkWritten(c: Codec, tasks: seq<BlobSpec>, s: State, r: State, t: nat, w: nat, k: nat)
    requires Inv(c, tasks, s) && t < |tasks| && s.threads[t].Writing? && w == s.threads[t].written
    requires 0 < k && w + k <= |Packed(c, tasks[t])|
    requires r == s.(file := Patched(s.file, Packed(c, tasks[t])[w..w + k], s.threads[t].dataStart + w),
                     threads := s.threads[t := s.threads[t].(written := w + k)])
    ensures Inv(c, tasks, r)
  {
    hide WriteOffset, CsumTable, Packed, Ps, Pool.NoDuplicates, Patched, ThreadOk, BlobOk, RangeOk;
    QuietOrdered(tasks, s, r, t);
    SameOrder(c, tasks, s, r);
    forall u | 0 <= u < |tasks|
      ensures ThreadOk(c, tasks, r, u)
    {
      WriteKeepsThread(c, tasks, s, r, t, w, k, u);
    }
    forall i | 0 <= i < |r.order|
      ensures BlobOk(c, tasks, r, i) && RangeOk(c, tasks, r, i)
    {
      WriteKeepsBlob(c, tasks, s, r, t, i);
      WriteKeepsRange(c, tasks, s, r, t, w, k, i);
    }
  }

  lemma WriteKeepsThread(c: Codec, tasks: seq<BlobSpec>, s: State, r: State, t: nat, w: nat, k: nat, u: nat)
    requires Ordered(tasks, s) && Ordered(tasks, r) && r.order == s.order && r.strings == s.strings && t < |tasks| && u < |tasks|
    requires s.threads[t].Writing? && w + k <= |Packed(c, tasks[t])|
    requires r.threads == s.threads[t := s.threads[t].(written := w + k)]
    requires ThreadOk(c, tasks, s, u)
    ensures ThreadOk(c, tasks, r, u)
  {
    hide DataStart, IsFirst, Packed, Ps, Pool.PoolOffset;
    SameOrder(c, tasks, s, r);
  }

  lemma WriteKeepsBlob(c: Codec, tasks: seq<BlobSpec>, s: State, r: State, t: nat, i: nat)
    requires Ordered(tasks, s) && Ordered(tasks, r) && r.order == s.order && r.strings == s.strings && r.blobs == s.blobs
    requires t < |tasks| && s.threads[t].Writing? && i < |s.order|
    requires r.threads[t].Writing? && forall u | 0 <= u < |tasks| && u != t :: r.threads[u] == s.threads[u]
    requires BlobOk(c, tasks, s, i)
    ensures BlobOk(c, tasks, r, i)
  {
    hide DataStart, IsFirst, Packed, Ps, Pool.PoolOffset;
    SameOrder(c, tasks, s, r);
  }

  /** A listed call moves on without touching file, pool or layout; at most its own header changes. */
  lemma ListedStep(c: Codec, tasks: seq<BlobSpec>, s: State, r: State, t: nat)
    requires Inv(c, tasks, s) && Quiet(tasks, s, r, t) && Ordered(tasks, r) && s.threads[t].Listed()
    requires r.file == s.file && r.offset == s.offset && r.table == s.table && r.strings == s.strings
    requires forall i | 0 <= i < |s.blobs| && i != s.threads[t].index :: r.blobs[i] == s.blobs[i]
    requires ThreadOk(c, tasks, r, t) && BlobOk(c, tasks, r, s.threads[t].index) && RangeOk(c, tasks, r, s.threads[t].index)
    ensures Inv(c, tasks, r)
  {
    hide WriteOffset, CsumTable, DataStart, IsFirst, Packed, Payloads, Pool.PoolOffset, Pool.NoDuplicates;
    forall u | 0 <= u < |tasks|
      ensures ThreadOk(c, tasks, r, u)
    {
      assert ThreadOk(c, tasks, s, u);
    }
    forall i | 0 <= i < |r.order|
      ensures BlobOk(c, tasks, r, i) && RangeOk(c, tasks, r, i)
    {
      assert BlobOk(c, tasks, s, i) && RangeOk(c, tasks, s, i);
    }
  }

  lemma DoneWritingTransition(c: Codec, tasks: seq<BlobSpec>, s: State, t: nat, n: nat)
    requires t < |tasks| == |s.threads| && s.threads[t].Writing? && s.threads[t].written >= |Packed(c, tasks[t])|
    ensures Step(c, tasks, s, t, n) == s.(threads := s.threads[t := Publishing(s.threads[t].index, s.threads[t].dataStart)])
  {
    hide Packed;
  }

  lemma DoneWritingStep(c: Codec, tasks: seq<BlobSpec>, s: State, t: nat, n: nat)
    requires Inv(c, tasks, s) && t < |tasks| && s.threads[t].Writing? && s.threads[t].written >= |Packed(c, tasks[t])|
    ensures Inv(c, tasks, Step(c, tasks, s, t, n))
  {
    hide WriteOffset, CsumTable, DataStart, IsFirst, Packed, Ps, Pool.PoolOffset, Pool.NoDuplicates, Step, At;
    var (r, m) := (Step(c, tasks, s, t, n), s.threads[t].index);
    DoneWritingTransition(c, tasks, s, t, n);
    QuietOrdered(tasks, s, r, t);
    assert ThreadOk(c, tasks, s, t) && BlobOk(c, tasks, s, m);
    FullyWritten(c, tasks, s, r, t);
    SameOrder(c, tasks, s, r);
    ListedStep(c, tasks, s, r, t);
  }

  lemma FullyWritten(c: Codec, tasks: seq<BlobSpec>, s: State, r: State, t: nat)
    requires Inv(c, tasks, s) && Ordered(tasks, r) && r.order == s.order && r.file == s.file
    requires t < |tasks| && s.threads[t].Writing? && s.threads[t].written >= |Packed(c, tasks[t])|
    requires r.threads[t].Publishing? && r.threads[t].index == s.threads[t].index
    ensures RangeOk(c, tasks, r, s.threads[t].index)
  {
    hide WriteOffset, CsumTable, DataStart, IsFirst, Packed, Ps, Pool.PoolOffset, Pool.NoDuplicates, At, BlobOk;
    assert RangeOk(c, tasks, s, s.threads[t].index);
    PayloadListed(c, tasks, s, t);
    SameOrder(c, tasks, s, r);
  }

  lemma SameOrder(c: Codec, tasks: seq<BlobSpec>, s: State, r: State)
    requires Ordered(tasks, s) && r.order == s.order
    ensures Ps(c, tasks, r) == Ps(c, tasks, s)
  {
  }

  lemma PayloadListed(c: Codec, tasks: seq<BlobSpec>, s: State, t: nat)
    requires Ordered(tasks, s) && t < |tasks| && s.threads[t].Listed()
    ensures Ps(c, tasks, s)[s.threads[t].index] == PayloadOf(c, tasks[t])
  {
  }

  lemma PublishTransition(c: Codec, tasks: seq<BlobSpec>, s: State, t: nat, n: nat)
    requires t < |tasks| == |s.threads| && s.threads[t].Publishing? && s.threads[t].index < |s.blobs|
    ensures var m := s.threads[t].index;
            var done := s.blobs[m].(dataStart := s.threads[t].dataStart, size := |Packed(c, tasks[t])|);
            Step(c, tasks, s, t, n) == s.(blobs := s.blobs[m := done], threads := s.threads[t := Returned(m)])
  {
    hide Packed;
  }

  lemma PublishStep(c: Codec, tasks: seq<BlobSpec>, s: State, t: nat, n: nat)
    requires Inv(c, tasks, s) && t < |tasks| && s.threads[t].Publishing?
    ensures Inv(c, tasks, Step(c, tasks, s, t, n))
  {
    hide WriteOffset, CsumTable, DataStart, IsFirst, Packed, Ps, Pool.PoolOffset, Pool.NoDuplicates, Step, At;
    var (r, m) := (Step(c, tasks, s, t, n), s.threads[t].index);
    PublishTransition(c, tasks, s, t, n);
    QuietOrdered(tasks, s, r, t);
    SameOrder(c, tasks, s, r);
    Published(c, tasks, s, r, t);
    ListedStep(c, tasks, s, r, t);
  }

  /** The header is complete, and the range is as full as it was. */
  lemma Published(c: Codec, tasks: seq<BlobSpec>, s: State, r: State, t: nat)
    requires Inv(c, tasks, s) && Ordered(tasks, r) && t < |tasks| && s.threads[t].Publishing?
    requires var m := s.threads[t].index;
             var done := s.blobs[m].(dataStart := s.threads[t].dataStart, size := |Packed(c, tasks[t])|);
             r == s.(blobs := s.blobs[m := done], threads := s.threads[t := Returned(m)])
    ensures BlobOk(c, tasks, r, s.threads[t].index) && RangeOk(c, tasks, r, s.threads[t].index)
  {
    hide WriteOffset, CsumTable, DataStart, IsFirst, Packed, Ps, Pool.PoolOffset, Pool.NoDuplicates, Step, At;
    var m := s.threads[t].index;
    assert ThreadOk(c, tasks, s, t) && BlobOk(c, tasks, s, m) && RangeOk(c, tasks, s, m);
    SameOrder(c, tasks, s, r);
  }

  lemma RefuseStep(c: Codec, tasks: seq<BlobSpec>, s: State, t: nat, n: nat)
    requires Inv(c, tasks, s) && t < |tasks| && (s.threads[t].Returned? || s.threads[t].Refused?)
    ensures Step(c, tasks, s, t, n) == s
  {
  }

  // ---------- Every schedule ----------

  /** A step keeps the invariant exactly if what it looks up survives the cast. */
  lemma StepInv(c: Codec, tasks: seq<BlobSpec>, s: State, t: nat, n: nat)
    requires Inv(c, tasks, s) && t < |tasks|
    ensures |s.threads| == |tasks|
    ensures Inv(c, tasks, Step(c, tasks, s, t, n)) <==> StepSafe(tasks, s, t)
  {
    hide Inv, Step, Packed, StringsAnswerable;
    InvThreads(c, tasks, s);
    match s.threads[t]
    case Start => PoolStep(c, tasks, s, t, n);
    case Pooled(_, _) => SumStep(c, tasks, s, t, n);
    case Summed(_, _, _) =>
      if StepSafe(tasks, s, t) {
        LockStep(c, tasks, s, t, n);
      } else {
        ReuseLost(c, tasks, s, t, n);
      }
    case Writing(_, _, w) =>
      if w < |Packed(c, tasks[t])| {
        WriteStep(c, tasks, s, t, n);
      } else {
        DoneWritingStep(c, tasks, s, t, n);
      }
    case Publishing(_, _) => PublishStep(c, tasks, s, t, n);
    case _ => RefuseStep(c, tasks, s, t, n);
  }

  /** The invariant holds in every state of the run. */
  ghost predicate Held(c: Codec, tasks: seq<BlobSpec>, s: State, schedule: seq<(nat, nat)>)
    requires |s.threads| == |tasks|
  {
    forall k | 0 <= k <= |schedule| :: Inv(c, tasks, Exec(c, tasks, s, schedule[..k]))
  }

  lemma HeldOneMore(c: Codec, tasks: seq<BlobSpec>, s: State, schedule: seq<(nat, nat)>)
    requires |s.threads| == |tasks| && schedule != []
    ensures Held(c, tasks, s, schedule)
       <==> Held(c, tasks, s, schedule[..|schedule| - 1]) && Inv(c, tasks, Exec(c, tasks, s, schedule))
  {
    hide Inv, Exec;
    var init := schedule[..|schedule| - 1];
    assert forall k | 0 <= k <= |init| :: schedule[..k] == init[..k];
    assert schedule[..|schedule|] == schedule;
    if Held(c, tasks, s, init) && Inv(c, tasks, Exec(c, tasks, s, schedule)) {
      forall k | 0 <= k <= |schedule|
        ensures Inv(c, tasks, Exec(c, tasks, s, schedule[..k]))
      {
        if k <= |init| {
          assert schedule[..k] == init[..k];
        }
      }
    }
  }

  /** The invariant holds all through a schedule exactly if every lookup of the run is of something
      below 4 GiB, whatever the size of the shard; and it then holds at the end. */
  lemma {:induction false} EverySchedule(c: Codec, tasks: seq<BlobSpec>, file: seq<Byte>, schedule: seq<(nat, nat)>)
    ensures var s0 := Initial(file, |tasks|);
            && (Safe(c, tasks, s0, schedule) <==> Held(c, tasks, s0, schedule))
            && (Safe(c, tasks, s0, schedule) ==> Inv(c, tasks, Exec(c, tasks, s0, schedule)))
    decreases |schedule|
  {
    var s0 := Initial(file, |tasks|);
    if schedule == [] {
      InitialInv(c, tasks, file);
    } else {
      hide Inv, Step, StepSafe, Held;
      var (init, t, n) := (schedule[..|schedule| - 1], schedule[|schedule| - 1].0, schedule[|schedule| - 1].1);
      EverySchedule(c, tasks, file, init);
      HeldOneMore(c, tasks, s0, schedule);
      if Safe(c, tasks, s0, init) && t < |tasks| {
        StepInv(c, tasks, Exec(c, tasks, s0, init), t, n);
      }
    }
  }

  /** In particular, every run that stays below 4 GiB keeps it. */
  lemma {:induction false} SmallRunSafe(c: Codec, tasks: seq<BlobSpec>, file: seq<Byte>, schedule: seq<(nat, nat)>)
    requires var s := Exec(c, tasks, Initial(file, |tasks|), schedule);
             s.offset < TWO_32 && |Pool.PoolBytes(s.strings)| < TWO_32
    ensures Safe(c, tasks, Initial(file, |tasks|), schedule)
    decreases |schedule|
  {
    if schedule != [] {
      hide Inv, Step, Initial, Pool.PoolBytes, Pool.Answerable;
      var (init, t) := (schedule[..|schedule| - 1], schedule[|schedule| - 1].0);
      var s := Exec(c, tasks, Initial(file, |tasks|), init);
      if t < |tasks| {
        StepMonotone(c, tasks, s, t, schedule[|schedule| - 1].1);
      }
      SmallRunSafe(c, tasks, file, init);
      EverySchedule(c, tasks, file, init);
      if t < |tasks| {
        SmallStepSafe(c, tasks, s, t, schedule[|schedule| - 1].1);
      }
    }
  }

  // ---------- A run above 4 GiB ----------

  /** `k` moves of one call, one byte at a time where it writes. */
  function Moves(t: nat, k: nat): (schedule: seq<(nat, nat)>)
    ensures |schedule| == k
  {
    seq(k, _ => (t, 0))
  }

  /** One after the other. */
  lemma {:induction false} ExecBoth(c: Codec, tasks: seq<BlobSpec>, s: State, a: seq<(nat, nat)>, b: seq<(nat, nat)>)
    requires |s.threads| == |tasks|
    ensures Exec(c, tasks, s, a + b) == Exec(c, tasks, Exec(c, tasks, s, a), b)
    decreases |b|
  {
    hide Step;
    if b == [] {
      assert a + b == a;
    } else {
      var init := b[..|b| - 1];
      ExecBoth(c, tasks, s, a, init);
      assert (a + b)[..|a + b| - 1] == a + init;
    }
  }

  lemma OneMoreMove(c: Codec, tasks: seq<BlobSpec>, s: State, t: nat, k: nat)
    requires t < |tasks| == |s.threads|
    ensures Exec(c, tasks, s, Moves(t, k + 1)) == Step(c, tasks, Exec(c, tasks, s, Moves(t, k)), t, 0)
  {
    hide Step;
    assert Moves(t, k + 1)[..k] == Moves(t, k);
  }

  lemma NoMoves(c: Codec, tasks: seq<BlobSpec>, s: State, t: nat)
    requires |s.threads| == |tasks|
    ensures Exec(c, tasks, s, Moves(t, 0)) == s
  {
  }

  /** The first two moves of a call change nothing shared but the pool. */
  lemma FirstTwo(c: Codec, tasks: seq<BlobSpec>, s: State, t: nat)
    requires t < |tasks| == |s.threads| && s.threads[t].Start? && Acceptable(tasks[t])
    ensures var r := Exec(c, tasks, s, Moves(t, 2));
            && r.threads[t].Summed? && r.threads[t].csum == c.sha256(Packed(c, tasks[t]))
            && r.threads == s.threads[t := r.threads[t]] && r == s.(strings := r.strings, threads := r.threads)
  {
    hide Packed, Pool.Intern, Pool.Answer, Acceptable, Exec, Step, Moves;
    NoMoves(c, tasks, s, t);
    OneMoreMove(c, tasks, s, t, 0);
    OneMoreMove(c, tasks, s, t, 1);
    PoolTransition(c, tasks, s, t, 0);
    var s1 := Step(c, tasks, s, t, 0);
    SumTransition(c, tasks, s1, t, 0);
    assert s1.threads == s.threads[t := s1.threads[t]];
  }

  /** The third takes it to its place. */
  lemma FirstThree(c: Codec, tasks: seq<BlobSpec>, s: State, t: nat)
    requires t < |tasks| == |s.threads| && s.threads[t].Start? && Acceptable(tasks[t])
    ensures var r := Exec(c, tasks, s, Moves(t, 3));
            var csum := c.sha256(Packed(c, tasks[t]));
            var place := Found(s.table, csum);
            && |r.blobs| == |s.blobs| + 1 && r.file == s.file
            && r.threads == s.threads[t := if place == 0 then Writing(|s.blobs|, s.offset, 0) else Publishing(|s.blobs|, place)]
            && r.offset == (if place == 0 then Align(s.offset + |Packed(c, tasks[t])|) else s.offset)
            && r.table == if place == 0 then s.table[csum := s.offset] else s.table
  {
    hide Packed, Align, Acceptable, Exec, Step, Found, Moves;
    FirstTwo(c, tasks, s, t);
    OneMoreMove(c, tasks, s, t, 2);
    LockTransition(c, tasks, Exec(c, tasks, s, Moves(t, 2)), t, 0);
  }

  /** A call that writes alone, byte by byte. */
  lemma {:induction false} WritesAlone(c: Codec, tasks: seq<BlobSpec>, s: State, t: nat, k: nat)
    requires t < |tasks| == |s.threads| && s.threads[t].Writing? && s.threads[t].written == 0
    requires k <= |Packed(c, tasks[t])|
    ensures Exec(c, tasks, s, Moves(t, k))
         == s.(file := Patched(s.file, Packed(c, tasks[t])[..k], s.threads[t].dataStart),
               threads := s.threads[t := s.threads[t].(written := k)])
  {
    hide Packed, Exec, Step, Moves, Patched;
    var (data, start) := (Packed(c, tasks[t]), s.threads[t].dataStart);
    if k == 0 {
      NoMoves(c, tasks, s, t);
      PatchedNothing(s.file, start);
      assert s.threads[t := s.threads[t].(written := 0)] == s.threads;
    } else {
      WritesAlone(c, tasks, s, t, k - 1);
      OneMoreMove(c, tasks, s, t, k - 1);
      WriteTransition(c, tasks, Exec(c, tasks, s, Moves(t, k - 1)), t, 0);
      OneMoreByte(s.file, data, start, k - 1);
    }
  }

  lemma OneMoreByte(file: seq<Byte>, data: seq<Byte>, start: nat, w: nat)
    requires w < |data|
    ensures Patched(Patched(file, data[..w], start), data[w..w + 1], start + w) == Patched(file, data[..w + 1], start)
  {
    hide Patched;
    assert data[..w + 1] == data[..w] + data[w..w + 1];
    if w > 0 {
      PatchedTwice(file, data[..w], data[w..w + 1], start);
    } else {
      PatchedNothing(file, start);
    }
  }

  /** It comes back with its data at its place. */
  lemma WriterReturns(c: Codec, tasks: seq<BlobSpec>, s: State, t: nat)
    requires t < |tasks| == |s.threads| && s.threads[t].Writing? && s.threads[t].written == 0
    requires s.threads[t].index < |s.blobs|
    ensures var (data, i, start) := (Packed(c, tasks[t]), s.threads[t].index, s.threads[t].dataStart);
            Exec(c, tasks, s, Moves(t, |data| + 2))
            == s.(file := Patched(s.file, data, start), threads := s.threads[t := Returned(i)],
                  blobs := s.blobs[i := s.blobs[i].(dataStart := start, size := |data|)])
  {
    hide Packed, Exec, Step, Moves, Patched;
    var data := Packed(c, tasks[t]);
    WritesAlone(c, tasks, s, t, |data|);
    assert data[..|data|] == data;
    OneMoreMove(c, tasks, s, t, |data|);
    var s1 := Exec(c, tasks, s, Moves(t, |data|));
    DoneWritingTransition(c, tasks, s1, t, 0);
    OneMoreMove(c, tasks, s, t, |data| + 1);
    PublishTransition(c, tasks, Exec(c, tasks, s, Moves(t, |data| + 1)), t, 0);
    assert s.threads[t := s1.threads[t]][t := Returned(s.threads[t].index)] == s.threads[t := Returned(s.threads[t].index)];
  }

  lemma PublisherReturns(c: Codec, tasks: seq<BlobSpec>, s: State, t: nat)
    requires t < |tasks| == |s.threads| && s.threads[t].Publishing? && s.threads[t].index < |s.blobs|
    ensures var (i, start) := (s.threads[t].index, s.threads[t].dataStart);
            Exec(c, tasks, s, Moves(t, 1))
            == s.(threads := s.threads[t := Returned(i)],
                  blobs := s.blobs[i := s.blobs[i].(dataStart := start, size := |Packed(c, tasks[t])|)])
  {
    hide Packed, Exec, Step, Moves;
    NoMoves(c, tasks, s, t);
    OneMoreMove(c, tasks, s, t, 0);
    PublishTransition(c, tasks, s, t, 0);
  }

  lemma SumTransition(c: Codec, tasks: seq<BlobSpec>, s: State, t: nat, n: nat)
    requires t < |tasks| == |s.threads| && s.threads[t].Pooled?
    ensures var th := s.threads[t];
            Step(c, tasks, s, t, n) ==
            s.(threads := s.threads[t := Summed(th.nameOffs, th.contentTypeOffs, c.sha256(Packed(c, tasks[t])))])
  {
    hide Packed;
  }

  /** All three calls take their places, one after the other. */
  function Reserving(): seq<(nat, nat)> {
    Moves(0, 3) + Moves(1, 3) + Moves(2, 3)
  }

  /** A run that goes wrong: 4 GiB of data, and behind it the same small blob twice. The second of
      these is sent to offset 64, into the data of the first call, because its place is 4 GiB + 64. */
  lemma ThirdCallMisplaced(c: Codec, file: seq<Byte>, big: BlobSpec, small: BlobSpec)
    requires Acceptable(big) && |Packed(c, big)| == TWO_32
    requires Acceptable(small) && 0 < |Packed(c, small)| && c.sha256(Packed(c, small)) != c.sha256(Packed(c, big))
    ensures var s := Exec(c, [big, small, small], Initial(file, 3), Reserving());
            && s.threads == [Writing(0, HEADER_SIZE, 0), Writing(1, TWO_32 + 64, 0), Publishing(2, 64)]
            && c.sha256(Packed(c, small)) in s.table && s.table[c.sha256(Packed(c, small))] == TWO_32 + 64
            && |s.blobs| == 3 && s.file == file
  {
    hide Packed, Acceptable, Exec, Moves;
    var (tasks, s0) := ([big, small, small], Initial(file, 3));
    var s1 := Exec(c, tasks, s0, Moves(0, 3));
    FirstThree(c, tasks, s0, 0);
    var s2 := Exec(c, tasks, s1, Moves(1, 3));
    ExecBoth(c, tasks, s0, Moves(0, 3), Moves(1, 3));
    FirstThree(c, tasks, s1, 1);
    ExecBoth(c, tasks, s0, Moves(0, 3) + Moves(1, 3), Moves(2, 3));
    FirstThree(c, tasks, s2, 2);
  }

  /** And then they write and return. */
  function Finishing(c: Codec, big: BlobSpec, small: BlobSpec): seq<(nat, nat)> {
    Moves(0, |Packed(c, big)| + 2) + Moves(1, |Packed(c, small)| + 2) + Moves(2, 1)
  }

  /** Once all three are back, the range of the third blob holds bytes of the first, while its own
      bytes are where the second blob has them. */
  lemma ThirdBlobWrong(c: Codec, file: seq<Byte>, big: BlobSpec, small: BlobSpec)
    requires Acceptable(big) && |Packed(c, big)| == TWO_32 && Acceptable(small)
    requires 0 < |Packed(c, small)| <= TWO_32 - 28 && c.sha256(Packed(c, small)) != c.sha256(Packed(c, big))
    ensures var s := Exec(c, [big, small, small], Initial(file, 3), Reserving() + Finishing(c, big, small));
            && s.threads == [Returned(0), Returned(1), Returned(2)] && |s.blobs| == 3
            && s.blobs[1].dataStart == TWO_32 + 64 && At(s.file, TWO_32 + 64, Packed(c, small))
            && s.blobs[2].dataStart == 64 && s.blobs[2].size == |Packed(c, small)|
            && At(s.file, 64, Packed(c, big)[28..28 + |Packed(c, small)|])
  {
    hide Packed, Acceptable, Exec, Moves, Patched, At, Reserving, Initial;
    var (tasks, s0, data) := ([big, small, small], Initial(file, 3), Packed(c, big));
    InitialThreads(file, 3);
    ThirdCallMisplaced(c, file, big, small);
    ExecBoth(c, tasks, s0, Reserving(), Finishing(c, big, small));
    var s1 := Exec(c, tasks, s0, Reserving());
    ExecBoth(c, tasks, s1, Moves(0, |data| + 2) + Moves(1, |Packed(c, small)| + 2), Moves(2, 1));
    ExecBoth(c, tasks, s1, Moves(0, |data| + 2), Moves(1, |Packed(c, small)| + 2));
    WriterReturns(c, tasks, s1, 0);
    var s2 := Exec(c, tasks, s1, Moves(0, |data| + 2));
    WriterReturns(c, tasks, s2, 1);
    var s3 := Exec(c, tasks, s2, Moves(1, |Packed(c, small)| + 2));
    PublisherReturns(c, tasks, s3, 2);
    BothWritten(file, data, Packed(c, small));
  }

  lemma InitialThreads(file: seq<Byte>, n: nat)
    ensures |Initial(file, n).threads| == n
  {
  }

  lemma BothWritten(file: seq<Byte>, big: seq<Byte>, small: seq<Byte>)
    requires |big| == TWO_32 && 0 < |small| <= TWO_32 - 28
    ensures var written := Patched(Patched(file, big, HEADER_SIZE), small, TWO_32 + 64);
            At(written, TWO_32 + 64, small) && At(written, 64, big[28..28 + |small|])
  {
    hide Patched, At;
    PatchedAt(file, big, HEADER_SIZE);
    var f := Patched(file, big, HEADER_SIZE);
    PatchedAt(f, small, TWO_32 + 64);
    PatchedFrame(f, small, TWO_32 + 64, HEADER_SIZE, big);
    AtPart(Patched(f, small, TWO_32 + 64), HEADER_SIZE, big, 28, 28 + |small|);
  }

  lemma StepMonotone(c: Codec, tasks: seq<BlobSpec>, s: State, t: nat, n: nat)
    requires t < |tasks| == |s.threads|
    ensures s.offset <= Step(c, tasks, s, t, n).offset
    ensures |Pool.PoolBytes(s.strings)| <= |Pool.PoolBytes(Step(c, tasks, s, t, n).strings)|
  {
    hide Pool.PoolBytes, Pool.Intern, Pool.Answer, Packed, Patched, ChunkSize;
    var task := tasks[t];
    Pool.InternSize(s.strings, task.name);
    Pool.InternSize(Pool.Intern(s.strings, task.name), task.contentType);
  }

  lemma SmallStepSafe(c: Codec, tasks: seq<BlobSpec>, s: State, t: nat, n: nat)
    requires Inv(c, tasks, s) && t < |tasks| == |s.threads| && s.offset < TWO_32
    requires |Pool.PoolBytes(Step(c, tasks, s, t, n).strings)| < TWO_32
    ensures StepSafe(tasks, s, t)
  {
    match s.threads[t]
    case Start =>
      hide *;
      if Acceptable(tasks[t]) {
        SmallStringsAnswerable(c, tasks, s, t, n);
      }
      StartSafe(tasks, s, t);
    case Summed(_, _, csum) =>
      hide WriteOffset, CsumTable, DataStart, IsFirst, ThreadOk, BlobOk, RangeOk, Ps, Ordered, Step, Pool.PoolBytes;
      if csum in s.table {
        ReserveSeen(Ps(c, tasks, s), Payload(csum, []));
      }
    case _ =>
  }

  lemma StartSafe(tasks: seq<BlobSpec>, s: State, t: nat)
    requires t < |tasks| == |s.threads| && s.threads[t].Start?
    ensures StepSafe(tasks, s, t) <==> (Acceptable(tasks[t]) ==> StringsAnswerable(s.strings, tasks[t]))
  {
  }

  lemma SmallStringsAnswerable(c: Codec, tasks: seq<BlobSpec>, s: State, t: nat, n: nat)
    requires t < |tasks| == |s.threads| && s.threads[t].Start? && Acceptable(tasks[t])
    requires |Pool.PoolBytes(Step(c, tasks, s, t, n).strings)| < TWO_32
    ensures StringsAnswerable(s.strings, tasks[t])
  {
    hide Step, Pool.PoolBytes, Pool.PoolOffset, Pool.Intern;
    var (b, s1) := (tasks[t], Pool.Intern(s.strings, tasks[t].name));
    PoolTransition(c, tasks, s, t, n);
    Pool.InternSize(s.strings, b.name);
    Pool.InternSize(s1, b.contentType);
    if b.name in s.strings {
      Pool.OffsetInside(s.strings, b.name);
    }
    if b.contentType in s1 {
      Pool.OffsetInside(s1, b.contentType);
    }
  }

  /** How much a call still has to do. */
  function Left(thread: Thread, size: nat): nat {
    match thread
    case Start => size + 6
    case Pooled(_, _) => size + 5
    case Summed(_, _, _) => size + 4
    case Writing(_, _, w) => if w <= size then size - w + 2 else 2
    case Publishing(_, _) => 1
    case _ => 0
  }

  /** No call ever waits for another: a call that is not back gets closer to the end with each of
      its own steps, whatever the others do. */
  lemma StepAdvances(c: Codec, tasks: seq<BlobSpec>, s: State, t: nat, n: nat)
    requires Ordered(tasks, s) && t < |tasks|
    ensures var (r, size) := (Step(c, tasks, s, t, n), |Packed(c, tasks[t])|);
            && (Left(s.threads[t], size) > 0 ==> Left(r.threads[t], size) < Left(s.threads[t], size))
            && (forall u | 0 <= u < |tasks| && u != t :: r.threads[u] == s.threads[u])
            && (Left(s.threads[t], size) == 0 ==> r == s)
  {
    hide WriteOffset, CsumTable, DataStart, IsFirst, Packed, Align, Ps, Pool.PoolOffset, Pool.NoDuplicates, Patched,
      Pool.Intern, Pool.Answer, BlobOk, RangeOk;
  }

  /** List and calls stay in step, also in runs that lose a place. */
  lemma StepOrdered(c: Codec, tasks: seq<BlobSpec>, s: State, t: nat, n: nat)
    requires Ordered(tasks, s) && t < |tasks|
    ensures Ordered(tasks, Step(c, tasks, s, t, n))
  {
    if s.threads[t].Summed? {
      LockOrdered(c, tasks, s, t, n);
    } else {
      hide Ordered, Packed, Align, Patched, Pool.Intern, Pool.Answer, Found;
      OrderedSizes(tasks, s, t);
      QuietOrdered(tasks, s, Step(c, tasks, s, t, n), t);
    }
  }

  lemma OrderedSizes(tasks: seq<BlobSpec>, s: State, t: nat)
    requires Ordered(tasks, s) && t < |tasks|
    ensures |s.threads| == |tasks| && (s.threads[t].Listed() ==> s.threads[t].index < |s.blobs|)
  {
  }

  /** How often a call moves. */
  function Count(schedule: seq<(nat, nat)>, t: nat): nat {
    if schedule == [] then 0
    else Count(schedule[..|schedule| - 1], t) + (if schedule[|schedule| - 1].0 == t then 1 else 0)
  }

  lemma {:induction false} LeftAfter(c: Codec, tasks: seq<BlobSpec>, file: seq<Byte>, schedule: seq<(nat, nat)>, t: nat)
    requires t < |tasks|
    ensures var (s, size) := (Exec(c, tasks, Initial(file, |tasks|), schedule), |Packed(c, tasks[t])|);
            && Ordered(tasks, s)
            && (Left(s.threads[t], size) == 0 || Left(s.threads[t], size) + Count(schedule, t) <= size + 6)
    decreases |schedule|
  {
    hide Packed, Step, Left;
    if schedule == [] {
      StartLeft(|Packed(c, tasks[t])|);
    } else {
      hide Ordered, Initial;
      var (init, u, n) := (schedule[..|schedule| - 1], schedule[|schedule| - 1].0, schedule[|schedule| - 1].1);
      InitialThreads(file, |tasks|);
      LeftAfter(c, tasks, file, init, t);
      if u < |tasks| {
        var s := Exec(c, tasks, Initial(file, |tasks|), init);
        StepOrdered(c, tasks, s, u, n);
        StepAdvances(c, tasks, s, u, n);
      }
    }
  }

  lemma StartLeft(size: nat)
    ensures Left(Start, size) == size + 6
  {
  }

  /** Every fair schedule brings all calls back: it is enough that each makes six moves more than
      its blob has packed bytes, in any interleaving, however little a move writes. */
  lemma FairScheduleEnds(c: Codec, tasks: seq<BlobSpec>, file: seq<Byte>, schedule: seq<(nat, nat)>)
    requires forall t | 0 <= t < |tasks| :: Count(schedule, t) >= |Packed(c, tasks[t])| + 6
    ensures AllBack(Exec(c, tasks, Initial(file, |tasks|), schedule))
  {
    hide Exec, Packed, Count, Initial, Left, Ordered;
    InitialThreads(file, |tasks|);
    var s := Exec(c, tasks, Initial(file, |tasks|), schedule);
    forall t | 0 <= t < |tasks|
      ensures s.threads[t].Returned? || s.threads[t].Refused?
    {
      LeftAfter(c, tasks, file, schedule, t);
      NothingLeft(s.threads[t], |Packed(c, tasks[t])|);
    }
  }

  lemma NothingLeft(thread: Thread, size: nat)
    ensures Left(thread, size) == 0 ==> thread.Returned? || thread.Refused?
  {
  }

  predicate AllBack(s: State) {
    forall t | 0 <= t < |s.threads| :: s.threads[t].Returned? || s.threads[t].Refused?
  }

  /** Once every call is back the writer's state is what adding the accepted blobs one by one,
      in the order of the list, would have left: in particular every blob's range holds its
      packed bytes, also where it shares the range of a call that was still writing. */
  lemma AllBackSettled(c: Codec, tasks: seq<BlobSpec>, s: State)
    requires Inv(c, tasks, s) && AllBack(s)
    ensures Settled(c, Specs(tasks, s.order), s.file, s.offset, s.table, s.strings, s.blobs)
  {
    var bs := Specs(tasks, s.order);
    hide WriteOffset, CsumTable, DataStart, IsFirst, Packed, Payloads, Pool.PoolOffset, Pool.NoDuplicates,
      DataInPlace, StoredBlob;
    forall i | 0 <= i < |bs|
      ensures Acceptable(bs[i]) && bs[i].name in s.strings && bs[i].contentType in s.strings
           && s.blobs[i] == StoredBlob(c, bs, s.strings, i)
    {
      HeaderComplete(c, tasks, s, i);
    }
    AllWritten(c, tasks, s);
  }

  lemma HeaderComplete(c: Codec, tasks: seq<BlobSpec>, s: State, i: nat)
    requires Inv(c, tasks, s) && AllBack(s) && i < |s.order|
    ensures var b := tasks[s.order[i]];
            && Acceptable(b) && b.name in s.strings && b.contentType in s.strings
            && s.blobs[i] == StoredBlob(c, Specs(tasks, s.order), s.strings, i)
  {
    hide WriteOffset, CsumTable, DataStart, IsFirst, Packed, Payloads, Pool.PoolOffset, Pool.NoDuplicates;
    assert BlobOk(c, tasks, s, i);
  }

  lemma AllWritten(c: Codec, tasks: seq<BlobSpec>, s: State)
    requires Inv(c, tasks, s) && AllBack(s)
    ensures DataInPlace(s.file, Ps(c, tasks, s))
  {
    var ps := Ps(c, tasks, s);
    hide WriteOffset, CsumTable, DataStart, IsFirst, Packed, Ps, At, Pool.PoolOffset, Pool.NoDuplicates;
    forall i | 0 <= i < |ps| && IsFirst(ps, i) && ps[i].data != []
      ensures At(s.file, DataStart(ps, i), ps[i].data)
    {
      assert RangeOk(c, tasks, s, i);
      assert ps[i].data[..|ps[i].data|] == ps[i].data;
    }
  }

  /** Every call that was accepted got an identifier of its own, and the identifier names its blob. */
  lemma IdentifiersDistinct(c: Codec, tasks: seq<BlobSpec>, s: State, t: nat, u: nat)
    requires Inv(c, tasks, s) && t < |tasks| && u < |tasks| && t != u
    requires s.threads[t].Returned? && s.threads[u].Returned?
    ensures s.threads[t].index != s.threads[u].index
    ensures s.threads[t].index < |s.order| && Specs(tasks, s.order)[s.threads[t].index] == tasks[t]
  {
  }
}
