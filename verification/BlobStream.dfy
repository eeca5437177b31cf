/** The seekable stream over the packed bytes of a blob. */
module BlobStream {
  import opened Bytes
  import opened ShardReader

  const MIN_INT64: int := -0x8000_0000_0000_0000

  datatype SeekType = Cur | Set | End | Invalid

  /** Conversion to a signed 64-bit integer. */
  function Signed64(x: int): (r: int)
    ensures MIN_INT64 <= r < TWO_63 && (MIN_INT64 <= x < TWO_63 ==> r == x)
  {
    (x + TWO_63) % TWO_64 - TWO_63
  }

  /** Where a seek is meant to go; outside for a type that there is not. */
  function Target(size: nat, pos: nat, offset: int, whence: SeekType): int {
    match whence
    case Cur => pos + offset
    case Set => offset
    case End => size + offset
    case Invalid => -1
  }

  // ---------- The reference: a stream over a sequence of bytes ----------

  datatype Op = Seek(offset: int, whence: SeekType) | Read(count: nat)
  datatype Reply = Sought(ok: bool) | Got(bytes: seq<Byte>)

  function MemoryStep(contents: seq<Byte>, size: nat, pos: nat, op: Op): (nat, Reply) {
    match op
    case Seek(offset, whence) =>
      var to := Target(size, pos, offset, whence);
      if 0 <= to <= size then (to, Sought(true)) else (pos, Sought(false))
    case Read(count) =>
      var bytes := Slice(contents, count, pos);
      (pos + |bytes|, Got(bytes))
  }

  function MemoryRun(contents: seq<Byte>, size: nat, pos: nat, ops: seq<Op>): (r: (nat, seq<Reply>))
    ensures |r.1| == |ops|
  {
    if ops == [] then (pos, []) else
      var before := MemoryRun(contents, size, pos, ops[..|ops| - 1]);
      var step := MemoryStep(contents, size, before.0, ops[|ops| - 1]);
      (step.0, before.1 + [step.1])
  }

  class BlobStream {
    const fd: File
    const blob: Blob
    var pos: nat

    ghost predicate Valid()
      reads this
    {
      pos <= blob.size < TWO_63
    }

    /** The packed bytes, as far as the file has them. */
    function Contents(): seq<Byte>
      reads fd
    {
      Slice(fd.bytes, blob.size, blob.offs)
    }

    constructor NewForBlob(fd: File, blob: Blob)
      requires blob.size < TWO_63
      ensures Valid() && this.fd == fd && this.blob == blob && pos == 0
    {
      this.fd, this.blob, pos := fd, blob, 0;
    }

    /** A seek succeeds exactly if its target is inside the blob or at its end, also when the
        64-bit sum wraps around; a failed seek moves nothing. */
    method Seek(offset: int, whence: SeekType) returns (ok: bool)
      requires Valid() && MIN_INT64 <= offset < TWO_63
      modifies this
      ensures Valid()
      ensures ok <==> 0 <= Target(blob.size, old(pos), offset, whence) <= blob.size
      ensures pos == if ok then Target(blob.size, old(pos), offset, whence) else old(pos)
      ensures whence == Set ==> (ok <==> 0 <= offset <= blob.size) && (ok ==> pos == offset)
      ensures whence == Cur ==> (ok <==> 0 <= old(pos) + offset <= blob.size) && (ok ==> pos == old(pos) + offset)
      ensures whence == End ==> (ok <==> 0 <= blob.size + offset <= blob.size) && (ok ==> pos == blob.size + offset)
      ensures whence == Invalid ==> !ok
    {
      var absolute: int;
      match whence {
        case Cur => absolute := Signed64(pos + offset);
        case Set => absolute := offset;
        case End => absolute := Signed64((blob.size + offset) % TWO_64);
        case Invalid => return false;
      }
      WrapOutside(blob.size, pos, offset);
      if absolute < 0 || absolute > blob.size {
        return false;
      }
      pos := absolute;
      return true;
    }

    /** A read delivers what the contents hold from the position on, at most `count` bytes. */
    method Read(count: nat) returns (bytes: seq<Byte>)
      requires Valid()
      modifies this
      ensures Valid()
      ensures bytes == Slice(Contents(), count, old(pos)) && pos == old(pos) + |bytes|
    {
      var actualCount := Min(count, blob.size - pos);
      bytes := fd.Pread(actualCount, blob.offs + pos);
      ReadInside(fd.bytes, blob.offs, blob.size, pos, count);
      pos := pos + |bytes|;
    }

    /** Over every run the stream answers as the reference does. */
    method Run(ops: seq<Op>) returns (replies: seq<Reply>)
      requires Valid()
      requires forall i | 0 <= i < |ops| && ops[i].Seek? :: MIN_INT64 <= ops[i].offset < TWO_63
      modifies this
      ensures Valid()
      ensures (pos, replies) == MemoryRun(Contents(), blob.size, old(pos), ops)
    {
      hide Slice, Target;
      replies := [];
      for i := 0 to |ops|
        invariant Valid() && (pos, replies) == MemoryRun(Contents(), blob.size, old(pos), ops[..i])
      {
        assert ops[..i + 1][..i] == ops[..i];
        match ops[i] {
          case Seek(offset, whence) =>
            var ok := this.Seek(offset, whence);
            replies := replies + [Sought(ok)];
          case Read(count) =>
            var bytes := this.Read(count);
            replies := replies + [Got(bytes)];
        }
      }
      assert ops[..|ops|] == ops;
    }

    /** Reading on until nothing comes gives the whole packed blob. */
    method ReadAll(count: nat) returns (data: seq<Byte>)
      requires Valid() && pos == 0 && count > 0
      modifies this
      ensures Valid() && data == Contents()
    {
      data := [];
      var more := true;
      while more
        invariant Valid() && pos <= |Contents()| && data == Contents()[..pos]
        invariant !more ==> pos == |Contents()|
        decreases more, |Contents()| - pos
      {
        var bytes := Read(count);
        assert data + bytes == Contents()[..pos];
        data := data + bytes;
        more := |bytes| > 0;
      }
    }
  }

  /** A sum that wraps around lands outside, where the sum itself would have been. */
  lemma WrapOutside(size: nat, pos: nat, offset: int)
    requires pos <= size < TWO_63 && MIN_INT64 <= offset < TWO_63
    ensures var a := Signed64(pos + offset);
            (0 <= a <= size <==> 0 <= pos + offset <= size) && (0 <= a <= size ==> a == pos + offset)
    ensures var a := Signed64((size + offset) % TWO_64);
            (0 <= a <= size <==> 0 <= size + offset <= size) && (0 <= a <= size ==> a == size + offset)
  {
  }

  /** Cutting the count to what is left reads the same bytes. */
  lemma ReadInside(file: seq<Byte>, offs: nat, size: nat, pos: nat, count: nat)
    requires pos <= size
    ensures Slice(file, Min(count, size - pos), offs + pos) == Slice(Slice(file, size, offs), count, pos)
  {
    var (whole, part) := (Slice(file, size, offs), Slice(file, Min(count, size - pos), offs + pos));
    var inner := Slice(whole, count, pos);
    assert |part| == |inner|;
    forall i | 0 <= i < |part|
      ensures part[i] == inner[i]
    {
      assert part[i] == file[offs + pos + i];
      assert inner[i] == whole[pos + i];
      assert whole[pos + i] == file[offs + (pos + i)];
    }
  }
}
