/**
 `copy_image_range` of `image_copy.py`: replaces one range of a destination file by
 a range of a source file with whatever the kernel offers: a reflink, punching a
 hole and copying only data extents, kernel copies and plain reads and writes, all
 of which may fall short or turn out to be unsupported.
 */
module ImageCopy {
  import opened Common

  /** A file with holes; a hole reads as zeros. */
  datatype Source = Source(bytes: seq<byte>, data: seq<bool>) {
    ghost predicate Valid() {
      |data| == |bytes| && forall i :: 0 <= i < |bytes| && !data[i] ==> bytes[i] == 0
    }
  }

  /** How a system call ends: with a result, with an error that has a fallback, or with one that has not. */
  datatype Call<T> = Done(value: T) | Unsupported | Error

  datatype Outcome = Copied | Raised

  const CHUNK := 16 * 1024 * 1024

  class Copier {
    const src: Source
    const so: int      // offset of the range in the source
    const dst: array<byte>
    const do: int      // offset of the range in the destination
    const length: int
    const sameFile: bool
    ghost var faulted: bool  // a system call has failed for good or made no progress

    ghost predicate Valid() {
      src.Valid()
    }

    /** The arguments the copy accepts. */
    ghost predicate Allowed() {
      0 <= so && 0 <= do && 0 <= length && !sameFile && so + length <= |src.bytes| && do + length <= dst.Length
    }

    ghost predicate InRange() {
      Valid() && 0 <= so && 0 <= do && 0 < length && so + length <= |src.bytes| && do + length <= dst.Length
    }

    constructor (src: Source, so: int, dst: array<byte>, do: int, length: int, sameFile: bool)
      requires src.Valid()
      ensures Valid() && this.src == src && this.so == so && this.dst == dst && this.do == do
      ensures this.length == length && this.sameFile == sameFile
    {
      this.src, this.so, this.dst, this.do, this.length, this.sameFile := src, so, dst, do, length, sameFile;
    }

    /** Source positions from `from` to `to` have been copied; the other bytes are as in `was`. */
    ghost predicate Has(was: seq<byte>, from: int, to: int)
      reads dst
      requires InRange() && so <= from && to <= so + length && |was| == dst.Length
    {
      forall k :: 0 <= k < dst.Length ==>
        dst[k] == if from <= so + (k - do) < to then src.bytes[so + (k - do)] else was[k]
    }

    // ----- System calls

    method Reflink() returns (r: Call<()>)
      requires InRange()
      modifies dst, this`faulted
      ensures if r.Done? then Has(old(dst[..]), so, so + length) else dst[..] == old(dst[..])
      ensures faulted == (old(faulted) || r.Error?)
    {
      if * {
        forall k | do <= k < do + length {
          dst[k] := src.bytes[so + (k - do)];
        }
        r := Done(());
      } else if * {
        r := Unsupported;
      } else {
        r := Error;
      }
      faulted := faulted || r.Error?;
    }

    /** `_clear_range` */
    method ClearRange() returns (r: Call<()>)
      requires InRange()
      modifies dst, this`faulted
      ensures forall k :: 0 <= k < dst.Length ==>
        dst[k] == if r.Done? && do <= k < do + length then 0 else old(dst[k])
      ensures faulted == (old(faulted) || r.Error?)
    {
      if * {
        forall k | do <= k < do + length {
          dst[k] := 0;
        }
        r := Done(());
      } else if * {
        r := Unsupported;
      } else {
        r := Error;
      }
      faulted := faulted || r.Error?;
    }

    /** The next data at or after a position; `|src.bytes|` stands for ENXIO, no more data. */
    method SeekData(start: int) returns (r: Call<int>)
      requires Valid() && 0 <= start < |src.bytes|
      modifies this`faulted
      ensures r.Done? ==> start <= r.value <= |src.bytes|
      ensures r.Done? ==> forall i :: start <= i < r.value ==> !src.data[i]
      ensures faulted == (old(faulted) || r.Error?)
    {
      if * {
        var p := start;
        while p < |src.bytes| && !src.data[p]
          invariant start <= p <= |src.bytes|
          invariant forall i :: start <= i < p ==> !src.data[i]
        {
          p := p + 1;
        }
        r := Done(p);
      } else if * {
        r := Unsupported;
      } else {
        r := Error;
      }
      faulted := faulted || r.Error?;
    }

    /** The next hole after data. */
    method SeekHole(start: int) returns (r: Call<int>)
      requires Valid() && 0 <= start < |src.bytes|
      modifies this`faulted
      ensures r.Done? ==> start < r.value <= |src.bytes|
      ensures faulted == (old(faulted) || r.Error?)
    {
      if * {
        var p := start + 1;
        while p < |src.bytes| && src.data[p]
          invariant start < p <= |src.bytes|
        {
          p := p + 1;
        }
        r := Done(p);
      } else if * {
        r := Unsupported;
      } else {
        r := Error;
      }
      faulted := faulted || r.Error?;
    }

    /** `copy_file_range`: some number of bytes, possibly none. */
    method CopyFileRange(count: int, start: int, ghost was: seq<byte>, ghost from: int) returns (r: Call<int>)
      requires InRange() && so <= from <= start && 0 < count && start + count <= so + length
      requires |was| == dst.Length && Has(was, from, start)
      modifies dst, this`faulted
      ensures r.Done? ==> 0 <= r.value <= count && Has(was, from, start + r.value)
      ensures !r.Done? ==> Has(was, from, start)
      ensures faulted == (old(faulted) || r.Error? || (r.Done? && r.value == 0))
    {
      if * {
        var n: nat :| n <= count;
        var target := do + start - so;
        forall k | target <= k < target + n {
          dst[k] := src.bytes[so + (k - do)];
        }
        r := Done(n);
      } else if * {
        r := Unsupported;
      } else {
        r := Error;
      }
      faulted := faulted || r.Error? || (r.Done? && r.value == 0);
    }

    /** `pread` and `pwrite` with any short count. */
    method PRead(count: int, start: int) returns (r: Call<seq<byte>>)
      requires Valid() && 0 <= start && 0 < count && start + count <= |src.bytes|
      modifies this`faulted
      ensures r.Done? ==> |r.value| <= count && r.value == src.bytes[start..start + |r.value|]
      ensures faulted == (old(faulted) || !r.Done? || r.value == [])
    {
      if * {
        var n: nat :| n <= count;
        r := Done(src.bytes[start..start + n]);
      } else {
        r := Error;
      }
      faulted := faulted || !r.Done? || r.value == [];
    }

    method PWrite(bytes: seq<byte>, target: int) returns (r: Call<int>)
      requires 0 <= target && target + |bytes| <= dst.Length
      modifies dst, this`faulted
      ensures r.Done? ==> 0 <= r.value <= |bytes|
      ensures forall k :: 0 <= k < dst.Length ==>
        dst[k] == if r.Done? && target <= k < target + r.value then bytes[k - target] else old(dst[k])
      ensures faulted == (old(faulted) || !r.Done? || r.value == 0)
    {
      if * {
        var n: nat :| n <= |bytes|;
        forall k | target <= k < target + n {
          dst[k] := bytes[k - target];
        }
        r := Done(n);
      } else {
        r := Error;
      }
      faulted := faulted || !r.Done? || r.value == 0;
    }

    // ----- The copy

    /** Writes one chunk that has been read, in as many steps as it takes. */
    method WriteChunk(chunk: seq<byte>, start: int, ghost was: seq<byte>, ghost from: int) returns (o: Outcome)
      requires InRange() && so <= from <= start && start + |chunk| <= so + length
      requires chunk == src.bytes[start..start + |chunk|]
      requires |was| == dst.Length && Has(was, from, start)
      requires !faulted
      modifies dst, this`faulted
      ensures o == Copied ==> Has(was, from, start + |chunk|)
      ensures o == Raised ==> exists to :: start <= to <= so + length && Has(was, from, to)
      ensures o == Raised <==> faulted
    {
      var written := 0;
      while written < |chunk|
        invariant 0 <= written <= |chunk|
        invariant Has(was, from, start + written) && !faulted
        decreases |chunk| - written
      {
        var step := PWrite(chunk[written..], do + start - so + written);
        if !step.Done? || step.value <= 0 {
          assert Has(was, from, start + written);
          return Raised;
        }
        written := written + step.value;
      }
      return Copied;
    }

    /** Copies source positions `from` to `stop`; `kernel` may be switched off on the way. */
    method CopyExtent(from: int, stop: int, kernel: bool, ghost was: seq<byte>) returns (o: Outcome, kernel': bool)
      requires InRange() && so <= from <= stop <= so + length
      requires was == dst[..]
      requires !faulted
      modifies dst, this`faulted
      ensures o == Copied ==> Has(was, from, stop)
      ensures o == Raised ==> exists mid :: from <= mid <= so + length && Has(was, from, mid)
      ensures o == Raised <==> faulted
    {
      var start := from;
      o, kernel' := Copied, kernel;
      while start < stop
        invariant from <= start <= stop && Has(was, from, start) && o == Copied && !faulted
        decreases stop - start
      {
        var count := Min(CHUNK, stop - start);
        if kernel' {
          var copied := CopyFileRange(count, start, was, from);
          if copied.Error? || (copied.Done? && copied.value <= 0) {
            assert Has(was, from, start);
            return Raised, kernel';
          }
          if copied.Done? {
            start := start + copied.value;
            continue;
          }
          kernel' := false;
        }
        var chunk := PRead(count, start);
        if !chunk.Done? || chunk.value == [] {
          assert Has(was, from, start);
          return Raised, kernel';
        }
        o := WriteChunk(chunk.value, start, was, from);
        if o == Raised {
          return;
        }
        start := start + |chunk.value|;
      }
    }

    /** The destination holds the source up to `to`; from there on it is zero if `cleared`, else as in `was`. */
    ghost predicate Progress(was: seq<byte>, cleared: bool, to: int)
      reads dst
      requires InRange() && so <= to <= so + length && |was| == dst.Length
    {
      forall k :: 0 <= k < dst.Length ==>
        dst[k] == if so <= so + (k - do) < to then src.bytes[so + (k - do)]
                  else if cleared && do <= k < do + length then 0
                  else was[k]
    }

    /** Bytes outside the range are those of `was`. */
    ghost predicate OutsideKept(was: seq<byte>)
      reads dst
      requires |was| == dst.Length
    {
      forall k :: 0 <= k < dst.Length && !(do <= k < do + length) ==> dst[k] == was[k]
    }

    /** Copies the extents reported for a cleared range; holes keep the zeros. */
    method CopySparse(kernel: bool, ghost was: seq<byte>) returns (o: Outcome)
      requires InRange() && |was| == dst.Length && Progress(was, true, so)
      requires !faulted
      modifies dst, this`faulted
      ensures o == Copied ==> Has(was, so, so + length)
      ensures OutsideKept(was)
      ensures o == Raised <==> faulted
    {
      var end := so + length;
      var start, kernel' := so, kernel;
      while start < end
        invariant so <= start <= end && Progress(was, true, start) && !faulted
        decreases end - start
      {
        var next := SeekData(start);
        if next.Error? {
          return Raised;
        }
        if next.Unsupported? {
          ghost var before := dst[..];
          o, kernel' := CopyExtent(start, end, kernel', before);
          return;
        }
        if next.value >= end {
          return Copied;
        }
        var hole := SeekHole(next.value);
        if hole.Error? {
          return Raised;
        }
        var stop := if hole.Done? then Min(hole.value, end) else end;
        ghost var before := dst[..];
        o, kernel' := CopyExtent(next.value, stop, kernel', before);
        if o == Raised {
          return;
        }
        start := stop;
      }
      return Copied;
    }

    /**
     Whatever the kernel supports and however short its positive counts, an allowed
     copy returns and has replaced exactly the range, byte for byte, unless a system
     call failed for good or made no progress; nothing outside the range is touched.
     */
    method CopyImageRange(kernel: bool) returns (o: Outcome)
      requires Valid()
      modifies dst, this`faulted
      ensures OutsideKept(old(dst[..]))
      ensures o == Copied <==> Allowed() && !faulted
      ensures o == Copied ==> dst[do..do + length] == src.bytes[so..so + length]
    {
      faulted := false;
      if so < 0 || do < 0 || length < 0 {
        return Raised;
      }
      if sameFile || so + length > |src.bytes| || do + length > dst.Length {
        return Raised;
      }
      if length == 0 {
        return Copied;
      }
      ghost var was := dst[..];
      var link := Reflink();
      if link.Error? {
        return Raised;
      }
      if link.Unsupported? {
        var cleared := ClearRange();
        if cleared.Error? {
          return Raised;
        }
        if cleared.Done? {
          o := CopySparse(kernel, was);
        } else {
          assert dst[..] == was;
          var kernel';
          o, kernel' := CopyExtent(so, so + length, kernel, was);
        }
        if o == Raised {
          return;
        }
      }
      assert Has(was, so, so + length);
      return Copied;
    }
  }
}
