/**
 The streaming reader of `minimp3_ex.h` in memory-buffer mode.  Decoding one frame
 is an abstract deterministic step; the reader buffers its samples, skips the
 encoder delay, cuts the padding and hands out samples in chunks of any size.
 */
module Mp3Reader {
  import opened Common
  import opened Bits

  const INT_MAX := 0x7fff_ffff

  datatype FrameInfo = FrameInfo(hz: nat, layer: nat, channels: nat)

  const NO_INFO := FrameInfo(0, 0, 0)

  /** What decoding one frame yields: interleaved samples, and no `info` when no frame was found. */
  datatype Step<S, T> = Step(state: S, pcm: seq<T>, info: Option<FrameInfo>, frameBytes: nat)

  /** The decoder advances, and reports no frame only when there is none in the whole input. */
  ghost predicate StepOk<S, T>(step: Step<S, T>, chunk: seq<byte>) {
    1 <= step.frameBytes <= |chunk|
    && (step.info.None? ==> step.frameBytes == |chunk| && step.pcm == [])
  }

  /** The parts of an open stream that do not change. */
  datatype Stream<!S(!new), !T> = Stream(
    file: seq<byte>, end: nat, info: FrameInfo, detected: nat,
    decode: (S, seq<byte>) -> Step<S, T>,
    frameSamples: (seq<byte>, nat) -> nat)  // samples of the frame whose header comes first, over all channels
  {
    ghost predicate Valid() {
      end <= |file| && forall s, chunk :: |chunk| > 0 ==> StepOk(decode(s, chunk), chunk)
    }

    function Chunk(offset: nat): seq<byte>
      requires offset <= end <= |file|
    {
      file[offset..if end - offset > INT_MAX then offset + INT_MAX else end]
    }
  }

  /** The reader's fields; `buffer` holds the samples of the frame decoded last. */
  datatype Fields<S, T> = Fields(mp3d: S, offset: nat, buffer: seq<T>, consumed: nat, toSkip: nat, cur: nat, failed: bool)

  /** Samples still to come from frames that are not decoded yet. */
  ghost function FromFrames<S(!new), T>(c: Stream<S, T>, mp3d: S, offset: nat, toSkip: nat, fi: FrameInfo): seq<T>
    requires c.Valid() && offset <= c.end
    decreases c.end - offset
  {
    if offset == c.end then []
    else
      var chunk := c.Chunk(offset);
      var step := c.decode(mp3d, chunk);
      assert StepOk(step, chunk);
      var fi' := if step.info.Some? then step.info.value else fi;
      var next := offset + step.frameBytes;
      if c.info.hz != fi'.hz || c.info.layer != fi'.layer then []
      else if step.pcm == [] then
        FromFrames(c, step.state, next, toSkip - Min(c.frameSamples(chunk, fi'.channels), toSkip), fi')
      else
        var skip := Min(|step.pcm|, toSkip);
        if skip != |step.pcm| && c.info.channels != fi'.channels then []
        else step.pcm[skip..] + FromFrames(c, step.state, next, toSkip - skip, fi')
  }

  ghost predicate ValidFields<S(!new), T>(c: Stream<S, T>, f: Fields<S, T>) {
    c.Valid() && f.offset <= c.end && f.consumed <= |f.buffer| && (c.detected != 0 ==> f.cur <= c.detected)
  }

  /** Everything the reader will still deliver, given the frame info seen last. */
  ghost function Rest<S(!new), T>(c: Stream<S, T>, f: Fields<S, T>, fi: FrameInfo): seq<T>
    requires ValidFields(c, f)
  {
    if f.failed then []
    else
      var all := f.buffer[f.consumed..] + FromFrames(c, f.mp3d, f.offset, f.toSkip, fi);
      if c.detected != 0 then all[..Min(c.detected - f.cur, |all|)] else all
  }

  datatype Refilled<S, T> = Refilled(fields: Fields<S, T>, fi: FrameInfo)

  /** The fields after decoding one more frame. */
  function Refill1<S(!new), T>(c: Stream<S, T>, f: Fields<S, T>, fi: FrameInfo): Refilled<S, T>
    requires f.offset < c.end <= |c.file|
  {
    var chunk := c.Chunk(f.offset);
    var step := c.decode(f.mp3d, chunk);
    var fi' := if step.info.Some? then step.info.value else fi;
    var g := f.(mp3d := step.state, buffer := [], consumed := 0);
    if c.info.hz != fi'.hz || c.info.layer != fi'.layer then
      Refilled(g.(failed := true), fi')
    else if step.pcm == [] then
      Refilled(g.(toSkip := f.toSkip - Min(c.frameSamples(chunk, fi'.channels), f.toSkip),
                  offset := f.offset + step.frameBytes), fi')
    else
      var skip := Min(|step.pcm|, f.toSkip);
      var h := g.(buffer := step.pcm, consumed := skip, toSkip := f.toSkip - skip);
      if skip != |step.pcm| && c.info.channels != fi'.channels then Refilled(h.(failed := true), fi')
      else Refilled(h.(offset := f.offset + step.frameBytes), fi')
  }

  /** What the frames still deliver is what the next one adds to the buffer and what comes after it. */
  lemma FramesUnfold<S(!new), T>(c: Stream<S, T>, f: Fields<S, T>, fi: FrameInfo)
    requires c.Valid() && f.offset < c.end && !f.failed
    ensures var r := Refill1(c, f, fi); var g := r.fields;
      && g.consumed <= |g.buffer| && g.cur == f.cur && f.offset <= g.offset <= c.end && (!g.failed ==> g.offset > f.offset)
      && FromFrames(c, f.mp3d, f.offset, f.toSkip, fi)
         == if g.failed then [] else g.buffer[g.consumed..] + FromFrames(c, g.mp3d, g.offset, g.toSkip, r.fi)
  {
    var chunk := c.Chunk(f.offset);
    var step := c.decode(f.mp3d, chunk);
    assert StepOk(step, chunk);
    var r := Refill1(c, f, fi);
    if step.pcm == [] && !r.fields.failed {
      NothingBefore(r.fields.buffer, FromFrames(c, r.fields.mp3d, r.fields.offset, r.fields.toSkip, r.fi));
    }
  }

  lemma NothingBefore<T>(buffer: seq<T>, s: seq<T>)
    ensures buffer[|buffer|..] + s == s
  {
  }

  /** Decoding ahead changes nothing about what will be delivered. */
  lemma RefillKeepsRest<S(!new), T>(c: Stream<S, T>, f: Fields<S, T>, fi: FrameInfo)
    requires ValidFields(c, f) && !f.failed && f.consumed == |f.buffer| && f.offset < c.end
    ensures var r := Refill1(c, f, fi);
      && ValidFields(c, r.fields) && Rest(c, r.fields, r.fi) == Rest(c, f, fi)
      && r.fields.cur == f.cur
      && r.fields.offset >= f.offset && (!r.fields.failed ==> r.fields.offset > f.offset)
  {
    FramesUnfold(c, f, fi);
    NothingBefore(f.buffer, FromFrames(c, f.mp3d, f.offset, f.toSkip, fi));
  }

  /** Within reach of one `int`-sized input the frame info carried over does not matter. */
  lemma FramesIgnoreInfo<S(!new), T>(c: Stream<S, T>, mp3d: S, offset: nat, toSkip: nat, fi: FrameInfo, other: FrameInfo)
    requires c.Valid() && offset <= c.end && c.end - offset <= INT_MAX
    ensures FromFrames(c, mp3d, offset, toSkip, fi) == FromFrames(c, mp3d, offset, toSkip, other)
  {
    if offset < c.end {
      var chunk := c.Chunk(offset);
      assert StepOk(c.decode(mp3d, chunk), chunk);
    }
  }

  lemma RestIgnoresInfo<S(!new), T>(c: Stream<S, T>, f: Fields<S, T>, fi: FrameInfo)
    requires ValidFields(c, f) && (fi == NO_INFO || f.failed || c.end - f.offset <= INT_MAX)
    ensures Rest(c, f, fi) == Rest(c, f, NO_INFO)
  {
    if fi != NO_INFO && !f.failed {
      FramesIgnoreInfo(c, f.mp3d, f.offset, f.toSkip, fi, NO_INFO);
    }
  }

  /** What is left of the stream is short enough for chunks not to matter. */
  predicate Settled<S(!new), T>(c: Stream<S, T>, f: Fields<S, T>) {
    f.failed || c.end - f.offset <= INT_MAX + 1
  }

  class Reader<S(!new), T> {
    const c: Stream<S, T>
    var mp3d: S
    var offset: nat
    var buffer: seq<T>
    var consumed: nat
    var toSkip: nat
    var cur: nat
    var failed: bool

    ghost function State(): Fields<S, T>
      reads this
    {
      Fields(mp3d, offset, buffer, consumed, toSkip, cur, failed)
    }

    ghost predicate Valid()
      reads this
    {
      ValidFields(c, State())
    }

    ghost function Left(fi: FrameInfo): seq<T>
      reads this
      requires Valid()
    {
      Rest(c, State(), fi)
    }

    constructor (stream: Stream<S, T>, start: S, from: nat, skip: nat)
      requires stream.Valid() && from <= stream.end
      ensures c == stream && State() == Fields(start, from, [], 0, skip, 0, false) && Valid()
    {
      c, mp3d, offset, buffer, consumed, toSkip, cur, failed := stream, start, from, [], 0, skip, 0, false;
    }

    /** Decodes the next frame into the empty buffer. */
    method Refill(fi: FrameInfo) returns (fi': FrameInfo)
      requires Valid() && !failed && consumed == |buffer| && offset < c.end
      modifies this`mp3d, this`offset, this`buffer, this`consumed, this`toSkip, this`failed
      ensures Refilled(State(), fi') == Refill1(c, old(State()), fi)
    {
      var chunk := c.Chunk(offset);
      var step := c.decode(mp3d, chunk);
      assert StepOk(step, chunk);
      mp3d := step.state;
      fi' := if step.info.Some? then step.info.value else fi;
      buffer, consumed := [], 0;
      if c.info.hz != fi'.hz || c.info.layer != fi'.layer {
        failed := true;
        return;
      }
      if step.pcm != [] {
        buffer := step.pcm;
        if toSkip > 0 {
          var skip := Min(|buffer|, toSkip);
          consumed, toSkip := skip, toSkip - skip;
        }
        if consumed != |buffer| && c.info.channels != fi'.channels {
          failed := true;
          return;
        }
      } else if toSkip > 0 {
        toSkip := toSkip - Min(c.frameSamples(chunk, fi'.channels), toSkip);
      }
      offset := offset + step.frameBytes;
    }

    /** Decodes frames until there are samples in the buffer, the stream ends or an error occurs. */
    method Fill(fi: FrameInfo) returns (fi': FrameInfo, more: bool)
      requires Valid() && !failed
      modifies this
      ensures Valid() && cur == old(cur) && offset >= old(offset)
      ensures Left(fi') == old(Left(fi))
      ensures more ==> !failed && consumed < |buffer|
      ensures !more ==> failed || (offset == c.end && consumed == |buffer|)
      ensures offset == old(offset) && !failed ==> fi' == fi
    {
      fi' := fi;
      while consumed == |buffer|
        invariant Valid() && !failed && cur == old(cur) && offset >= old(offset)
        invariant Left(fi') == old(Left(fi))
        invariant offset == old(offset) ==> fi' == fi
        decreases c.end - offset
      {
        if offset == c.end {
          return fi', false;
        }
        RefillKeepsRest(c, State(), fi');
        fi' := Refill(fi');
        if failed {
          return fi', false;
        }
      }
      more := true;
    }

    /** `mp3dec_ex_read_frame`: samples of at most one frame. */
    method ReadFrame(fi: FrameInfo, max: nat) returns (out: seq<T>, fi': FrameInfo)
      requires Valid()
      modifies this
      ensures Valid() && |out| <= max && |out| <= |old(Left(fi))|
      ensures out == old(Left(fi))[..|out|] && Left(fi') == old(Left(fi))[|out|..]
      ensures out == [] && max > 0 ==> forall any :: Left(any) == []
      ensures cur == old(cur) + |out| && offset >= old(offset) && (old(failed) ==> failed)
      ensures old(Settled(c, State())) ==> Settled(c, State()) && (fi' == fi || failed || c.end - offset <= INT_MAX)
    {
      fi' := fi;
      out := [];
      if (c.detected != 0 && cur >= c.detected) || failed {
        return;
      }
      var more;
      fi', more := Fill(fi);
      if !more {
        return;
      }
      out := HandOut(fi', max);
    }

    /** Samples from the buffer. */
    method HandOut(ghost fi: FrameInfo, max: nat) returns (out: seq<T>)
      requires Valid() && !failed && consumed < |buffer| && (c.detected != 0 ==> cur < c.detected)
      modifies this`cur, this`consumed
      ensures Valid() && |out| <= max && |out| <= |old(Left(fi))|
      ensures out == old(Left(fi))[..|out|] && Left(fi) == old(Left(fi))[|out|..]
      ensures cur == old(cur) + |out| && (max > 0 ==> out != [])
    {
      var n := Min(|buffer| - consumed, max);
      if c.detected != 0 && cur + n >= c.detected {
        n := c.detected - cur;
      }
      Deliver(c, State(), fi, n);
      out := buffer[consumed..consumed + n];
      cur := cur + n;
      consumed := consumed + n;
    }

    /** `mp3dec_ex_read`: as many of the requested samples as there are. */
    method Read(n: nat) returns (out: seq<T>)
      requires Valid()
      modifies this
      ensures Valid()
      ensures var left := old(Left(NO_INFO)); var k := Min(n, |left|);
        out == left[..k] && (old(Settled(c, State())) ==> Settled(c, State()) && Left(NO_INFO) == left[k..])
      ensures cur == old(cur) + |out|
    {
      ghost var left, settled := Left(NO_INFO), Settled(c, State());
      var fi := NO_INFO;
      out := [];
      while |out| < n
        invariant Valid() && |out| <= n && |out| <= |left| && out == left[..|out|]
        invariant Left(fi) == left[|out|..] && cur == old(cur) + |out|
        invariant settled ==> Settled(c, State()) && (fi == NO_INFO || failed || c.end - offset <= INT_MAX)
        decreases n - |out|
      {
        ghost var rest := Left(fi);
        var part;
        part, fi := ReadFrame(fi, n - |out|);
        Accumulate(left, out, rest, part);
        if part == [] {
          break;
        }
        out := out + part;
      }
      if settled {
        RestIgnoresInfo(c, State(), fi);
      }
    }

    /**
     Reading `n` and then `m` samples delivers what one read of `n + m` would, as long
     as at most `INT_MAX + 1` bytes of the stream are left.
     */
    method ReadInTwo(n: nat, m: nat) returns (first: seq<T>, second: seq<T>)
      requires Valid()
      modifies this
      ensures Valid()
      ensures var left := old(Left(NO_INFO)); var k := Min(n + m, |left|);
        old(Settled(c, State())) ==> first + second == left[..k] && Left(NO_INFO) == left[k..]
      ensures c.detected != 0 ==> cur <= c.detected
    {
      ghost var left := Left(NO_INFO);
      first := Read(n);
      second := Read(m);
      SplitPrefix(left, n, m);
    }
  }

  lemma Accumulate<T>(all: seq<T>, out: seq<T>, rest: seq<T>, part: seq<T>)
    requires out <= all && rest == all[|out|..] && part <= rest
    ensures out + part <= all && rest[|part|..] == all[|out + part|..]
  {
  }

  lemma SplitPrefix<T>(s: seq<T>, n: nat, m: nat)
    ensures var k := Min(n, |s|); var t := s[k..]; var j := Min(m, |t|);
      s[..k] + t[..j] == s[..Min(n + m, |s|)] && t[j..] == s[Min(n + m, |s|)..]
  {
  }

  /** Handing out `n` samples of the buffer. */
  lemma Deliver<S(!new), T>(c: Stream<S, T>, f: Fields<S, T>, fi: FrameInfo, n: nat)
    requires ValidFields(c, f) && !f.failed && f.consumed + n <= |f.buffer|
    requires c.detected != 0 ==> f.cur + n <= c.detected
    ensures var rest := Rest(c, f, fi);
      && n <= |rest| && rest[..n] == f.buffer[f.consumed..f.consumed + n]
      && Rest(c, f.(cur := f.cur + n, consumed := f.consumed + n), fi) == rest[n..]
  {
    var frames := FromFrames(c, f.mp3d, f.offset, f.toSkip, fi);
    var here := f.buffer[f.consumed..];
    assert here[..n] == f.buffer[f.consumed..f.consumed + n] && here[n..] == f.buffer[f.consumed + n..];
    Drop(here, frames, n, if c.detected != 0 then Min(c.detected - f.cur, |here + frames|) else |here + frames|);
  }

  /** Taking `n` elements off the first part, when only the first `k` are ever taken. */
  lemma Drop<T>(a: seq<T>, b: seq<T>, n: nat, k: nat)
    requires n <= |a| && n <= k <= |a + b|
    ensures var all := (a + b)[..k];
      all[..n] == a[..n] && all[n..] == (a[n..] + b)[..k - n] && (k == |a + b| ==> all == a + b && all[n..] == a[n..] + b)
  {
  }

  // ----- Streams beyond the reach of one `int`

  /** A decoder that finds a frame at once, then nothing in its whole input, then one more frame. */
  function Sparse(n: nat, chunk: seq<byte>): Step<nat, nat> {
    if n == 0 then Step(1, [0], Some(FrameInfo(44100, 3, 1)), 1)
    else if n == 2 then Step(3, [2], Some(FrameInfo(44100, 3, 1)), |chunk|)
    else Step(n + 1, [], None, |chunk|)
  }

  function SparseStream(file: seq<byte>): (c: Stream<nat, nat>)
    ensures c.Valid() && c.file == file && c.end == |file|
  {
    var c := Stream(file, |file|, FrameInfo(44100, 3, 1), 0, Sparse, (_, channels) => 1152 * channels);
    assert forall s, chunk: seq<byte> :: |chunk| > 0 ==> StepOk(c.decode(s, chunk), chunk);
    c
  }

  lemma {:induction false} SparseTail(file: seq<byte>, n: nat, offset: nat, fi: FrameInfo)
    requires n >= 3 && offset <= |file|
    ensures FromFrames(SparseStream(file), n, offset, 0, fi) == []
    decreases |file| - offset
  {
    var c := SparseStream(file);
    if offset < c.end {
      assert c.decode(n, c.Chunk(offset)) == Sparse(n, c.Chunk(offset));
      SparseTail(file, n + 1, offset + |c.Chunk(offset)|, fi);
    }
  }

  /**
   The limit in `Settled` cannot be raised.  On any longer stream there is a
   decoder such that one read delivers two samples, while a read of one sample
   followed by another read delivers only one: the second read starts without
   the frame info of the first and takes an input without frames for a change of
   format.
   */
  lemma {:induction false} LongStreamsDependOnChunks(file: seq<byte>)
    requires |file| > INT_MAX + 1
    ensures var c := SparseStream(file); var f := Fields(0, 0, [], 0, 0, 0, false);
      var r := Refill1(c, f, NO_INFO); var g := r.fields.(consumed := 1, cur := 1);
      && Rest(c, f, NO_INFO) == [0, 2]
      && r.fields.buffer == [0]
      && ValidFields(c, g) && Rest(c, g, r.fi) == [2] && Rest(c, g, NO_INFO) == []
  {
    var c := SparseStream(file);
    var fi := FrameInfo(44100, 3, 1);
    var third := c.Chunk(INT_MAX + 1);
    assert c.decode(0, c.Chunk(0)) == Sparse(0, c.Chunk(0));
    assert c.decode(1, c.Chunk(1)) == Sparse(1, c.Chunk(1)) && |c.Chunk(1)| == INT_MAX;
    assert c.decode(2, third) == Sparse(2, third);
    SparseTail(file, 3, INT_MAX + 1 + |third|, fi);
    var last := FromFrames(c, 2, INT_MAX + 1, 0, fi);
    assert last == [2];
    assert FromFrames(c, 1, 1, 0, fi) == last;
    assert FromFrames(c, 1, 1, 0, NO_INFO) == [];
    assert FromFrames(c, 0, 0, 0, NO_INFO) == [0] + last;
  }
}
