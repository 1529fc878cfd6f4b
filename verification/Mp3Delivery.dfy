/**
 What the streaming reader delivers of a file that is made of frames: the samples of the
 frames in the order of the file, without the first `toSkip`, cut at the detected length.
 */
module Mp3Delivery {
  import opened Common
  import opened Mp3Reader

  function Joined<T>(parts: seq<seq<T>>): seq<T> { if parts == [] then [] else parts[0] + Joined(parts[1..]) }

  // ----- Only the bytes from the offset on matter

  /** Reading from `offset` is reading the file without its first `at` bytes from `offset - at`. */
  lemma {:induction false} FileShifts<S(!new), T>(c: Stream<S, T>, d: Stream<S, T>, at: nat, s: S, offset: nat, there: nat,
                                                  toSkip: nat, fi: FrameInfo)
    requires c.Valid() && at <= offset <= c.end && d == c.(file := c.file[at..c.end], end := c.end - at) && there == offset - at
    ensures d.Valid() && FromFrames(c, s, offset, toSkip, fi) == FromFrames(d, s, there, toSkip, fi)
    decreases c.end - offset
  {
    if offset < c.end {
      ChunkShifts(c, d, at, offset, there);
      var chunk := c.Chunk(offset);
      var step := c.decode(s, chunk);
      assert StepOk(step, chunk);
      var fi' := if step.info.Some? then step.info.value else fi;
      var next, next' := offset + step.frameBytes, there + step.frameBytes;
      if step.pcm == [] {
        var skip := Min(c.frameSamples(chunk, fi'.channels), toSkip);
        FileShifts(c, d, at, step.state, next, next', toSkip - skip, fi');
      } else {
        FileShifts(c, d, at, step.state, next, next', toSkip - Min(|step.pcm|, toSkip), fi');
      }
    }
  }

  lemma ChunkShifts<S(!new), T>(c: Stream<S, T>, d: Stream<S, T>, at: nat, offset: nat, there: nat)
    requires c.end <= |c.file| && at <= offset <= c.end && d == c.(file := c.file[at..c.end], end := c.end - at)
    requires there == offset - at
    ensures c.Chunk(offset) == d.Chunk(there)
  {
  }

  // ----- Frames one after the other

  /** A sample that a frame stands for, or none where it cannot be decoded. */
  function Somes<T>(s: seq<Option<T>>): seq<T> {
    if s == [] then [] else (if s[0].Some? then [s[0].value] else []) + Somes(s[1..])
  }

  lemma {:induction false} SomesJoin<T>(a: seq<Option<T>>, b: seq<Option<T>>)
    ensures Somes(a + b) == Somes(a) + Somes(b)
    decreases |a|
  {
    if a == [] {
      assert a + b == b;
    } else {
      assert (a + b)[0] == a[0] && (a + b)[1..] == a[1..] + b;
      SomesJoin(a[1..], b);
    }
  }

  predicate AllSome<T>(s: seq<Option<T>>) { forall i :: 0 <= i < |s| ==> s[i].Some? }

  predicate AllNone<T>(s: seq<Option<T>>) { forall i :: 0 <= i < |s| ==> s[i].None? }

  lemma {:induction false} SomesOfAll<T>(s: seq<Option<T>>, k: nat)
    requires AllSome(s) && k <= |s|
    ensures |Somes(s)| == |s| && Somes(s)[k..] == Somes(s[k..])
    decreases |s|
  {
    if k > 0 {
      SomesOfAll(s[1..], k - 1);
      assert s[1..][k - 1..] == s[k..];
      assert Somes(s)[k..] == Somes(s[1..])[k - 1..];
    } else if s != [] {
      SomesOfAll(s[1..], 0);
      assert s[0..] == s;
    } else {
      assert s[0..] == s;
    }
  }

  lemma {:induction false} SomesOfNone<T>(s: seq<Option<T>>, k: nat)
    requires AllNone(s) && k <= |s|
    ensures Somes(s[k..]) == [] && Somes(s) == []
    decreases |s| - k
  {
    if k < |s| {
      SomesOfNone(s, k + 1);
      assert s[k..][1..] == s[k + 1..];
    }
    NoSomes(s);
  }

  lemma {:induction false} NoSomes<T>(s: seq<Option<T>>)
    requires AllNone(s)
    ensures Somes(s) == []
  {
    if s != [] { NoSomes(s[1..]); }
  }

  /**
   Frame `frame`, followed by anything, takes the decoder from `s` to `s'` and stands for the
   samples `out` in the format of the stream: all of them, or none of its nominal number
   when it cannot be decoded from here.
   */
  ghost predicate Decodes<S(!new), T>(c: Stream<S, T>, s: S, frame: seq<byte>, out: seq<Option<T>>, s': S) {
    && 1 <= |frame| <= INT_MAX && ((AllSome(out) && out != []) || AllNone(out))
    && forall rest: seq<byte> {:trigger c.decode(s, frame + rest)} ::
         && c.decode(s, frame + rest) == Step(s', Somes(out), Some(c.info), |frame|)
         && (AllNone(out) ==> c.frameSamples(frame + rest, c.info.channels) == |out|)
  }

  ghost predicate AllDecode<S(!new), T>(c: Stream<S, T>, frames: seq<seq<byte>>, outs: seq<seq<Option<T>>>, states: seq<S>) {
    |outs| == |frames| && |states| == |frames| + 1
    && forall i :: 0 <= i < |frames| ==> Decodes(c, states[i], frames[i], outs[i], states[i + 1])
  }

  /** What is left of the samples when the first `toSkip` are skipped. */
  function Kept<T>(all: seq<Option<T>>, toSkip: nat): seq<T> { Somes(all[Min(toSkip, |all|)..]) }

  /** One frame at the front of what is left of the file. */
  lemma {:induction false} FrameDelivers<S(!new), T>(c: Stream<S, T>, s: S, frame: seq<byte>, out: seq<Option<T>>, s': S,
                                                     offset: nat, next: nat, toSkip: nat, left: nat, fi: FrameInfo)
    requires left == toSkip - Min(toSkip, |out|)
    requires c.Valid() && Decodes(c, s, frame, out, s') && next == offset + |frame| <= c.end && c.file[offset..next] == frame
    ensures FromFrames(c, s, offset, toSkip, fi)
         == Kept(out, toSkip) + FromFrames(c, s', next, left, c.info)
  {
    var chunk := c.Chunk(offset);
    var rest := chunk[|frame|..];
    ChunkStarts(c, offset, next, frame);
    var step := c.decode(s, frame + rest);
    if out == [] || AllNone(out) {
      SomesOfNone(out, Min(toSkip, |out|));
    } else {
      SomesOfAll(out, Min(toSkip, |out|));
    }
  }

  lemma ChunkStarts<S(!new), T>(c: Stream<S, T>, offset: nat, next: nat, frame: seq<byte>)
    requires offset <= next <= c.end <= |c.file| && c.file[offset..next] == frame && |frame| <= INT_MAX
    ensures |frame| <= |c.Chunk(offset)| && c.Chunk(offset) == frame + c.Chunk(offset)[|frame|..]
  {
    var chunk := c.Chunk(offset);
    assert chunk[..|frame|] == frame;
  }

  /** Skipping in two parts one after the other. */
  lemma {:induction false} KeptJoin<T>(a: seq<Option<T>>, b: seq<Option<T>>, k: nat, left: nat)
    requires left == k - Min(k, |a|)
    ensures Kept(a + b, k) == Kept(a, k) + Kept(b, left)
  {
    if k <= |a| {
      assert (a + b)[k..] == a[k..] + b;
      assert b[0..] == b;
      SomesJoin(a[k..], b);
    } else {
      var j := Min(k - |a|, |b|);
      assert (a + b)[Min(k, |a + b|)..] == b[j..];
      assert a[|a|..] == [];
    }
  }

  /**
   Frames that come next in the file deliver their samples in order, without the first
   `toSkip`, and reading goes on behind them with what is left to skip.
   */
  lemma {:induction false} FramesDeliver<S(!new), T>(c: Stream<S, T>, frames: seq<seq<byte>>, outs: seq<seq<Option<T>>>,
                                                     states: seq<S>, offset: nat, next: nat, toSkip: nat, left: nat,
                                                     fi: FrameInfo)
    requires c.Valid() && AllDecode(c, frames, outs, states) && left == toSkip - Min(toSkip, |Joined(outs)|)
    requires next == offset + |Joined(frames)| <= c.end && c.file[offset..next] == Joined(frames)
    ensures FromFrames(c, states[0], offset, toSkip, fi)
         == Kept(Joined(outs), toSkip)
            + FromFrames(c, states[|frames|], next, left, if frames == [] then fi else c.info)
    decreases |frames|
  {
    if frames != [] {
      var mid, skip := offset + |frames[0]|, toSkip - Min(toSkip, |outs[0]|);
      FirstFrame(c.file, frames, offset, mid, next);
      assert Decodes(c, states[0], frames[0], outs[0], states[0 + 1]);
      FrameDelivers(c, states[0], frames[0], outs[0], states[1], offset, mid, toSkip, skip, fi);
      AllDecodeTail(c, frames, outs, states);
      FramesDeliver(c, frames[1..], outs[1..], states[1..], mid, next, skip, left, c.info);
      KeptJoin(outs[0], Joined(outs[1..]), toSkip, skip);
      Assoc(Kept(outs[0], toSkip), Kept(Joined(outs[1..]), skip), FromFrames(c, states[|frames|], next, left, c.info));
    }
  }

  lemma Assoc<T>(a: seq<T>, b: seq<T>, c: seq<T>)
    ensures a + (b + c) == a + b + c
  {
  }

  lemma FirstFrame(file: seq<byte>, frames: seq<seq<byte>>, offset: nat, mid: nat, next: nat)
    requires frames != [] && mid == offset + |frames[0]| && next == offset + |Joined(frames)| <= |file|
    requires file[offset..next] == Joined(frames)
    ensures next == mid + |Joined(frames[1..])| && file[offset..mid] == frames[0] && file[mid..next] == Joined(frames[1..])
  {
    var all := Joined(frames);
    assert all[..|frames[0]|] == frames[0] && all[|frames[0]|..] == Joined(frames[1..]);
    assert file[offset..next][..|frames[0]|] == file[offset..mid] && file[offset..next][|frames[0]|..] == file[mid..next];
  }

  lemma AllDecodeTail<S(!new), T>(c: Stream<S, T>, frames: seq<seq<byte>>, outs: seq<seq<Option<T>>>, states: seq<S>)
    requires AllDecode(c, frames, outs, states) && frames != []
    ensures AllDecode(c, frames[1..], outs[1..], states[1..])
  {
    forall i | 0 <= i < |frames| - 1
      ensures Decodes(c, states[1..][i], frames[1..][i], outs[1..][i], states[1..][i + 1])
    {
      assert Decodes(c, states[i + 1], frames[i + 1], outs[i + 1], states[i + 1 + 1]);
    }
  }

  /**
   A reader opened at the start of a file of frames will deliver exactly their samples,
   without the first `skip`, cut at the detected length.
   */
  lemma {:induction false} FileDelivers<S(!new), T>(c: Stream<S, T>, frames: seq<seq<byte>>, outs: seq<seq<Option<T>>>,
                                                    states: seq<S>, from: nat, skip: nat, fi: FrameInfo)
    requires c.Valid() && AllDecode(c, frames, outs, states)
    requires from <= c.end && c.file[from..c.end] == Joined(frames)
    ensures var all := Kept(Joined(outs), skip);
      Rest(c, Fields(states[0], from, [], 0, skip, 0, false), fi)
      == if c.detected == 0 then all else all[..Min(c.detected, |all|)]
  {
    FramesDeliver(c, frames, outs, states, from, c.end, skip, skip - Min(skip, |Joined(outs)|), fi);
    var all := Kept(Joined(outs), skip);
    assert all + [] == all;
    var none: seq<T> := [];
    assert none[0..] + all == all;
  }

  /** A frame of another sampling rate or layer ends the delivery. */
  lemma FormatEnds<S(!new), T>(c: Stream<S, T>, s: S, offset: nat, toSkip: nat, fi: FrameInfo)
    requires c.Valid() && offset < c.end
    requires var info := c.decode(s, c.Chunk(offset)).info;
      info.Some? && (info.value.hz != c.info.hz || info.value.layer != c.info.layer)
    ensures FromFrames(c, s, offset, toSkip, fi) == []
  {
  }

  /** Reading all of such a file from a fresh reader. */
  method ReadAll<S(!new), T>(c: Stream<S, T>, ghost frames: seq<seq<byte>>, ghost outs: seq<seq<Option<T>>>,
                             ghost states: seq<S>, start: S, from: nat, skip: nat, n: nat)
    returns (out: seq<T>)
    requires c.Valid() && AllDecode(c, frames, outs, states) && start == states[0]
    requires from <= c.end && c.file[from..c.end] == Joined(frames)
    ensures var all := Kept(Joined(outs), skip);
      out == all[..Min(n, if c.detected == 0 then |all| else Min(c.detected, |all|))]
  {
    var r := new Reader(c, start, from, skip);
    FileDelivers(c, frames, outs, states, from, skip, NO_INFO);
    out := r.Read(n);
  }
}
