/**
 Streams of whole frames: the frame search recognises them from their first byte, and from
 every frame boundary.
 */
module Mp3Stream {
  import opened Common
  import opened Bits
  import opened Mp3Header
  import opened Mp3Frames

  /** A whole frame with a bitrate: its header is valid and it is as long as that says. */
  predicate IsFrame(frame: seq<byte>) {
    |frame| >= HDR_SIZE && HdrValid(frame[..HDR_SIZE]) && !IsFreeFormat(frame[..HDR_SIZE])
    && |frame| == FrameBytes(frame[..HDR_SIZE], 0) + Padding(frame[..HDR_SIZE])
  }

  /** Frames whose headers agree with a given one. */
  predicate AllAgree(h: Header, frames: seq<seq<byte>>) {
    forall i :: 0 <= i < |frames| ==> IsFrame(frames[i]) && HdrCompare(h, frames[i][..HDR_SIZE])
  }

  function Joined(frames: seq<seq<byte>>): seq<byte> { if frames == [] then [] else frames[0] + Joined(frames[1..]) }

  /** The frames stand in the input from `at` on, up to its end. */
  predicate Stand(mp3: seq<byte>, at: nat, frames: seq<seq<byte>>) { at <= |mp3| && mp3[at..] == Joined(frames) }

  lemma {:induction false} FirstStands(mp3: seq<byte>, at: nat, next: nat, frames: seq<seq<byte>>, ff: nat)
    requires Stand(mp3, at, frames) && frames != [] && IsFrame(frames[0]) && next == at + |frames[0]|
    ensures at + HDR_SIZE <= |mp3| && At(mp3, at) == frames[0][..HDR_SIZE]
    ensures NextFrame(mp3, at, ff) == next && Stand(mp3, next, frames[1..])
  {
    var f, all := frames[0], mp3[at..];
    Slices(mp3, at, next, f, Joined(frames[1..]));
    FrameBytesBounds(f[..HDR_SIZE], ff);
    FrameBytesBounds(f[..HDR_SIZE], 0);
  }

  lemma Slices(mp3: seq<byte>, at: nat, next: nat, f: seq<byte>, rest: seq<byte>)
    requires at <= |mp3| && mp3[at..] == f + rest && next == at + |f| && |f| >= HDR_SIZE
    ensures next <= |mp3| && mp3[at..at + HDR_SIZE] == f[..HDR_SIZE] && mp3[next..] == rest
  {
    var all := mp3[at..];
    assert |mp3| - at == |all| >= |f|;
    assert mp3[at..at + HDR_SIZE] == all[..HDR_SIZE] == f[..HDR_SIZE];
    assert mp3[next..] == all[|f|..] == rest;
  }

  /** Frames that agree keep in step, as many as are looked at. */
  lemma {:induction false} StreamInStep(mp3: seq<byte>, start: nat, at: nat, h: Header, frames: seq<seq<byte>>, n: nat,
                                        must: bool, ff: nat)
    requires start + HDR_SIZE <= |mp3| && h == At(mp3, start) && Stand(mp3, at, frames) && frames != []
    requires AllAgree(h, frames) && (must ==> |frames| > 1)
    ensures at + HDR_SIZE <= |mp3| && HdrValid(At(mp3, at)) && InStep(mp3, start, at, n, must, ff)
    decreases n
  {
    var next, rest := at + |frames[0]|, frames[1..];
    FirstStands(mp3, at, next, frames, ff);
    if n > 0 {
      InStepNext(mp3, start, at, n, must, ff);
      if rest == [] {
        assert |mp3[next..]| == 0;
      } else {
        AgreeTail(h, frames);
        FirstStands(mp3, next, next + |rest[0]|, rest, ff);
        StreamInStep(mp3, start, next, h, rest, n - 1, false, ff);
      }
    }
  }

  lemma AgreeTail(h: Header, frames: seq<seq<byte>>)
    requires AllAgree(h, frames) && |frames| > 1
    ensures AllAgree(h, frames[1..]) && IsFrame(frames[1]) && HdrCompare(h, frames[1][..HDR_SIZE])
  {
  }

  /** The first frame of any stream of agreeing frames is recognised at once, with its length. */
  lemma {:induction false} StreamRecognised(mp3: seq<byte>, frames: seq<seq<byte>>)
    requires frames != [] && mp3 == Joined(frames) && IsFrame(frames[0]) && AllAgree(frames[0][..HDR_SIZE], frames)
    ensures Accepted(mp3, 0) && SizeAt(mp3, 0) == Size(FrameBytes(frames[0][..HDR_SIZE], 0), |frames[0]|)
  {
    assert mp3[0..] == mp3;
    var h := frames[0][..HDR_SIZE];
    FrameBytesBounds(h, 0);
    FirstStands(mp3, 0, |frames[0]|, frames, 0);
    if |frames| > 1 {
      StreamInStep(mp3, 0, 0, h, frames, MAX_FRAME_SYNC_MATCHES, true, FrameBytes(h, 0));
    } else {
      assert Joined(frames[1..]) == [] && mp3 == frames[0];
    }
  }

  /** So a decoder without a state finds it there, and goes on with the next one. */
  method DecodesInOrder(mp3: seq<byte>, ghost frames: seq<seq<byte>>) returns (l: Located)
    requires frames != [] && mp3 == Joined(frames) && IsFrame(frames[0]) && AllAgree(frames[0][..HDR_SIZE], frames)
    ensures l.Frame? && l.offset == 0 && l.size == |frames[0]| && mp3[l.size..] == Joined(frames[1..])
  {
    l := Locate(NO_SYNC, mp3);
    StreamRecognised(mp3, frames);
  }

  /** With the header of the frame before, the next one is taken up without a search. */
  lemma {:induction false} StreamContinues(sync: Sync, mp3: seq<byte>, frames: seq<seq<byte>>)
    requires frames != [] && mp3 == Joined(frames) && sync.header[0] == 0xff && AllAgree(sync.header, frames)
    requires |frames| > 1 ==> AllAgree(frames[0][..HDR_SIZE], frames)
    ensures Locates(sync, mp3, Frame(0, |frames[0]|, Sync(frames[0][..HDR_SIZE], sync.freeFormat), false))
  {
    assert mp3[0..] == mp3;
    var h := frames[0][..HDR_SIZE];
    FrameBytesBounds(h, 0);
    FrameBytesBounds(h, sync.freeFormat);
    FirstStands(mp3, 0, |frames[0]|, frames, sync.freeFormat);
    if |frames| > 1 {
      FirstStands(mp3, |frames[0]|, |frames[0]| + |frames[1]|, frames[1..], sync.freeFormat);
    } else {
      assert Joined(frames[1..]) == [] && mp3 == frames[0];
    }
  }
}
