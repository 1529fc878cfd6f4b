/**
 Locating frames in a byte stream: `mp3d_match_frame`, `mp3d_find_frame` and the
 way `mp3dec_decode_frame` chooses the frame it decodes.
 */
module Mp3Frames {
  import opened Common
  import opened Bits
  import opened Mp3Header

  const MAX_FREE_FORMAT_FRAME_SIZE := 2304
  const MAX_FRAME_SYNC_MATCHES := 10

  function At(mp3: seq<byte>, i: nat): Header
    requires i + HDR_SIZE <= |mp3|
  {
    mp3[i..i + HDR_SIZE]
  }

  // ----- Runs of consecutive frames

  function NextFrame(mp3: seq<byte>, at: nat, ff: nat): nat
    requires at + HDR_SIZE <= |mp3| && HdrValid(At(mp3, at))
  {
    at + FrameBytes(At(mp3, at), ff) + Padding(At(mp3, at))
  }

  /**
   From the frame at `at`, up to `n` further headers agree with the one at
   `start`, until the input ends; at least one must when `must` is set.
   */
  ghost predicate InStep(mp3: seq<byte>, start: nat, at: nat, n: nat, must: bool, ff: nat)
    requires start + HDR_SIZE <= |mp3| && at + HDR_SIZE <= |mp3| && HdrValid(At(mp3, at))
    decreases n
  {
    n == 0 ||
    var next := NextFrame(mp3, at, ff);
    if next + HDR_SIZE > |mp3| then !must
    else HdrCompare(At(mp3, start), At(mp3, next)) && InStep(mp3, start, next, n - 1, false, ff)
  }

  lemma InStepNext(mp3: seq<byte>, start: nat, at: nat, n: nat, must: bool, ff: nat)
    requires start + HDR_SIZE <= |mp3| && at + HDR_SIZE <= |mp3| && HdrValid(At(mp3, at)) && n > 0
    ensures var next := NextFrame(mp3, at, ff);
      InStep(mp3, start, at, n, must, ff)
      == if next + HDR_SIZE > |mp3| then !must
         else HdrCompare(At(mp3, start), At(mp3, next)) && InStep(mp3, start, next, n - 1, false, ff)
  {
  }

  method MatchFrame(mp3: seq<byte>, start: nat, ff: nat) returns (ok: bool)
    requires start + HDR_SIZE <= |mp3| && HdrValid(At(mp3, start))
    ensures ok == InStep(mp3, start, start, MAX_FRAME_SYNC_MATCHES, true, ff)
  {
    var i: nat, nmatch, limit: nat := start, 0, MAX_FRAME_SYNC_MATCHES;
    ghost var expected := InStep(mp3, start, start, limit, true, ff);
    while nmatch < limit
      invariant nmatch <= limit && i + HDR_SIZE <= |mp3| && HdrValid(At(mp3, i))
      invariant expected == InStep(mp3, start, i, limit - nmatch, nmatch == 0, ff)
    {
      InStepNext(mp3, start, i, limit - nmatch, nmatch == 0, ff);
      i := NextFrame(mp3, i, ff);
      if i + HDR_SIZE > |mp3| {
        return nmatch > 0;
      }
      if !HdrCompare(At(mp3, start), At(mp3, i)) {
        return false;
      }
      nmatch := nmatch + 1;
    }
    return true;
  }

  // ----- The size of the frame at a candidate header

  /** Frame size without and with padding. */
  datatype Size = Size(bytes: nat, padded: nat)

  /** Two more headers confirm a free-format frame of `k` bytes at `i`. */
  predicate FreeHit(mp3: seq<byte>, i: nat, k: nat)
    requires HDR_SIZE <= k && i + 2 * k + HDR_SIZE < |mp3|
  {
    var h := At(mp3, i);
    HdrCompare(h, At(mp3, i + k)) &&
    var after := i + k + (k - Padding(h)) + Padding(At(mp3, i + k));
    after + HDR_SIZE <= |mp3| && HdrCompare(h, At(mp3, after))
  }

  predicate FreeRange(mp3: seq<byte>, i: nat, k: nat) {
    HDR_SIZE <= k < MAX_FREE_FORMAT_FRAME_SIZE && i + 2 * k + HDR_SIZE < |mp3|
  }

  /** The search for a free-format size, from `k` on. */
  function FreeSize(mp3: seq<byte>, i: nat, k: nat, padded: nat): Size
    requires i + HDR_SIZE <= |mp3| && HDR_SIZE <= k
    decreases |mp3| - k
  {
    if !FreeRange(mp3, i, k) then Size(0, padded)
    else if !FreeHit(mp3, i, k) then FreeSize(mp3, i, k + 1, padded)
    else if k != Padding(At(mp3, i)) then Size(k - Padding(At(mp3, i)), k)
    else FreeSize(mp3, i, k + 1, k)
  }

  function SizeAt(mp3: seq<byte>, i: nat): Size
    requires i + HDR_SIZE <= |mp3| && HdrValid(At(mp3, i))
  {
    var h := At(mp3, i);
    var bytes := FrameBytes(h, 0);
    if bytes != 0 then Size(bytes, bytes + Padding(h)) else FreeSize(mp3, i, HDR_SIZE, Padding(h))
  }

  lemma {:induction false} FreeSizeBounds(mp3: seq<byte>, i: nat, k: nat, padded: nat)
    requires i + HDR_SIZE <= |mp3| && HDR_SIZE <= k && padded <= 4
    ensures var s := FreeSize(mp3, i, k, padded);
      if s.bytes == 0 then s.padded <= 4
      else HDR_SIZE <= s.padded < MAX_FREE_FORMAT_FRAME_SIZE && s.padded == s.bytes + Padding(At(mp3, i))
    decreases |mp3| - k
  {
    if FreeRange(mp3, i, k) {
      if !FreeHit(mp3, i, k) {
        FreeSizeBounds(mp3, i, k + 1, padded);
      } else if k == Padding(At(mp3, i)) {
        FreeSizeBounds(mp3, i, k + 1, k);
      }
    }
  }

  /** A frame is recognised at offset `i`. */
  ghost predicate Accepted(mp3: seq<byte>, i: nat) {
    i + HDR_SIZE < |mp3| && HdrValid(At(mp3, i)) &&
    var s := SizeAt(mp3, i);
    || (s.bytes != 0 && i + s.padded <= |mp3| && InStep(mp3, i, i, MAX_FRAME_SYNC_MATCHES, true, s.bytes))
    || (i == 0 && s.padded == |mp3|)
  }

  /**
   What recognition means: the frame lies inside the input and either is all of
   it or is followed by a header that agrees with it.
   */
  lemma AcceptedFrame(mp3: seq<byte>, i: nat)
    requires Accepted(mp3, i)
    ensures var s := SizeAt(mp3, i); var h := At(mp3, i);
      && s.bytes != 0 && s.padded == s.bytes + Padding(h)
      && HDR_SIZE <= s.padded && i + s.padded <= |mp3|
      && (IsFreeFormat(h) ==> s.padded < MAX_FREE_FORMAT_FRAME_SIZE)
      && ((i == 0 && s.padded == |mp3|) || (i + s.padded + HDR_SIZE <= |mp3| && HdrCompare(h, At(mp3, i + s.padded))))
  {
    var h, s := At(mp3, i), SizeAt(mp3, i);
    FrameBytesBounds(h, 0);
    FrameBytesBounds(h, s.bytes);
    FreeSizeBounds(mp3, i, HDR_SIZE, Padding(h));
    assert NextFrame(mp3, i, s.bytes) == i + s.padded;
  }

  method FreeSearch(mp3: seq<byte>, i: nat) returns (s: Size)
    requires i + HDR_SIZE <= |mp3| && HdrValid(At(mp3, i))
    ensures s == SizeAt(mp3, i)
  {
    var h := At(mp3, i);
    var bytes: nat := FrameBytes(h, 0);
    var padded: nat := bytes + Padding(h);
    var k := HDR_SIZE;
    while bytes == 0 && k < MAX_FREE_FORMAT_FRAME_SIZE && i + 2 * k < |mp3| - HDR_SIZE
      invariant k >= HDR_SIZE
      invariant SizeAt(mp3, i) == if bytes != 0 then Size(bytes, padded) else FreeSize(mp3, i, k, padded)
      decreases |mp3| - k
    {
      if HdrCompare(h, At(mp3, i + k)) {
        var fb := k - Padding(h);
        var nextfb := fb + Padding(At(mp3, i + k));
        if i + k + nextfb + HDR_SIZE <= |mp3| && HdrCompare(h, At(mp3, i + k + nextfb)) {
          padded, bytes := k, fb;
        }
      }
      k := k + 1;
    }
    s := Size(bytes, padded);
  }

  /** `mp3d_find_frame`: the first offset at which a frame is recognised. */
  method FindFrame(mp3: seq<byte>) returns (i: nat, size: nat, freeFormat: nat)
    ensures forall j :: 0 <= j < i ==> !Accepted(mp3, j)
    ensures size == 0 ==> i == |mp3| && freeFormat == 0
    ensures size != 0 ==> Accepted(mp3, i) && size == SizeAt(mp3, i).padded
    ensures size != 0 ==> freeFormat == if IsFreeFormat(At(mp3, i)) then SizeAt(mp3, i).bytes else 0
  {
    i := 0;
    while i < |mp3| - HDR_SIZE
      invariant forall j :: 0 <= j < i ==> !Accepted(mp3, j)
      invariant 0 <= i
    {
      if HdrValid(At(mp3, i)) {
        FrameBytesBounds(At(mp3, i), 0);
        var s := FreeSearch(mp3, i);
        var matched := false;
        if s.bytes != 0 && i + s.padded <= |mp3| {
          matched := MatchFrame(mp3, i, s.bytes);
        }
        if matched || (i == 0 && s.padded == |mp3|) {
          AcceptedFrame(mp3, i);
          return i, s.padded, if IsFreeFormat(At(mp3, i)) then s.bytes else 0;
        }
      }
      i := i + 1;
    }
    forall j | 0 <= j < |mp3| ensures !Accepted(mp3, j) { }
    return |mp3|, 0, 0;
  }

  // ----- Choosing the frame to decode

  /** What the decoder remembers of the previous frame: its header and the free-format size. */
  datatype Sync = Sync(header: Header, freeFormat: nat)

  const NO_SYNC := Sync([0, 0, 0, 0], 0)

  datatype Located =
    | Nothing
    | Frame(offset: nat, size: nat, sync: Sync, cleared: bool)  // `cleared`: the decoder state was reset first

  /** The next frame follows directly and agrees with the previous one. */
  predicate Continues(sync: Sync, mp3: seq<byte>) {
    |mp3| > 4 && sync.header[0] == 0xff && HdrCompare(sync.header, At(mp3, 0)) &&
    var size := FrameBytes(At(mp3, 0), sync.freeFormat) + Padding(At(mp3, 0));
    size != 0 &&
    (size == |mp3| || (size + HDR_SIZE <= |mp3| && HdrCompare(At(mp3, 0), At(mp3, size))))
  }

  ghost predicate Locates(sync: Sync, mp3: seq<byte>, l: Located) {
    if Continues(sync, mp3) then
      var h := At(mp3, 0);
      l == Frame(0, FrameBytes(h, sync.freeFormat) + Padding(h), Sync(h, sync.freeFormat), false)
    else
      match l
      case Nothing => forall i :: 0 <= i < |mp3| ==> !Accepted(mp3, i)
      case Frame(i, size, sync', cleared) =>
        && cleared && Accepted(mp3, i) && (forall j :: 0 <= j < i ==> !Accepted(mp3, j))
        && size == SizeAt(mp3, i).padded
        && sync' == Sync(At(mp3, i), if IsFreeFormat(At(mp3, i)) then SizeAt(mp3, i).bytes else 0)
  }

  method Locate(sync: Sync, mp3: seq<byte>) returns (l: Located)
    ensures Locates(sync, mp3, l)
  {
    if |mp3| > 4 && sync.header[0] == 0xff && HdrCompare(sync.header, At(mp3, 0)) {
      var size := FrameBytes(At(mp3, 0), sync.freeFormat) + Padding(At(mp3, 0));
      if size != |mp3| && (size + HDR_SIZE > |mp3| || !HdrCompare(At(mp3, 0), At(mp3, size))) {
        size := 0;
      }
      if size != 0 {
        return Frame(0, size, Sync(At(mp3, 0), sync.freeFormat), false);
      }
    }
    var i, size, ff := FindFrame(mp3);
    if size == 0 {
      return Nothing;
    }
    AcceptedFrame(mp3, i);
    return Frame(i, size, Sync(At(mp3, i), ff), true);
  }

  /** Synchronisation states of a running decoder. */
  predicate ValidSync(sync: Sync) {
    sync.freeFormat < MAX_FREE_FORMAT_FRAME_SIZE
    && (sync.header[0] == 0xff && IsFreeFormat(sync.header) ==> sync.freeFormat != 0)
  }

  /**
   A located frame lies inside the input, has a valid header and, in Layer III,
   at most 2304 bytes; the decoder stays synchronised.
   */
  lemma LocatedFrame(sync: Sync, mp3: seq<byte>, l: Located)
    requires ValidSync(sync) && Locates(sync, mp3, l) && l.Frame?
    ensures l.offset + l.size <= |mp3| && 1 <= l.size
    ensures l.offset + HDR_SIZE <= |mp3| && l.sync.header == At(mp3, l.offset) && HdrValid(l.sync.header)
    ensures LayerField(l.sync.header) == 1 ==> l.size <= MAX_FREE_FORMAT_FRAME_SIZE
    ensures ValidSync(l.sync)
  {
    var h := l.sync.header;
    if Continues(sync, mp3) {
      FrameBytesBounds(At(mp3, 0), sync.freeFormat);
    } else {
      AcceptedFrame(mp3, l.offset);
      FrameBytesBounds(At(mp3, l.offset), 0);
    }
  }
}
