/**
 The seek index of `minimp3_ex.h`: one entry per frame with the number of samples
 before it, built by a callback per frame and searched by bisection.
 */
module Mp3Index {
  import opened Common
  import opened Bits
  import opened Mp3Frames

  datatype Entry = Entry(sample: nat, offset: nat)

  ghost predicate Sorted(frames: seq<Entry>) {
    forall i, j :: 0 <= i <= j < |frames| ==> frames[i].sample <= frames[j].sample
  }

  /** An index that can be searched: it starts at sample 0 and never decreases. */
  ghost predicate Searchable(frames: seq<Entry>) {
    Sorted(frames) && (frames != [] ==> frames[0].sample == 0)
  }

  /** What the VBR tag check reports for the first frame. */
  datatype Tag = NoTag | TagWithoutFrames | Tagged(frames: nat, delay: nat, padding: int)

  datatype Code = Continue | Stop

  /** A frame handed to the callback; `decoded` is what decoding it would give, per channel. */
  datatype Found = Found(offset: nat, size: nat, samples: nat, channels: nat, layer3: bool, tag: Tag, decoded: nat)

  function Times(a: nat, b: nat): nat { a * b }

  /** The length announced by a VBR tag, without delay and padding where it is long enough. */
  function TaggedSamples(f: Found): nat
    requires f.tag.Tagged?
  {
    var delay, padding := Times(f.tag.delay, f.channels), f.tag.padding * f.channels;
    var all := Times(Times(f.samples, f.channels), f.tag.frames);
    var some := if all >= delay then all - delay else all;
    if padding > 0 && some >= padding then some - padding else some
  }

  /** Where the announced frames are long enough, delay and padding are taken off each channel. */
  lemma TaggedLength(f: Found)
    requires f.tag.Tagged?
    ensures var cut := f.tag.delay + (if f.tag.padding > 0 then f.tag.padding else 0); var all := Times(f.samples, f.tag.frames);
      && (cut <= all ==> TaggedSamples(f) == (all - cut) * f.channels)
      && TaggedSamples(f) <= all * f.channels
  {
    var all, d, p := Times(f.samples, f.tag.frames), f.tag.delay, if f.tag.padding > 0 then f.tag.padding else 0;
    AllChannels(f.samples, f.channels, f.tag.frames);
    if d + p <= all {
      Distribute2(all - d - p, p, f.channels);
      Distribute2(all - d, d, f.channels);
    }
  }

  lemma AllChannels(samples: nat, channels: nat, frames: nat)
    ensures Times(Times(samples, channels), frames) == Times(samples, frames) * channels
  {
  }

  /** None of the first `n` frames decoded to any samples. */
  ghost predicate Undecoded(scanned: seq<Found>, n: nat)
    requires n <= |scanned|
  {
    forall j :: 0 <= j < n ==> scanned[j].decoded == 0
  }

  /** Only the first 255 frames are tried, until one decodes. */
  const TRIED := 255

  /** What frame `k` adds to the sample count: what it decodes to while decoding is tried, else its nominal length. */
  ghost function Amount(scanned: seq<Found>, k: nat): nat
    requires k < |scanned|
  {
    var f := scanned[k];
    if k < TRIED && Undecoded(scanned, k) then Times(f.decoded, f.channels) else Times(f.samples, f.channels)
  }

  /** Every entry stands for one scanned frame and counts the samples of all frames before it. */
  ghost predicate Counts(frames: seq<Entry>, scanned: seq<Found>) {
    && |frames| == |scanned|
    && (frames != [] ==> frames[0].sample == 0)
    && (forall k :: 0 <= k < |frames| ==> frames[k].offset == scanned[k].offset)
    && (forall k :: 0 < k < |frames| ==> frames[k].sample == frames[k - 1].sample + Amount(scanned, k - 1))
  }

  ghost function Total(frames: seq<Entry>, scanned: seq<Found>): nat
    requires |frames| == |scanned|
  {
    var n := |frames|;
    if n == 0 then 0 else frames[n - 1].sample + Amount(scanned, n - 1)
  }

  /** Decoding would still be tried. */
  ghost predicate Trying(scanned: seq<Found>) { Undecoded(scanned, if |scanned| < TRIED then |scanned| else TRIED) }

  /** One more frame: what it adds, and whether decoding is still tried after it. */
  lemma AmountLast(scanned: seq<Found>, f: Found)
    ensures var more := scanned + [f]; var tried := |scanned| < TRIED && Trying(scanned);
      && Amount(more, |scanned|) == Times(if tried then f.decoded else f.samples, f.channels)
      && (Trying(more) <==> Trying(scanned) && (tried ==> f.decoded == 0))
  {
    var more := scanned + [f];
    assert forall j :: 0 <= j < |scanned| ==> more[j] == scanned[j];
    assert more[|scanned|] == f;
  }

  lemma AmountPrefix(scanned: seq<Found>, f: Found, k: nat)
    requires k < |scanned|
    ensures Amount(scanned + [f], k) == Amount(scanned, k)
  {
    assert forall j :: 0 <= j < |scanned| ==> (scanned + [f])[j] == scanned[j];
  }

  lemma CountsGrow(frames: seq<Entry>, scanned: seq<Found>, f: Found)
    requires Counts(frames, scanned) && Sorted(frames)
    ensures var frames' := frames + [Entry(Total(frames, scanned), f.offset)];
      Counts(frames', scanned + [f]) && Sorted(frames')
  {
    forall k | 0 <= k < |scanned| ensures Amount(scanned + [f], k) == Amount(scanned, k) {
      AmountPrefix(scanned, f, k);
    }
  }

  /** The samples of the first `n` frames. */
  ghost function Before(scanned: seq<Found>, n: nat): nat
    requires n <= |scanned|
  {
    if n == 0 then 0 else Before(scanned, n - 1) + Amount(scanned, n - 1)
  }

  lemma {:induction false} EntryCounts(frames: seq<Entry>, scanned: seq<Found>, k: nat)
    requires Counts(frames, scanned) && k < |frames|
    ensures frames[k].sample == Before(scanned, k)
  {
    if k > 0 {
      EntryCounts(frames, scanned, k - 1);
    }
  }

  class Index {
    var frames: seq<Entry>
    var samples: nat
    var detected: nat
    var startOffset: nat
    var startDelay: nat
    var bufferSamples: nat
    var vbrTag: bool
    var doNotScan: bool
    ghost var scanned: seq<Found>  // the frames that have an entry
    ghost var scanning: bool       // `samples` counts scanned frames, not what a tag announced

    ghost predicate Valid()
      reads this
    {
      && Counts(frames, scanned) && Sorted(frames)
      && (scanning ==> samples == Total(frames, scanned))
      && (scanning ==> (bufferSamples == 0 <==> Trying(scanned)))
    }

    constructor (doNotScan: bool)
      ensures Valid() && scanning && scanned == [] && startOffset == 0 && this.doNotScan == doNotScan
    {
      frames, samples, detected, startOffset, startDelay, bufferSamples, vbrTag := [], 0, 0, 0, 0, 0, false;
      this.doNotScan, scanned, scanning := doNotScan, [], true;
    }

    /** A scan that was stopped when the stream was opened starts over at the first seek. */
    method Restart()
      requires Valid() && frames == []
      modifies this
      ensures Valid() && scanning && scanned == [] && samples == 0 && !doNotScan
      ensures startOffset == old(startOffset) && detected == old(detected)
    {
      samples, bufferSamples, doNotScan := 0, 0, false;
      scanning := true;
    }

    /** `mp3dec_load_index`, called for each frame in turn. */
    method LoadIndex(f: Found) returns (code: Code)
      requires Valid() && scanning
      modifies this
      ensures Valid() && doNotScan == old(doNotScan)
      ensures match (if old(frames) == [] && old(startOffset) == 0 && f.layer3 then f.tag else NoTag)
        case Tagged(_, delay, _) =>
          && code == Stop && !scanning && vbrTag && scanned == old(scanned)
          && samples == detected == TaggedSamples(f) && startDelay == Times(delay, f.channels)
          && startOffset == f.offset + f.size
        case TagWithoutFrames =>
          code == Continue && scanning && scanned == old(scanned) && startOffset == f.offset + f.size
        case NoTag =>
          && scanning && code == (if doNotScan then Stop else Continue)
          && scanned == (if doNotScan then old(scanned) else old(scanned) + [f])
    {
      if frames == [] && startOffset == 0 {
        startOffset := f.offset;
        if f.layer3 {
          if f.tag != NoTag {
            startOffset := f.offset + f.size;
          }
          match f.tag {
            case Tagged(_, delay, _) =>
              startDelay := Times(delay, f.channels);
              samples := TaggedSamples(f);
              detected, vbrTag, scanning := samples, true, false;
              return Stop;
            case TagWithoutFrames =>
              return Continue;
            case NoTag =>
          }
        }
      }
      if doNotScan {
        return Stop;
      }
      AddEntry(f);
      return Continue;
    }

    method AddEntry(f: Found)
      requires Valid() && scanning
      modifies this`frames, this`scanned, this`samples, this`bufferSamples
      ensures Valid() && scanned == old(scanned) + [f]
    {
      CountsGrow(frames, scanned, f);
      AmountLast(scanned, f);
      frames := frames + [Entry(samples, f.offset)];
      scanned := scanned + [f];
      if bufferSamples == 0 && |frames| < TRIED + 1 {
        bufferSamples := f.decoded;
        samples := samples + Times(bufferSamples, f.channels);
      } else {
        samples := samples + Times(f.samples, f.channels);
      }
    }

    /**
     `mp3dec_iterate_buf` with the index as its callback.  The first frame indexed is the
     first one recognised in the buffer, or behind a leading tag; each further one is
     the first recognised behind the one before, and none is left at the end unless a
     tag or the flag stops the scan.
     */
    method Iterate(mp3: seq<byte>, describe: (nat, nat) -> Found)
      returns (code: Code, ghost start: nat, ghost end: nat)
      requires Valid() && scanning && scanned == []
      requires forall offset, size :: describe(offset, size).offset == offset && describe(offset, size).size == size
      modifies this
      ensures Valid() && end <= |mp3| && Chained(mp3, scanned, start) && end == EndAfter(scanned, start)
      ensures start == 0 || TagEndsAt(mp3, describe, start)
      ensures code == Continue ==> scanning && NoFrameFrom(mp3, end)
      ensures doNotScan ==> scanned == []
    {
      var at := 0;
      start := 0;
      while at < |mp3|
        invariant at <= |mp3| && Valid() && scanning && Chained(mp3, scanned, start) && at == EndAfter(scanned, start)
        invariant start == 0 || TagEndsAt(mp3, describe, start)
        invariant scanned == [] ==> start == 0 || startOffset != 0
        invariant doNotScan ==> scanned == []
        decreases |mp3| - at
      {
        var offset, size := SearchFrom(mp3, at);
        if size == 0 {
          return Continue, start, at;
        }
        ChainGrows(mp3, scanned, start, describe(offset, size));
        ghost var before := scanned;
        var ret := LoadIndex(describe(offset, size));
        if ret == Stop {
          return Stop, start, at;
        }
        at := offset + size;
        if scanned == before {
          assert TagEndsAt(mp3, describe, at);
          start := at;
        }
      }
      return Continue, start, at;
    }

    /**
     The search of a seek.  The frame found starts at the position, or before it and the
     position lies within its samples, unless it is the last one.
     */
    method Find(position: nat) returns (i: nat)
      requires Valid() && frames != [] && position > 0
      ensures i < |scanned| && Before(scanned, i) <= position
      ensures Before(scanned, i) < position && i + 1 < |scanned| ==> position < Before(scanned, i) + Amount(scanned, i)
    {
      i := BinarySearch(frames, position);
      EntryCounts(frames, scanned, i);
      if i + 1 < |frames| {
        EntryCounts(frames, scanned, i + 1);
      }
    }
  }

  /** A tag that announces no length is the first frame recognised in the buffer, and ends here. */
  ghost predicate TagEndsAt(mp3: seq<byte>, describe: (nat, nat) -> Found, end: nat) {
    exists offset: nat, size: nat :: end == offset + size && IsNext(mp3, 0, offset, size)
      && describe(offset, size).layer3 && describe(offset, size).tag == TagWithoutFrames
  }

  /** A frame of `size` bytes at `offset` is the first one recognised from `at` on. */
  ghost predicate IsNext(mp3: seq<byte>, at: nat, offset: nat, size: nat) {
    at <= offset < |mp3| && Accepted(mp3[at..], offset - at) && size == SizeAt(mp3[at..], offset - at).padded
    && offset + size <= |mp3|
    && forall j :: 0 <= j < offset - at ==> !Accepted(mp3[at..], j)
  }

  ghost predicate NoFrameFrom(mp3: seq<byte>, at: nat)
    requires at <= |mp3|
  {
    forall j :: 0 <= j < |mp3| - at ==> !Accepted(mp3[at..], j)
  }

  /** The search from a position; size 0 when nothing is recognised any more. */
  method SearchFrom(mp3: seq<byte>, at: nat) returns (offset: nat, size: nat)
    requires at < |mp3|
    ensures size == 0 ==> NoFrameFrom(mp3, at)
    ensures size != 0 ==> IsNext(mp3, at, offset, size)
  {
    var i, n, _ := FindFrame(mp3[at..]);
    if n != 0 {
      AcceptedFrame(mp3[at..], i);
    }
    return at + i, n;
  }

  /** Where the last of the frames ends, if there is one. */
  function EndAfter(scanned: seq<Found>, start: nat): nat {
    if scanned == [] then start else scanned[|scanned| - 1].offset + scanned[|scanned| - 1].size
  }

  /** The first frame is the first one recognised from `start` on, and each further one from the end of the one before. */
  ghost predicate Chained(mp3: seq<byte>, scanned: seq<Found>, start: nat) {
    scanned == [] ||
    var before, f := scanned[..|scanned| - 1], scanned[|scanned| - 1];
    Chained(mp3, before, start) && IsNext(mp3, EndAfter(before, start), f.offset, f.size)
  }

  lemma {:induction false} ChainGrows(mp3: seq<byte>, scanned: seq<Found>, start: nat, f: Found)
    requires Chained(mp3, scanned, start) && IsNext(mp3, EndAfter(scanned, start), f.offset, f.size)
    ensures Chained(mp3, scanned + [f], start)
  {
    assert (scanned + [f])[..|scanned|] == scanned;
  }

  /**
   `mp3dec_idx_binary_search`: an entry at the position, or else the last one
   below it.  Every index used is inside the index, and `mid - 1` never wraps.
   */
  method BinarySearch(frames: seq<Entry>, position: nat) returns (index: nat)
    requires Searchable(frames) && frames != [] && position > 0
    ensures index < |frames|
    ensures frames[index].sample <= position
    ensures forall j :: 0 <= j < |frames| && frames[j].sample <= position ==> frames[j].sample <= frames[index].sample
    ensures frames[index].sample < position ==> forall j :: index < j < |frames| ==> frames[j].sample > position
  {
    var end: nat, start: nat := |frames|, 0;
    index := 0;
    while start <= end
      invariant start < |frames| && end <= |frames| && start <= end + 1
      invariant index == if start == 0 then 0 else start - 1
      invariant forall j :: 0 <= j < start ==> frames[j].sample < position
      invariant forall j :: end < j < |frames| ==> frames[j].sample > position
      decreases end + 1 - start
    {
      var mid := (start + end) / 2;
      if frames[mid].sample >= position {
        if frames[mid].sample == position {
          return mid;
        }
        end := mid - 1;
      } else {
        index := mid;
        start := mid + 1;
        if start == |frames| {
          break;
        }
      }
    }
  }
}
