/**
 The fields of a 4-byte MPEG audio frame header, and the size of the frame it
 announces.
 */
module Mp3Header {
  import opened Common
  import opened Bits

  type Header = h: seq<byte> | |h| == 4 witness [0, 0, 0, 0]

  const HDR_SIZE := 4

  predicate IsMono(h: Header) { h[3] / 64 == 3 }

  predicate IsFreeFormat(h: Header) { h[2] / 16 == 0 }

  predicate IsCrc(h: Header) { h[1] % 2 == 0 }

  predicate HasPadding(h: Header) { (h[2] / 2) % 2 == 1 }

  predicate IsMpeg1(h: Header) { (h[1] / 8) % 2 == 1 }

  predicate IsNotMpeg25(h: Header) { (h[1] / 16) % 2 == 1 }

  predicate IsFrame576(h: Header) { (h[1] / 2) % 8 == 1 }

  predicate IsLayer1(h: Header) { (h[1] / 2) % 4 == 3 }

  /** The layer field: 3 for Layer I down to 1 for Layer III. */
  function LayerField(h: Header): nat { (h[1] / 2) % 4 }

  function BitrateField(h: Header): nat { h[2] / 16 }

  function SampleRateField(h: Header): nat { (h[2] / 4) % 4 }

  function Channels(h: Header): nat { if IsMono(h) then 1 else 2 }

  predicate HdrValid(h: Header) {
    h[0] == 0xff
    && (h[1] / 16 == 0xf || h[1] / 2 == 0xe2 / 2)
    && LayerField(h) != 0
    && BitrateField(h) != 15
    && SampleRateField(h) != 3
  }

  predicate HdrCompare(h1: Header, h2: Header) {
    HdrValid(h2)
    && h1[1] / 2 == h2[1] / 2
    && SampleRateField(h1) == SampleRateField(h2)
    && IsFreeFormat(h1) == IsFreeFormat(h2)
  }

  const HALF_RATE: seq<seq<seq<nat>>> := [
    [ [0, 4, 8, 12, 16, 20, 24, 28, 32, 40, 48, 56, 64, 72, 80],
      [0, 4, 8, 12, 16, 20, 24, 28, 32, 40, 48, 56, 64, 72, 80],
      [0, 16, 24, 28, 32, 40, 48, 56, 64, 72, 80, 88, 96, 112, 128] ],
    [ [0, 16, 20, 24, 28, 32, 40, 48, 56, 64, 80, 96, 112, 128, 160],
      [0, 16, 24, 28, 32, 40, 48, 56, 64, 80, 96, 112, 128, 160, 192],
      [0, 16, 32, 48, 64, 80, 96, 112, 128, 144, 160, 176, 192, 208, 224] ] ]

  function BitrateKbps(h: Header): nat
    requires HdrValid(h)
  {
    2 * HALF_RATE[if IsMpeg1(h) then 1 else 0][LayerField(h) - 1][BitrateField(h)]
  }

  function SampleRateHz(h: Header): (hz: nat)
    requires HdrValid(h)
    ensures hz > 0
  {
    var base := [44100, 48000, 32000][SampleRateField(h)];
    var half := if IsMpeg1(h) then base else base / 2;
    if IsNotMpeg25(h) then half else half / 2
  }

  function FrameSamples(h: Header): nat {
    if IsLayer1(h) then 384 else if IsFrame576(h) then 576 else 1152
  }

  function Quotient(a: nat, b: nat): nat
    requires b > 0
  {
    DivMod(a, b);
    a / b
  }

  function FrameBytes(h: Header, freeFormatSize: nat): nat
    requires HdrValid(h)
  {
    var bytes := Quotient(FrameSamples(h) * BitrateKbps(h) * 125, SampleRateHz(h));
    var aligned := if IsLayer1(h) then bytes - bytes % 4 else bytes;
    if aligned != 0 then aligned else freeFormatSize
  }

  function Padding(h: Header): nat {
    if HasPadding(h) then (if IsLayer1(h) then 4 else 1) else 0
  }

  // ----- Bounds

  /** Only free format (bitrate field 0) leaves the size open. */
  lemma RateBounds(h: Header)
    requires HdrValid(h)
    ensures IsFreeFormat(h) <==> BitrateKbps(h) == 0
    ensures !IsFreeFormat(h) ==> 8 <= BitrateKbps(h) <= 448
    ensures !IsFreeFormat(h) && LayerField(h) == 3 ==> 32 <= BitrateKbps(h)
    ensures LayerField(h) == 1 ==> BitrateKbps(h) <= if IsMpeg1(h) then 320 else 160
  {
    assert 0 <= BitrateField(h) < 15;
  }

  lemma QuotientBounds(a: nat, b: nat, lo: nat, hi: nat)
    requires b > 0
    ensures lo * b <= a ==> lo <= Quotient(a, b)
    ensures a <= hi * b ==> Quotient(a, b) <= hi
  {
    DivMod(a, b);
    PartBounds(a, b, a / b, a % b, lo, hi);
  }

  lemma PartBounds(a: nat, b: nat, q: nat, r: nat, lo: nat, hi: nat)
    requires a == q * b + r && r < b
    ensures lo * b <= a ==> lo <= q
    ensures a <= hi * b ==> q <= hi
  {
    if q < lo {
      MulAtMost(q + 1, lo, b);
      Distribute2(q, 1, b);
    }
    if hi < q {
      MulAtMost(hi + 1, q, b);
      Distribute2(hi, 1, b);
    }
  }

  lemma RateRange(h: Header)
    requires HdrValid(h)
    ensures IsMpeg1(h) ==> 32000 <= SampleRateHz(h) <= 48000
    ensures !IsMpeg1(h) ==> 8000 <= SampleRateHz(h) <= 24000
    ensures LayerField(h) == 1 ==> IsFrame576(h) == !IsMpeg1(h)
    ensures LayerField(h) != 1 ==> !IsFrame576(h)
  {
  }

  /**
   A header with a bitrate announces at least 20 bytes, and in Layer III at most
   1440; a free-format header announces whatever size is known already.
   */
  lemma FrameBytesBounds(h: Header, ff: nat)
    requires HdrValid(h)
    ensures IsFreeFormat(h) ==> FrameBytes(h, ff) == ff
    ensures !IsFreeFormat(h) ==> 20 <= FrameBytes(h, ff) == FrameBytes(h, 0)
    ensures !IsFreeFormat(h) && LayerField(h) == 1 ==> FrameBytes(h, ff) <= 1440
  {
    RateBounds(h);
    RateRange(h);
    var hz, kbps := SampleRateHz(h), BitrateKbps(h);
    if IsFreeFormat(h) {
      QuotientBounds(0, hz, 0, 0);
    } else {
      var total := FrameSamples(h) * kbps * 125;
      assert 20 * hz <= total by {
        if IsLayer1(h) { } else if IsFrame576(h) { } else { }
      }
      QuotientBounds(total, hz, 20, 1440);
      assert LayerField(h) == 1 ==> total <= 1440 * hz;
    }
  }
}
