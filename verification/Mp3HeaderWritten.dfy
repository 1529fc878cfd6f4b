/**
 Frame headers as an encoder writes them (sections 2.4.1.3 and 2.4.2.3 of ISO/IEC
 11172-3): the fields are read back, and rates and lengths are those of the standard.
 */
module Mp3HeaderWritten {
  import opened Common
  import opened Bits
  import opened Mp3Header

  /** Version 3 is MPEG-1, 2 is MPEG-2, 0 is MPEG-2.5; layer 3 is Layer I, 1 is Layer III. */
  datatype Fields = Fields(version: nat, layer: nat, protection: nat, bitrate: nat, rate: nat, padding: nat, private: nat,
                           mode: nat, extension: nat, copyright: nat, original: nat, emphasis: nat)
  {
    predicate InRange() {
      version < 4 && layer < 4 && protection < 2 && bitrate < 16 && rate < 4 && padding < 2 && private < 2 && mode < 4
      && extension < 4 && copyright < 2 && original < 2 && emphasis < 4
    }

    /** Eleven set bits, then the fields in order. */
    function Header(): Header
      requires InRange()
    {
      [255, 224 + 8 * version + 2 * layer + protection, 16 * bitrate + 4 * rate + 2 * padding + private,
       64 * mode + 16 * extension + 8 * copyright + 4 * original + emphasis]
    }

    /** No reserved value, and MPEG-2.5 only with Layer III. */
    predicate Legal() {
      layer != 0 && bitrate != 15 && rate != 3 && (version >= 2 || (version == 0 && layer == 1))
    }
  }

  /** A header is valid exactly when its fields are legal, and every field is read back. */
  lemma FieldsReadBack(f: Fields)
    requires f.InRange()
    ensures var h := f.Header();
      && (HdrValid(h) <==> f.Legal())
      && (f.Legal() ==> (IsMpeg1(h) <==> f.version == 3) && (IsNotMpeg25(h) <==> f.version != 0))
      && LayerField(h) == f.layer && (IsLayer1(h) <==> f.layer == 3) && (IsCrc(h) <==> f.protection == 0)
      && BitrateField(h) == f.bitrate && (IsFreeFormat(h) <==> f.bitrate == 0) && SampleRateField(h) == f.rate
      && (HasPadding(h) <==> f.padding == 1) && (IsMono(h) <==> f.mode == 3)
      && (f.Legal() ==> (IsFrame576(h) <==> f.layer == 1 && f.version != 3))
  {
    var h := f.Header();
    assert h[1] / 2 == 112 + 4 * f.version + f.layer;
    assert h[1] / 8 == 28 + f.version;
    assert h[2] / 2 == 8 * f.bitrate + 2 * f.rate + f.padding;
    assert h[2] / 4 == 4 * f.bitrate + f.rate;
  }

  /** Headers agree when version, layer and sampling rate do and both or neither are of free format. */
  lemma AgreeingFields(f: Fields, g: Fields)
    requires f.InRange() && g.InRange()
    ensures HdrCompare(f.Header(), g.Header())
      <==> g.Legal() && f.version == g.version && f.layer == g.layer && f.rate == g.rate && (f.bitrate == 0 <==> g.bitrate == 0)
  {
    FieldsReadBack(f);
    FieldsReadBack(g);
    assert f.Header()[1] / 2 == 112 + 4 * f.version + f.layer && g.Header()[1] / 2 == 112 + 4 * g.version + g.layer;
  }

  /** Every four bytes that begin with eleven set bits are written from some fields. */
  lemma EveryHeader(h: Header) returns (f: Fields)
    requires h[0] == 255 && h[1] >= 224
    ensures f.InRange() && f.Header() == h
  {
    var version, layer, protection := SecondByte(h[1]);
    var bitrate, rate, padding, private := ThirdByte(h[2]);
    var mode, extension, copyright, original, emphasis := LastByte(h[3]);
    f := Fields(version, layer, protection, bitrate, rate, padding, private, mode, extension, copyright, original, emphasis);
  }

  lemma SecondByte(x: byte) returns (version: nat, layer: nat, protection: nat)
    requires x >= 224
    ensures version < 4 && layer < 4 && protection < 2 && x == 224 + 8 * version + 2 * layer + protection
  {
    version := (x - 224) / 8;
    layer := (x - 224 - 8 * version) / 2;
    protection := x - 224 - 8 * version - 2 * layer;
  }

  lemma ThirdByte(x: byte) returns (bitrate: nat, rate: nat, padding: nat, private: nat)
    ensures bitrate < 16 && rate < 4 && padding < 2 && private < 2 && x == 16 * bitrate + 4 * rate + 2 * padding + private
  {
    bitrate := x / 16;
    rate := (x - 16 * bitrate) / 4;
    padding := (x - 16 * bitrate - 4 * rate) / 2;
    private := x - 16 * bitrate - 4 * rate - 2 * padding;
  }

  lemma LastByte(x: byte) returns (mode: nat, extension: nat, copyright: nat, original: nat, emphasis: nat)
    ensures mode < 4 && extension < 4 && copyright < 2 && original < 2 && emphasis < 4
    ensures x == 64 * mode + 16 * extension + 8 * copyright + 4 * original + emphasis
  {
    mode := x / 64;
    extension := (x - 64 * mode) / 16;
    copyright := (x - 64 * mode - 16 * extension) / 8;
    original := (x - 64 * mode - 16 * extension - 8 * copyright) / 4;
    emphasis := x - 64 * mode - 16 * extension - 8 * copyright - 4 * original;
  }

  // ----- Rates

  /** Kilobits per second for bitrate fields 1 to 14; for Layer I of MPEG-1 they are multiples of 32. */
  const LAYER_2_RATES: seq<nat> := [32, 48, 56, 64, 80, 96, 112, 128, 160, 192, 224, 256, 320, 384]
  const LAYER_3_RATES: seq<nat> := [32, 40, 48, 56, 64, 80, 96, 112, 128, 160, 192, 224, 256, 320]
  const LOW_LAYER_1_RATES: seq<nat> := [32, 48, 56, 64, 80, 96, 112, 128, 144, 160, 176, 192, 224, 256]
  const LOW_RATES: seq<nat> := [8, 16, 24, 32, 40, 48, 56, 64, 80, 96, 112, 128, 144, 160]

  function Kbps(f: Fields): nat
    requires f.InRange() && f.Legal() && f.bitrate > 0
  {
    if f.version == 3 then
      if f.layer == 3 then 32 * f.bitrate else if f.layer == 2 then LAYER_2_RATES[f.bitrate - 1] else LAYER_3_RATES[f.bitrate - 1]
    else if f.layer == 3 then LOW_LAYER_1_RATES[f.bitrate - 1] else LOW_RATES[f.bitrate - 1]
  }

  lemma RateIsStandard(f: Fields)
    requires f.InRange() && f.Legal() && f.bitrate > 0
    ensures HdrValid(f.Header()) && BitrateKbps(f.Header()) == Kbps(f)
  {
    FieldsReadBack(f);
  }

  /** The sampling rates of MPEG-1, halved for MPEG-2 and again for MPEG-2.5. */
  function Hz(f: Fields): nat
    requires f.Legal() && f.rate < 4
  {
    (if f.rate == 0 then 44100 else if f.rate == 1 then 48000 else 32000)
    / (if f.version == 3 then 1 else if f.version == 2 then 2 else 4)
  }

  lemma HzIsStandard(f: Fields)
    requires f.InRange() && f.Legal()
    ensures HdrValid(f.Header()) && SampleRateHz(f.Header()) == Hz(f)
  {
    FieldsReadBack(f);
  }

  // ----- Lengths

  /** Four bytes for each slot of Layer I: rounding down twice is rounding down once. */
  lemma SlotsOfFour(x: nat, hz: nat, bytes: nat, r: nat)
    requires hz > 0 && 4 * x == bytes * hz + r && r < hz
    ensures bytes - bytes % 4 == 4 * (x / hz)
  {
    var q, s := bytes / 4, bytes % 4;
    FourParts(q, s, hz);
    assert s * hz <= 3 * hz by { MulAtMost(s, 3, hz); }
    DivUnique(x, hz, q, x - q * hz);
  }

  lemma FourParts(q: nat, s: nat, hz: nat)
    ensures (4 * q + s) * hz == 4 * (q * hz) + s * hz
  {
  }

  /**
   The length of a frame without padding, as section 2.4.3.1 has it: 12 slots of four
   bytes in Layer I, 144 bytes in the others and 72 in Layer III of MPEG-2, each times the
   bitrate over the sampling rate.
   */
  function StandardLength(f: Fields, bitsPerSecond: nat, hz: nat): nat
    requires hz > 0
  {
    if f.layer == 3 then 4 * Quotient(12 * bitsPerSecond, hz)
    else if f.layer == 1 && f.version != 3 then Quotient(72 * bitsPerSecond, hz)
    else Quotient(144 * bitsPerSecond, hz)
  }

  /** Frames have the standard length; padding adds one slot. */
  lemma LengthIsStandard(f: Fields, ff: nat)
    requires f.InRange() && f.Legal() && f.bitrate > 0
    ensures HdrValid(f.Header()) && Hz(f) > 0
    ensures FrameBytes(f.Header(), ff) == StandardLength(f, 1000 * Kbps(f), Hz(f))
    ensures Padding(f.Header()) == f.padding * if f.layer == 3 then 4 else 1
  {
    FieldsReadBack(f);
    RateIsStandard(f);
    HzIsStandard(f);
    LengthFrom(f, f.Header(), ff, Kbps(f), Hz(f), 1000 * Kbps(f));
  }

  lemma LengthFrom(f: Fields, h: Header, ff: nat, k: nat, hz: nat, bps: nat)
    requires HdrValid(h) && !IsFreeFormat(h) && k == BitrateKbps(h) && hz == SampleRateHz(h) && bps == 1000 * k
    requires (IsLayer1(h) <==> f.layer == 3) && (IsFrame576(h) <==> f.layer == 1 && f.version != 3)
    ensures FrameBytes(h, ff) == StandardLength(f, bps, hz)
  {
    if f.layer == 3 {
      SlotLength(h, ff, k, hz, 12 * bps);
    } else {
      ByteLength(h, ff, k, hz, if f.layer == 1 && f.version != 3 then 72 * bps else 144 * bps);
    }
  }

  lemma SlotLength(h: Header, ff: nat, k: nat, hz: nat, x: nat)
    requires HdrValid(h) && !IsFreeFormat(h) && IsLayer1(h) && k == BitrateKbps(h) && hz == SampleRateHz(h)
    requires 4 * x == FrameSamples(h) * k * 125
    ensures FrameBytes(h, ff) == 4 * Quotient(x, hz)
  {
    FrameBytesBounds(h, ff);
    DivMod(4 * x, hz);
    SlotsOfFour(x, hz, (4 * x) / hz, (4 * x) % hz);
  }

  lemma ByteLength(h: Header, ff: nat, k: nat, hz: nat, x: nat)
    requires HdrValid(h) && !IsFreeFormat(h) && !IsLayer1(h) && k == BitrateKbps(h) && hz == SampleRateHz(h)
    requires x == FrameSamples(h) * k * 125
    ensures FrameBytes(h, ff) == Quotient(x, hz)
  {
    FrameBytesBounds(h, ff);
  }
}
