/**
 Layer III side information (section 2.4.1.7 of ISO/IEC 11172-3): the sequential
 reader `L3_read_side_info` against the fixed bit layout of the standard.
 */
module Mp3SideInfo {
  import opened Common
  import opened Bits
  import opened Mp3Header

  /** Block-specific part of a granule: 22 bits on either branch. */
  datatype Window =
    | Normal(tables: nat, region0: nat, region1: nat)
    | Switched(blockType: nat, mixed: nat, tables: nat, gain0: nat, gain1: nat, gain2: nat)

  datatype Granule = Granule(part23: nat, bigValues: nat, globalGain: nat, scalefacCompress: nat,
                             window: Window, preflag: nat, scalefacScale: nat, count1Table: nat)

  const SHORT_BLOCK_TYPE := 2

  predicate IsShort(g: Granule) { g.window.Switched? && g.window.blockType == SHORT_BLOCK_TYPE }

  // ----- The layout

  /** Number of granule records: one per channel, twice that for MPEG-1. */
  function GranuleCount(h: Header): (n: nat)
    ensures 1 <= n <= 4
  {
    Channels(h) * (if IsMpeg1(h) then 2 else 1)
  }

  function HeadBits(h: Header): nat {
    if IsMpeg1(h) then 9 + (7 + GranuleCount(h)) else 8 + GranuleCount(h)
  }

  function ScalefacBits(h: Header): nat { if IsMpeg1(h) then 4 else 9 }

  function GranuleBits(h: Header): nat { if IsMpeg1(h) then 59 else 63 }

  function SideInfoBytes(h: Header): nat {
    if IsMpeg1(h) then (if IsMono(h) then 17 else 32) else (if IsMono(h) then 9 else 17)
  }

  /** Header fields and granule records fill whole bytes. */
  lemma {:induction false} SideInfoFillsBytes(h: Header)
    ensures forall start: nat :: GranuleStart(h, start, GranuleCount(h)) == start + 8 * SideInfoBytes(h)
  {
  }

  /** First bit of record `n` of a side info that starts at bit `start`. */
  function GranuleStart(h: Header, start: nat, n: nat): nat { start + HeadBits(h) + n * GranuleBits(h) }

  function WindowAt(buf: seq<byte>, limit: int, at: nat): Window
    requires limit <= 8 * |buf|
  {
    if Read(buf, limit, at, 1) == 0 then
      Normal(Read(buf, limit, at + 1, 15), Read(buf, limit, at + 16, 4), Read(buf, limit, at + 20, 3))
    else
      Switched(Read(buf, limit, at + 1, 2), Read(buf, limit, at + 3, 1), 32 * Read(buf, limit, at + 4, 10),
               Read(buf, limit, at + 14, 3), Read(buf, limit, at + 17, 3), Read(buf, limit, at + 20, 3))
  }

  /** The granule record whose first bit is `at`. */
  function GranuleAt(buf: seq<byte>, limit: int, h: Header, at: nat): Granule
    requires limit <= 8 * |buf|
  {
    var w := ScalefacBits(h);
    var compress := Read(buf, limit, at + 29, w);
    Granule(Read(buf, limit, at, 12), Read(buf, limit, at + 12, 9), Read(buf, limit, at + 21, 8), compress,
            WindowAt(buf, limit, at + 29 + w),
            if IsMpeg1(h) then Read(buf, limit, at + 56, 1) else if compress >= 500 then 1 else 0,
            Read(buf, limit, at + GranuleBits(h) - 2, 1), Read(buf, limit, at + GranuleBits(h) - 1, 1))
  }

  /** The first `n` records of a side info that starts at bit `start`. */
  function Granules(buf: seq<byte>, limit: int, h: Header, start: nat, n: nat): (gs: seq<Granule>)
    requires limit <= 8 * |buf|
    ensures |gs| == n
  {
    seq(n, g requires 0 <= g => GranuleAt(buf, limit, h, GranuleStart(h, start, g)))
  }

  function MainDataBegin(buf: seq<byte>, limit: int, h: Header, start: nat): nat
    requires limit <= 8 * |buf|
  {
    if IsMpeg1(h) then Read(buf, limit, start, 9)
    else Shr(Read(buf, limit, start, 8 + GranuleCount(h)), GranuleCount(h))
  }

  /** The `scfsi` word: private bits followed by four bits per channel (MPEG-1 only). */
  function ScfsiWord(buf: seq<byte>, limit: int, h: Header, start: nat): nat
    requires limit <= 8 * |buf|
  {
    if IsMpeg1(h) then Read(buf, limit, start + 9, 7 + GranuleCount(h)) else 0
  }

  function Part23Sum(gs: seq<Granule>): nat {
    if gs == [] then 0 else Part23Sum(gs[..|gs| - 1]) + gs[|gs| - 1].part23
  }

  predicate WindowOk(w: Window) { !(w.Switched? && w.blockType == 0) }

  predicate GranuleOk(g: Granule) { g.bigValues <= 288 && WindowOk(g.window) }

  /** Side info that is accepted: sound records whose main data can be there. */
  predicate SideInfoOk(buf: seq<byte>, limit: int, h: Header, start: nat)
    requires limit <= 8 * |buf|
  {
    var gs := Granules(buf, limit, h, start, GranuleCount(h));
    (forall g :: g in gs ==> GranuleOk(g))
    && Part23Sum(gs) + start + 8 * SideInfoBytes(h) <= limit + 8 * MainDataBegin(buf, limit, h, start)
  }

  lemma {:induction false} RefusedGranule(buf: seq<byte>, limit: int, h: Header, start: nat, n: nat)
    requires limit <= 8 * |buf| && n < GranuleCount(h)
    requires !GranuleOk(GranuleAt(buf, limit, h, GranuleStart(h, start, n)))
    ensures !SideInfoOk(buf, limit, h, start)
  {
    var gs := Granules(buf, limit, h, start, GranuleCount(h));
    assert gs[n] in gs;
  }

  /** In MPEG-2 the main-data pointer is the first byte, whatever private bits follow. */
  lemma {:induction false} MainDataBeginLsf(buf: seq<byte>, limit: int, h: Header, start: nat)
    requires limit <= 8 * |buf| && !IsMpeg1(h) && start + 8 + GranuleCount(h) <= limit
    ensures MainDataBegin(buf, limit, h, start) == Value(buf, start, 8)
  {
    var n := GranuleCount(h);
    ValueSplit(buf, start, 8, n);
    ValueBound(buf, start + 8, n);
    DivUnique(Value(buf, start, 8 + n), Pow2(n), Value(buf, start, 8), Value(buf, start + 8, n));
  }

  lemma {:induction false} MainDataBeginBound(buf: seq<byte>, limit: int, h: Header, start: nat)
    requires limit <= 8 * |buf|
    ensures MainDataBegin(buf, limit, h, start) <= 511
  {
    Pow2Values();
    assert Pow2(9) == 512;
    if IsMpeg1(h) {
      if start + 9 <= limit { ValueBound(buf, start, 9); }
    } else if start + 8 + GranuleCount(h) <= limit {
      MainDataBeginLsf(buf, limit, h, start);
      ValueBound(buf, start, 8);
    } else {
      assert Shr(0, GranuleCount(h)) == 0 by { DivUnique(0, Pow2(GranuleCount(h)), 0, 0); }
    }
  }

  // ----- Scale factor selection

  /** `x & 0x0F0F` */
  function Mask0F0F(x: nat): nat { x % 16 + 256 * ((x / 256) % 16) }

  /** The word as it stands when a granule takes bits 12 to 15. */
  function ScfsiNow(x: nat, mono: bool, short: bool): nat {
    var y := if mono then 16 * x else x;
    if short then Mask0F0F(y) else y
  }

  /** The low sixteen bits of the word in hexadecimal digits. */
  datatype Nibbles = Nibbles(n3: nat, n2: nat, n1: nat, n0: nat) {
    predicate Valid() { n3 < 16 && n2 < 16 && n1 < 16 && n0 < 16 }

    function Num(): nat { 4096 * n3 + 256 * n2 + 16 * n1 + n0 }

    function Shl4(): Nibbles { Nibbles(n2, n1, n0, 0) }

    function Now(mono: bool, short: bool): Nibbles {
      var y := if mono then Shl4() else this;
      if short then Nibbles(0, y.n2, 0, y.n0) else y
    }

    predicate Shows(x: nat) { Valid() && x % 65536 == Num() }
  }

  function ToNibbles(x: nat): (w: Nibbles)
    ensures w.Shows(x)
  {
    Hexadecimal(x, x / 16, x / 256, x / 4096, x / 65536);
    Nibbles(x / 4096 % 16, x / 256 % 16, x / 16 % 16, x % 16)
  }

  lemma Hexadecimal(x: nat, x1: nat, x2: nat, x3: nat, x4: nat)
    requires x1 == x / 16 && x2 == x / 256 && x3 == x / 4096 && x4 == x / 65536
    ensures x % 65536 == 4096 * (x3 % 16) + 256 * (x2 % 16) + 16 * (x1 % 16) + x % 16
  {
    assert x2 == x1 / 16 && x3 == x2 / 16 && x4 == x3 / 16;
  }

  lemma {:induction false} ShiftNibbles(w: Nibbles, x: nat)
    requires w.Shows(x)
    ensures w.Shl4().Shows(16 * x)
  {
    ShiftDigits(x, x / 65536, w.n3, 256 * w.n2 + 16 * w.n1 + w.n0);
  }

  lemma ShiftDigits(x: nat, hi: nat, top: nat, low: nat)
    requires x == 65536 * hi + 4096 * top + low && low < 4096
    ensures (16 * x) % 65536 == 16 * low
  {
    assert 16 * x == 65536 * (16 * hi + top) + 16 * low;
  }

  lemma {:induction false} MaskDigits(x: nat, hi: nat, w: Nibbles)
    requires w.Valid() && x == 65536 * hi + w.Num()
    ensures Mask0F0F(x) == 256 * w.n2 + w.n0 && (x / 4096) % 16 == w.n3
  {
    DivUnique(x, 4096, 16 * hi + w.n3, 256 * w.n2 + 16 * w.n1 + w.n0);
    DivUnique(x, 256, 16 * (16 * hi + w.n3) + w.n2, 16 * w.n1 + w.n0);
    LowDigit(hi, w.n3);
    LowDigit(16 * hi + w.n3, w.n2);
    LowDigit(4096 * hi + 256 * w.n3 + 16 * w.n2 + w.n1, w.n0);
  }

  lemma LowDigit(q: nat, r: nat)
    requires r < 16
    ensures (16 * q + r) % 16 == r
  {
  }

  lemma {:induction false} MaskNibbles(w: Nibbles, x: nat)
    requires w.Shows(x)
    ensures (x / 4096) % 16 == w.n3
    ensures Nibbles(0, w.n2, 0, w.n0).Shows(Mask0F0F(x))
  {
    MaskDigits(x, x / 65536, w);
  }

  /** Masks and shifts on the number act on its digits. */
  lemma {:induction false} NibblesAct(w: Nibbles, x: nat, mono: bool, short: bool)
    requires w.Shows(x)
    ensures w.Now(mono, short).Shows(ScfsiNow(x, mono, short))
  {
    if mono { ShiftNibbles(w, x); }
    var y, v := if mono then w.Shl4() else w, if mono then 16 * x else x;
    if short { MaskNibbles(y, v); }
  }

  predicate ScfsiStep(w: Nibbles, w': Nibbles, mono: bool, short: bool, scfsi: nat) {
    scfsi == w.Now(mono, short).n3 && w' == w.Now(mono, short).Shl4()
  }

  /**
   The records take their `scfsi` from one word that is masked and shifted from
   record to record: `words[g]` is the word on arrival at record `g`.
   */
  ghost predicate ScfsiChain(words: seq<Nibbles>, mono: bool, gs: seq<Granule>, scfsi: seq<nat>) {
    |words| == |gs| + 1 && |scfsi| == |gs|
    && forall g :: 0 <= g < |gs| ==> ScfsiStep(words[g], words[g + 1], mono, IsShort(gs[g]), scfsi[g])
  }

  /**
   Shifting and masking gives each second-granule record the bits of its channel,
   or 0 if either granule of that channel uses short blocks.  A first-granule
   record, for which the standard has no bits, gets leading private bits unless it
   is short; so it is 0, as the standard wants, exactly when it is short or those
   bits are 0.
   */
  lemma {:induction false} ScfsiStereo(words: seq<Nibbles>, gs: seq<Granule>, scfsi: seq<nat>, private: nat, ch0: nat, ch1: nat)
    requires |gs| == 4 && ScfsiChain(words, false, gs, scfsi) && words[0] == Nibbles(0, private, ch0, ch1)
    ensures scfsi[2] == if IsShort(gs[0]) || IsShort(gs[2]) then 0 else ch0
    ensures scfsi[3] == if IsShort(gs[1]) || IsShort(gs[3]) then 0 else ch1
    ensures scfsi[0] == 0
    ensures scfsi[1] == if IsShort(gs[1]) then 0 else private
  {
    var s0, s1, s2, s3 := IsShort(gs[0]), IsShort(gs[1]), IsShort(gs[2]), IsShort(gs[3]);
    assert ScfsiStep(words[0], words[0 + 1], false, s0, scfsi[0]);
    assert ScfsiStep(words[1], words[1 + 1], false, s1, scfsi[1]);
    assert ScfsiStep(words[2], words[2 + 1], false, s2, scfsi[2]);
    assert ScfsiStep(words[3], words[3 + 1], false, s3, scfsi[3]);
    FourSteps(words[0], words[1], words[2], words[3], words[4], s0, s1, s2, s3, scfsi[0], scfsi[1], scfsi[2], scfsi[3]);
  }

  lemma {:induction false} FourSteps(w: Nibbles, w1: Nibbles, w2: Nibbles, w3: Nibbles, w4: Nibbles,
                  s0: bool, s1: bool, s2: bool, s3: bool, f0: nat, f1: nat, f2: nat, f3: nat)
    requires w.n3 == 0
    requires ScfsiStep(w, w1, false, s0, f0) && ScfsiStep(w1, w2, false, s1, f1)
    requires ScfsiStep(w2, w3, false, s2, f2) && ScfsiStep(w3, w4, false, s3, f3)
    ensures f0 == 0 && f1 == (if s1 then 0 else w.n2)
    ensures f2 == if s0 || s2 then 0 else w.n1
    ensures f3 == if s1 || s3 then 0 else w.n0
  {
  }

  lemma {:induction false} ScfsiMono(words: seq<Nibbles>, gs: seq<Granule>, scfsi: seq<nat>, p1: nat, p0: nat, ch0: nat)
    requires |gs| == 2 && ScfsiChain(words, true, gs, scfsi) && words[0] == Nibbles(0, p1, p0, ch0)
    ensures scfsi[1] == if IsShort(gs[0]) || IsShort(gs[1]) then 0 else ch0
    ensures scfsi[0] == if IsShort(gs[0]) then 0 else p1
  {
    assert ScfsiStep(words[0], words[0 + 1], true, IsShort(gs[0]), scfsi[0]);
    assert ScfsiStep(words[1], words[1 + 1], true, IsShort(gs[1]), scfsi[1]);
  }

  /** The word as digits: private bits, then four bits per channel. */
  lemma {:induction false} ScfsiFields(buf: seq<byte>, limit: int, h: Header, start: nat)
    requires limit <= 8 * |buf| && IsMpeg1(h) && start + HeadBits(h) <= limit
    ensures var p := if IsMono(h) then 1 else 3;
      ToNibbles(ScfsiWord(buf, limit, h, start))
      == Nibbles(0, Value(buf, start + 9, p), Value(buf, start + 9 + p, 4), Value(buf, start + 13 + p, 4))
  {
    var p := if IsMono(h) then 1 else 3;
    assert ScfsiWord(buf, limit, h, start) == Value(buf, start + 9, p + 8);
    FieldDigits(buf, start + 9, p);
  }

  lemma {:induction false} FieldDigits(buf: seq<byte>, pos: nat, p: nat)
    requires p <= 4 && pos + p + 8 <= 8 * |buf|
    ensures ToNibbles(Value(buf, pos, p + 8))
      == Nibbles(0, Value(buf, pos, p), Value(buf, pos + p, 4), Value(buf, pos + p + 4, 4))
  {
    ThreeFields(buf, pos, p);
    Digits(Value(buf, pos, p), Value(buf, pos + p, 4), Value(buf, pos + p + 4, 4));
  }

  lemma {:induction false} ThreeFields(buf: seq<byte>, pos: nat, p: nat)
    requires p <= 4 && pos + p + 8 <= 8 * |buf|
    ensures var a, b, c := Value(buf, pos, p), Value(buf, pos + p, 4), Value(buf, pos + p + 4, 4);
      a < 16 && b < 16 && c < 16 && Value(buf, pos, p + 8) == (a * 16 + b) * 16 + c
  {
    assert Pow2(4) == 16 by { Pow2Values(); }
    ValueSplit(buf, pos, p + 4, 4);
    ValueSplit(buf, pos, p, 4);
    Nibble(buf, pos, p);
    Nibble(buf, pos + p, 4);
    Nibble(buf, pos + p + 4, 4);
  }

  lemma Nibble(buf: seq<byte>, pos: nat, n: nat)
    requires n <= 4 && pos + n <= 8 * |buf|
    ensures Value(buf, pos, n) < 16
  {
    Pow2Values();
    ValueBound(buf, pos, n);
  }

  lemma Digits(a: nat, b: nat, c: nat)
    requires a < 16 && b < 16 && c < 16
    ensures ToNibbles((a * 16 + b) * 16 + c) == Nibbles(0, a, b, c)
  {
    var x := (a * 16 + b) * 16 + c;
    DivUnique(x, 16, 16 * a + b, c);
    DivUnique(x, 256, a, 16 * b + c);
    DivUnique(x, 4096, 0, x);
    LowDigit(16 * a + b, c);
    LowDigit(a, b);
    LowDigit(0, a);
  }

  /**
   What the records get as `scfsi`.  In MPEG-1 each record of the second granule gets the
   four bits of its channel, or 0 if a granule of the channel is short, as the standard
   has it.  A first-granule record gets private bits of the frame unless it is short.
   In MPEG-2 all get 0.
   */
  predicate Selected(buf: seq<byte>, h: Header, start: nat, gs: seq<Granule>, scfsi: seq<nat>)
    requires |gs| == |scfsi| == GranuleCount(h) && start + HeadBits(h) <= 8 * |buf|
  {
    if !IsMpeg1(h) then
      forall g :: 0 <= g < |scfsi| ==> scfsi[g] == 0
    else if IsMono(h) then
      && scfsi[1] == (if IsShort(gs[0]) || IsShort(gs[1]) then 0 else Value(buf, start + 14, 4))
      && scfsi[0] == (if IsShort(gs[0]) then 0 else Value(buf, start + 9, 1))
    else
      && scfsi[2] == (if IsShort(gs[0]) || IsShort(gs[2]) then 0 else Value(buf, start + 12, 4))
      && scfsi[3] == (if IsShort(gs[1]) || IsShort(gs[3]) then 0 else Value(buf, start + 16, 4))
      && scfsi[0] == 0 && scfsi[1] == (if IsShort(gs[1]) then 0 else Value(buf, start + 9, 3))
  }

  lemma {:induction false} SelectionBits(buf: seq<byte>, limit: int, h: Header, start: nat,
                                         words: seq<Nibbles>, gs: seq<Granule>, scfsi: seq<nat>)
    requires limit <= 8 * |buf| && start + HeadBits(h) <= limit && |gs| == GranuleCount(h)
    requires ScfsiChain(words, IsMono(h), gs, scfsi) && words[0] == ToNibbles(ScfsiWord(buf, limit, h, start))
    ensures Selected(buf, h, start, gs, scfsi)
  {
    if !IsMpeg1(h) {
      ZeroDigits();
      SelectedNone(buf, h, start, words, gs, scfsi);
    } else if IsMono(h) {
      ScfsiFields(buf, limit, h, start);
      SelectedMono(buf, h, start, words, gs, scfsi);
    } else {
      ScfsiFields(buf, limit, h, start);
      SelectedStereo(buf, h, start, words, gs, scfsi);
    }
  }

  lemma ZeroDigits()
    ensures ToNibbles(0) == Nibbles(0, 0, 0, 0)
  {
  }

  lemma {:induction false} SelectedNone(buf: seq<byte>, h: Header, start: nat, words: seq<Nibbles>, gs: seq<Granule>,
                                        scfsi: seq<nat>)
    requires !IsMpeg1(h) && start + HeadBits(h) <= 8 * |buf| && |gs| == GranuleCount(h)
    requires ScfsiChain(words, IsMono(h), gs, scfsi) && words[0] == Nibbles(0, 0, 0, 0)
    ensures Selected(buf, h, start, gs, scfsi)
  {
    NothingSelected(words, IsMono(h), gs, scfsi, |gs|);
  }

  lemma {:induction false} SelectedMono(buf: seq<byte>, h: Header, start: nat, words: seq<Nibbles>, gs: seq<Granule>,
                                        scfsi: seq<nat>)
    requires IsMpeg1(h) && IsMono(h) && start + HeadBits(h) <= 8 * |buf| && |gs| == GranuleCount(h)
    requires ScfsiChain(words, true, gs, scfsi)
    requires words[0] == Nibbles(0, Value(buf, start + 9, 1), Value(buf, start + 10, 4), Value(buf, start + 14, 4))
    ensures Selected(buf, h, start, gs, scfsi)
  {
    ScfsiMono(words, gs, scfsi, words[0].n2, words[0].n1, words[0].n0);
  }

  lemma {:induction false} SelectedStereo(buf: seq<byte>, h: Header, start: nat, words: seq<Nibbles>, gs: seq<Granule>,
                                          scfsi: seq<nat>)
    requires IsMpeg1(h) && !IsMono(h) && start + HeadBits(h) <= 8 * |buf| && |gs| == GranuleCount(h)
    requires ScfsiChain(words, false, gs, scfsi)
    requires words[0] == Nibbles(0, Value(buf, start + 9, 3), Value(buf, start + 12, 4), Value(buf, start + 16, 4))
    ensures Selected(buf, h, start, gs, scfsi)
  {
    ScfsiStereo(words, gs, scfsi, words[0].n2, words[0].n1, words[0].n0);
  }

  lemma {:induction false} NothingSelected(words: seq<Nibbles>, mono: bool, gs: seq<Granule>, scfsi: seq<nat>, n: nat)
    requires ScfsiChain(words, mono, gs, scfsi) && words[0] == Nibbles(0, 0, 0, 0) && n <= |gs|
    ensures words[n] == Nibbles(0, 0, 0, 0) && forall g :: 0 <= g < n ==> scfsi[g] == 0
    decreases n
  {
    if n > 0 {
      NothingSelected(words, mono, gs, scfsi, n - 1);
      assert ScfsiStep(words[n - 1], words[n - 1 + 1], mono, IsShort(gs[n - 1]), scfsi[n - 1]);
    }
  }

  // ----- A frame whose private bits are taken for a selection

  function Zeros(n: nat): seq<byte> { seq(n, _ => 0) }

  lemma {:induction false} ZeroBits(buf: seq<byte>, pos: nat, n: nat)
    requires pos + n <= 8 * |buf|
    requires forall i :: pos <= i < pos + n ==> Bit(buf, i) == 0
    ensures Value(buf, pos, n) == 0
  {
    if n > 0 {
      ZeroBits(buf, pos, n - 1);
    }
  }

  /** Byte 1 holds the private bits, all set; everything else is zero. */
  function PrivateBits(): seq<byte> { [0, 0x70] + Zeros(30) }

  lemma PrivateBit(i: nat)
    requires i < 256
    ensures Bit(PrivateBits(), i) == if 9 <= i < 12 then 1 else 0
  {
    Pow2Values();
    var buf := PrivateBits();
    if i < 8 {
      assert buf[i / 8] == 0;
    } else if i < 16 {
      assert i / 8 == 1 && buf[1] == 0x70;
    } else {
      assert i / 8 >= 2 && buf[i / 8] == 0;
    }
  }

  lemma {:induction false} QuietRead(pos: nat, n: nat)
    requires 12 <= pos && pos + n <= 256
    ensures Read(PrivateBits(), 256, pos, n) == 0
  {
    forall i | pos <= i < pos + n ensures Bit(PrivateBits(), i) == 0 {
      PrivateBit(i);
    }
    ZeroBits(PrivateBits(), pos, n);
  }

  lemma {:induction false} QuietGranule(h: Header, at: nat)
    requires IsMpeg1(h) && 12 <= at && at + 59 <= 256
    ensures GranuleAt(PrivateBits(), 256, h, at) == Granule(0, 0, 0, 0, Normal(0, 0, 0), 0, 0, 0)
  {
    QuietRead(at, 12);
    QuietRead(at + 12, 9);
    QuietRead(at + 21, 8);
    QuietRead(at + 29, 4);
    QuietRead(at + 33, 1);
    QuietRead(at + 34, 15);
    QuietRead(at + 49, 4);
    QuietRead(at + 53, 3);
    QuietRead(at + 56, 1);
    QuietRead(at + 57, 1);
    QuietRead(at + 58, 1);
  }

  /** Such a stereo frame is accepted, and the second record of its first granule gets 7. */
  lemma {:induction false} PrivateBitsSelected(h: Header, scfsi: seq<nat>)
    requires IsMpeg1(h) && !IsMono(h) && |scfsi| == 4
    ensures var gs := Granules(PrivateBits(), 256, h, 0, 4);
      && SideInfoOk(PrivateBits(), 256, h, 0)
      && (Selected(PrivateBits(), h, 0, gs, scfsi) ==> scfsi[1] == 7)
  {
    PrivateAccepted(h);
    var gs := Granules(PrivateBits(), 256, h, 0, 4);
    assert gs[1] in gs;
    SetBits();
  }

  lemma {:induction false} PrivateAccepted(h: Header)
    requires IsMpeg1(h) && !IsMono(h)
    ensures SideInfoOk(PrivateBits(), 256, h, 0)
    ensures forall g :: g in Granules(PrivateBits(), 256, h, 0, 4) ==> !IsShort(g)
  {
    QuietGranules(h);
    NoData(Granules(PrivateBits(), 256, h, 0, 4));
  }

  lemma {:induction false} QuietGranules(h: Header)
    requires IsMpeg1(h) && !IsMono(h)
    ensures forall g :: g in Granules(PrivateBits(), 256, h, 0, 4) ==> g == Granule(0, 0, 0, 0, Normal(0, 0, 0), 0, 0, 0)
  {
    var gs := Granules(PrivateBits(), 256, h, 0, 4);
    forall g | 0 <= g < 4 ensures gs[g] == Granule(0, 0, 0, 0, Normal(0, 0, 0), 0, 0, 0) {
      QuietGranule(h, 20 + 59 * g);
    }
  }

  lemma {:induction false} NoData(gs: seq<Granule>)
    requires forall g :: g in gs ==> g.part23 == 0
    ensures Part23Sum(gs) == 0
  {
    if gs != [] { NoData(gs[..|gs| - 1]); }
  }

  lemma SetBits()
    ensures Value(PrivateBits(), 9, 3) == 7
  {
    var buf := PrivateBits();
    PrivateBit(9);
    PrivateBit(10);
    PrivateBit(11);
    assert Value(buf, 9, 0) == 0;
    assert Value(buf, 9, 1) == 1;
    assert Value(buf, 9, 2) == 3;
  }

  // ----- The reader

  method ReadWindow(bs: BitReader) returns (w: Window, ok: bool)
    requires bs.Valid()
    modifies bs
    ensures ok == WindowOk(WindowAt(bs.buf, bs.limit, old(bs.pos)))
    ensures ok ==> w == WindowAt(bs.buf, bs.limit, old(bs.pos)) && bs.pos == old(bs.pos) + 23
  {
    var switched := bs.GetBits(1);
    if switched != 0 {
      var blockType := bs.GetBits(2);
      if blockType == 0 {
        return Normal(0, 0, 0), false;
      }
      var mixed := bs.GetBits(1);
      var tables := bs.GetBits(10);
      var g0 := bs.GetBits(3);
      var g1 := bs.GetBits(3);
      var g2 := bs.GetBits(3);
      w := Switched(blockType, mixed, 32 * tables, g0, g1, g2);
    } else {
      var tables := bs.GetBits(15);
      var r0 := bs.GetBits(4);
      var r1 := bs.GetBits(3);
      w := Normal(tables, r0, r1);
    }
    ok := true;
  }

  method ReadFlags(bs: BitReader, h: Header, compress: nat) returns (preflag: nat, scale: nat, count1: nat)
    requires bs.Valid()
    modifies bs
    ensures IsMpeg1(h) ==> preflag == Read(bs.buf, bs.limit, old(bs.pos), 1) && bs.pos == old(bs.pos) + 3
    ensures !IsMpeg1(h) ==> preflag == (if compress >= 500 then 1 else 0) && bs.pos == old(bs.pos) + 2
    ensures scale == Read(bs.buf, bs.limit, bs.pos - 2, 1) && count1 == Read(bs.buf, bs.limit, bs.pos - 1, 1)
  {
    preflag := 0;
    if IsMpeg1(h) {
      preflag := bs.GetBits(1);
    } else if compress >= 500 {
      preflag := 1;
    }
    scale := bs.GetBits(1);
    count1 := bs.GetBits(1);
  }

  /** Reads one record; `ok` is false when the record is refused. */
  method ReadGranule(bs: BitReader, h: Header) returns (g: Granule, ok: bool)
    requires bs.Valid()
    modifies bs
    ensures ok == GranuleOk(GranuleAt(bs.buf, bs.limit, h, old(bs.pos)))
    ensures ok ==> g == GranuleAt(bs.buf, bs.limit, h, old(bs.pos)) && bs.pos == old(bs.pos) + GranuleBits(h)
  {
    ghost var at := bs.pos;
    var part23 := bs.GetBits(12);
    var bigValues := bs.GetBits(9);
    g := Granule(part23, bigValues, 0, 0, Normal(0, 0, 0), 0, 0, 0);
    if bigValues > 288 {
      return g, false;
    }
    var globalGain := bs.GetBits(8);
    var compress := bs.GetBits(ScalefacBits(h));
    assert bs.pos == at + 29 + ScalefacBits(h);
    var window;
    window, ok := ReadWindow(bs);
    if !ok {
      return;
    }
    assert bs.pos == at + (if IsMpeg1(h) then 56 else 61);
    var preflag, scale, count1 := ReadFlags(bs, h, compress);
    g := Granule(part23, bigValues, globalGain, compress, window, preflag, scale, count1);
  }

  /** What the reader returns: -1, or the main-data pointer with the records and their `scfsi`. */
  datatype SideInfo = SideInfo(mainDataBegin: int, granules: seq<Granule>, scfsi: seq<nat>)

  method ReadHead(bs: BitReader, h: Header) returns (begin: nat, word: nat)
    requires bs.Valid()
    modifies bs
    ensures begin == MainDataBegin(bs.buf, bs.limit, h, old(bs.pos))
    ensures word == ScfsiWord(bs.buf, bs.limit, h, old(bs.pos))
    ensures bs.pos == old(bs.pos) + HeadBits(h)
  {
    word := 0;
    if IsMpeg1(h) {
      begin := bs.GetBits(9);
      word := bs.GetBits(7 + GranuleCount(h));
    } else {
      var bits := bs.GetBits(8 + GranuleCount(h));
      begin := Shr(bits, GranuleCount(h));
    }
  }

  lemma {:induction false} GrowGranules(gs: seq<Granule>, g: Granule, all: seq<Granule>)
    requires |gs| < |all| && gs == all[..|gs|] && g == all[|gs|]
    ensures gs + [g] == all[..|gs| + 1] && Part23Sum(gs + [g]) == Part23Sum(gs) + g.part23
    ensures (forall x :: x in gs ==> GranuleOk(x)) && GranuleOk(g) ==> forall x :: x in gs + [g] ==> GranuleOk(x)
  {
    assert (gs + [g])[..|gs|] == gs;
  }

  lemma {:induction false} GrowChain(words: seq<Nibbles>, mono: bool, gs: seq<Granule>, scfsi: seq<nat>,
                                     g: Granule, field: nat, w: Nibbles)
    requires ScfsiChain(words, mono, gs, scfsi) && ScfsiStep(words[|gs|], w, mono, IsShort(g), field)
    ensures ScfsiChain(words + [w], mono, gs + [g], scfsi + [field])
  {
    forall i | 0 <= i < |gs + [g]|
      ensures ScfsiStep((words + [w])[i], (words + [w])[i + 1], mono, IsShort((gs + [g])[i]), (scfsi + [field])[i])
    {
      if i < |gs| { assert ScfsiStep(words[i], words[i + 1], mono, IsShort(gs[i]), scfsi[i]); }
    }
  }

  /** Takes the four bits of one record out of the word. */
  method TakeScfsi(word: nat, mono: bool, short: bool, ghost w: Nibbles) returns (scfsi: nat, word': nat, ghost w': Nibbles)
    requires w.Shows(word)
    ensures ScfsiStep(w, w', mono, short, scfsi) && w'.Shows(word')
  {
    NibblesAct(w, word, mono, short);
    var now := ScfsiNow(word, mono, short);
    MaskNibbles(w.Now(mono, short), now);
    ShiftNibbles(w.Now(mono, short), now);
    scfsi, word', w' := (now / 4096) % 16, 16 * now, w.Now(mono, short).Shl4();
  }

  /** Reads all records, or stops at the first one that is refused. */
  method ReadGranules(bs: BitReader, h: Header, word0: nat, ghost start: nat)
    returns (gs: seq<Granule>, scfsi: seq<nat>, sum: nat, ok: bool, ghost words: seq<Nibbles>)
    requires bs.Valid() && bs.pos == start + HeadBits(h)
    modifies bs
    ensures !ok ==> !SideInfoOk(bs.buf, bs.limit, h, start)
    ensures ok ==>
      && gs == Granules(bs.buf, bs.limit, h, start, GranuleCount(h)) && sum == Part23Sum(gs)
      && (forall g :: g in gs ==> GranuleOk(g))
      && bs.pos == start + 8 * SideInfoBytes(h)
      && ScfsiChain(words, IsMono(h), gs, scfsi) && words[0] == ToNibbles(word0)
  {
    ghost var all := Granules(bs.buf, bs.limit, h, start, GranuleCount(h));
    gs, scfsi, sum, words := [], [], 0, [ToNibbles(word0)];
    var word := word0;
    while |gs| < GranuleCount(h)
      invariant |gs| <= GranuleCount(h) && gs == all[..|gs|]
      invariant bs.pos == GranuleStart(h, start, |gs|)
      invariant forall g :: g in gs ==> GranuleOk(g)
      invariant sum == Part23Sum(gs)
      invariant ScfsiChain(words, IsMono(h), gs, scfsi) && words[0] == ToNibbles(word0)
      invariant words[|gs|].Shows(word)
      decreases GranuleCount(h) - |gs|
    {
      ghost var n := |gs|;
      var g;
      g, ok := ReadGranule(bs, h);
      if !ok {
        RefusedGranule(bs.buf, bs.limit, h, start, n);
        return;
      }
      sum := sum + g.part23;
      var field;
      ghost var w;
      field, word, w := TakeScfsi(word, IsMono(h), IsShort(g), words[n]);
      GrowChain(words, IsMono(h), gs, scfsi, g, field, w);
      GrowGranules(gs, g, all);
      scfsi, words := scfsi + [field], words + [w];
      gs := gs + [g];
    }
    SideInfoFillsBytes(h);
    ok := true;
  }

  /** Reads the side info and refuses it unless the data of all records can be there. */
  method ReadChecked(bs: BitReader, h: Header) returns (info: SideInfo, ghost words: seq<Nibbles>)
    requires bs.Valid()
    modifies bs
    ensures info.mainDataBegin >= 0 <==> SideInfoOk(bs.buf, bs.limit, h, old(bs.pos))
    ensures info.mainDataBegin >= 0 ==>
      && info.mainDataBegin == MainDataBegin(bs.buf, bs.limit, h, old(bs.pos))
      && info.granules == Granules(bs.buf, bs.limit, h, old(bs.pos), GranuleCount(h))
      && bs.pos == old(bs.pos) + 8 * SideInfoBytes(h)
      && ScfsiChain(words, IsMono(h), info.granules, info.scfsi)
      && words[0] == ToNibbles(ScfsiWord(bs.buf, bs.limit, h, old(bs.pos)))
  {
    ghost var start := bs.pos;
    var begin, word := ReadHead(bs, h);
    var gs, scfsi, sum, ok;
    gs, scfsi, sum, ok, words := ReadGranules(bs, h, word, start);
    if !ok || sum + bs.pos > bs.limit + 8 * begin {
      info := SideInfo(-1, [], []);
    } else {
      info := SideInfo(begin, gs, scfsi);
    }
  }

  /** What an accepted side info holds. */
  ghost predicate Holds(info: SideInfo, buf: seq<byte>, limit: int, h: Header, start: nat)
    requires limit <= 8 * |buf|
  {
    && info.mainDataBegin == MainDataBegin(buf, limit, h, start)
    && info.granules == Granules(buf, limit, h, start, GranuleCount(h)) && |info.scfsi| == GranuleCount(h)
    && (start + 8 * SideInfoBytes(h) <= limit ==>
          start + HeadBits(h) <= 8 * |buf| && Selected(buf, h, start, info.granules, info.scfsi))
  }

  lemma HoldsAll(info: SideInfo, words: seq<Nibbles>, buf: seq<byte>, limit: int, h: Header, start: nat)
    requires limit <= 8 * |buf| && info.mainDataBegin == MainDataBegin(buf, limit, h, start)
    requires info.granules == Granules(buf, limit, h, start, GranuleCount(h))
    requires ScfsiChain(words, IsMono(h), info.granules, info.scfsi) && words[0] == ToNibbles(ScfsiWord(buf, limit, h, start))
    ensures Holds(info, buf, limit, h, start)
  {
    if start + 8 * SideInfoBytes(h) <= limit {
      assert HeadBits(h) <= 8 * SideInfoBytes(h);
      SelectionBits(buf, limit, h, start, words, info.granules, info.scfsi);
    }
  }

  /**
   Side info is accepted exactly when it is `SideInfoOk`, and then its records
   are those of the layout, their selections those of `Selected`, and exactly
   `SideInfoBytes` bytes have been read.
   */
  method ReadSideInfo(bs: BitReader, h: Header) returns (info: SideInfo)
    requires bs.Valid()
    modifies bs
    ensures info.mainDataBegin >= 0 <==> SideInfoOk(bs.buf, bs.limit, h, old(bs.pos))
    ensures info.mainDataBegin >= 0 ==>
      Holds(info, bs.buf, bs.limit, h, old(bs.pos)) && bs.pos == old(bs.pos) + 8 * SideInfoBytes(h)
  {
    ghost var words;
    info, words := ReadChecked(bs, h);
    if info.mainDataBegin >= 0 {
      HoldsAll(info, words, bs.buf, bs.limit, h, old(bs.pos));
    }
  }
}
