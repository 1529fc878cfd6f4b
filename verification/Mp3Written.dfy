/**
 Side information as an encoder writes it: the fields in the order of section 2.4.1.7 of
 ISO/IEC 11172-3 with their widths, and what the decoder reads of them.
 */
module Mp3Written {
  import opened Common
  import opened Bits
  import opened BitWriter
  import opened Mp3Header
  import opened Mp3SideInfo

  datatype WrittenWindow =
    | Long(table0: nat, table1: nat, table2: nat, region0: nat, region1: nat)
    | Special(blockType: nat, mixed: nat, table0: nat, table1: nat, gain0: nat, gain1: nat, gain2: nat)

  datatype Record = Record(part23: nat, bigValues: nat, globalGain: nat, scalefacCompress: nat,
                           window: WrittenWindow, preflag: nat, scalefacScale: nat, count1Table: nat)

  /** One side info: pointer, private bits, selection bits of each channel (MPEG-1 only), records. */
  datatype Side = Side(begin: nat, private: nat, scfsi: seq<nat>, records: seq<Record>)

  // ----- The order and the widths of the fields

  function WindowFields(w: WrittenWindow): seq<Field> {
    match w
    case Long(t0, t1, t2, r0, r1) => [Field(0, 1), Field(t0, 5), Field(t1, 5), Field(t2, 5), Field(r0, 4), Field(r1, 3)]
    case Special(b, m, t0, t1, g0, g1, g2) =>
      [Field(1, 1), Field(b, 2), Field(m, 1), Field(t0, 5), Field(t1, 5), Field(g0, 3), Field(g1, 3), Field(g2, 3)]
  }

  function LeadFields(h: Header, r: Record): seq<Field> {
    [Field(r.part23, 12), Field(r.bigValues, 9), Field(r.globalGain, 8),
     Field(r.scalefacCompress, if IsMpeg1(h) then 4 else 9)]
  }

  function FlagFields(h: Header, r: Record): seq<Field> {
    if IsMpeg1(h) then [Field(r.preflag, 1), Field(r.scalefacScale, 1), Field(r.count1Table, 1)]
    else [Field(r.scalefacScale, 1), Field(r.count1Table, 1)]
  }

  function RecordFields(h: Header, r: Record): seq<Field> {
    LeadFields(h, r) + (WindowFields(r.window) + FlagFields(h, r))
  }

  function RecordGroups(h: Header, rs: seq<Record>): seq<seq<Field>> {
    seq(|rs|, i requires 0 <= i < |rs| => RecordFields(h, rs[i]))
  }

  function HeadFields(h: Header, s: Side): seq<Field>
    requires |s.scfsi| == if IsMpeg1(h) then Channels(h) else 0
  {
    if !IsMpeg1(h) then [Field(s.begin, 8), Field(s.private, if IsMono(h) then 1 else 2)]
    else if IsMono(h) then [Field(s.begin, 9), Field(s.private, 5), Field(s.scfsi[0], 4)]
    else [Field(s.begin, 9), Field(s.private, 3), Field(s.scfsi[0], 4), Field(s.scfsi[1], 4)]
  }

  function SideFields(h: Header, s: Side): seq<Field>
    requires |s.scfsi| == if IsMpeg1(h) then Channels(h) else 0
  {
    HeadFields(h, s) + Joined(RecordGroups(h, s.records))
  }

  /** In MPEG-2 the flag is not written but follows from the compression field. */
  predicate SoundRecord(h: Header, r: Record) {
    && r.bigValues <= 288 && (r.window.Special? ==> r.window.blockType != 0)
    && (!IsMpeg1(h) ==> r.preflag == if r.scalefacCompress >= 500 then 1 else 0)
  }

  /** As many selections and records as the header wants, all fields in range, and the records sound. */
  predicate Sound(h: Header, s: Side) {
    && |s.scfsi| == (if IsMpeg1(h) then Channels(h) else 0) && |s.records| == GranuleCount(h)
    && AllFit(SideFields(h, s)) && forall i :: 0 <= i < |s.records| ==> SoundRecord(h, s.records[i])
  }

  // ----- What is read

  /** Five bits for each table; a special window has two of them. */
  function AsWindow(w: WrittenWindow): Window {
    match w
    case Long(t0, t1, t2, r0, r1) => Normal(1024 * t0 + 32 * t1 + t2, r0, r1)
    case Special(b, m, t0, t1, g0, g1, g2) => Switched(b, m, 1024 * t0 + 32 * t1, g0, g1, g2)
  }

  function AsGranule(r: Record): Granule {
    Granule(r.part23, r.bigValues, r.globalGain, r.scalefacCompress, AsWindow(r.window), r.preflag, r.scalefacScale,
            r.count1Table)
  }

  /** The fields, with the bits where they start. */
  predicate Laid(buf: seq<byte>, limit: int, fields: seq<Field>, places: seq<nat>)
    requires limit <= 8 * |buf|
  {
    |fields| == |places|
    && forall k :: 0 <= k < |fields| ==> Read(buf, limit, places[k], fields[k].width) == fields[k].value
  }

  lemma {:induction false} LaidOut(buf: seq<byte>, limit: int, fields: seq<Field>, places: seq<nat>, end: nat)
    requires |places| == |fields| > 0 && Places(fields, places + [end]) && AllFit(fields)
    requires Stands(buf, places[0], FieldBits(fields)) && end <= limit <= 8 * |buf|
    ensures places[0] + Width(fields) == end && Laid(buf, limit, fields, places)
  {
    FieldsRead(buf, limit, fields, places + [end]);
    forall k | 0 <= k < |fields| ensures Read(buf, limit, places[k], fields[k].width) == fields[k].value {
      assert (places + [end])[k] == places[k];
    }
  }

  function LongPlaces(at: nat): seq<nat> { [at, at + 1, at + 6, at + 11, at + 16, at + 20] }

  function SpecialPlaces(at: nat): seq<nat> { [at, at + 1, at + 3, at + 4, at + 9, at + 14, at + 17, at + 20] }

  lemma {:induction false} LongReads(buf: seq<byte>, limit: int, at: nat, w: WrittenWindow)
    requires w.Long? && at + 23 <= limit <= 8 * |buf| && Laid(buf, limit, WindowFields(w), LongPlaces(at))
    ensures WindowAt(buf, limit, at) == AsWindow(w)
  {
    var fs, ps := WindowFields(w), LongPlaces(at);
    assert fs[0].value == Read(buf, limit, ps[0], fs[0].width) && fs[4].value == Read(buf, limit, ps[4], fs[4].width);
    assert fs[1].value == Read(buf, limit, ps[1], fs[1].width) && fs[2].value == Read(buf, limit, ps[2], fs[2].width);
    assert fs[3].value == Read(buf, limit, ps[3], fs[3].width) && fs[5].value == Read(buf, limit, ps[5], fs[5].width);
    Tables(buf, limit, at + 1, at + 6, at + 11);
  }

  lemma {:induction false} SpecialReads(buf: seq<byte>, limit: int, at: nat, w: WrittenWindow)
    requires w.Special? && at + 23 <= limit <= 8 * |buf| && Laid(buf, limit, WindowFields(w), SpecialPlaces(at))
    ensures WindowAt(buf, limit, at) == AsWindow(w)
  {
    SpecialFields(buf, limit, at, w);
    TwoTables(buf, limit, at + 4, at + 9);
  }

  lemma {:induction false} SpecialFields(buf: seq<byte>, limit: int, at: nat, w: WrittenWindow)
    requires w.Special? && limit <= 8 * |buf| && Laid(buf, limit, WindowFields(w), SpecialPlaces(at))
    ensures Read(buf, limit, at, 1) == 1 && Read(buf, limit, at + 1, 2) == w.blockType && Read(buf, limit, at + 3, 1) == w.mixed
    ensures Read(buf, limit, at + 4, 5) == w.table0 && Read(buf, limit, at + 9, 5) == w.table1
    ensures Read(buf, limit, at + 14, 3) == w.gain0 && Read(buf, limit, at + 17, 3) == w.gain1
    ensures Read(buf, limit, at + 20, 3) == w.gain2
  {
    var fs, ps := WindowFields(w), SpecialPlaces(at);
    assert fs[0].value == Read(buf, limit, ps[0], fs[0].width) && fs[1].value == Read(buf, limit, ps[1], fs[1].width);
    assert fs[2].value == Read(buf, limit, ps[2], fs[2].width) && fs[3].value == Read(buf, limit, ps[3], fs[3].width);
    assert fs[4].value == Read(buf, limit, ps[4], fs[4].width) && fs[5].value == Read(buf, limit, ps[5], fs[5].width);
    assert fs[6].value == Read(buf, limit, ps[6], fs[6].width) && fs[7].value == Read(buf, limit, ps[7], fs[7].width);
  }

  lemma {:induction false} TwoTables(buf: seq<byte>, limit: int, pos: nat, pos1: nat)
    requires pos1 == pos + 5 && pos + 10 <= limit <= 8 * |buf|
    ensures Read(buf, limit, pos, 10) == 32 * Read(buf, limit, pos, 5) + Read(buf, limit, pos1, 5)
  {
    Pow2Values();
    ReadSplit(buf, limit, pos, 5, 5);
  }

  lemma {:induction false} Tables(buf: seq<byte>, limit: int, pos: nat, pos1: nat, pos2: nat)
    requires pos1 == pos + 5 && pos2 == pos + 10 && pos + 15 <= limit <= 8 * |buf|
    ensures Read(buf, limit, pos, 15)
         == 1024 * Read(buf, limit, pos, 5) + 32 * Read(buf, limit, pos1, 5) + Read(buf, limit, pos2, 5)
  {
    Pow2Values();
    TwoTables(buf, limit, pos, pos1);
    ReadSplit(buf, limit, pos, 10, 5);
  }

  lemma {:induction false} WindowReads(buf: seq<byte>, limit: int, at: nat, w: WrittenWindow)
    requires AllFit(WindowFields(w)) && Stands(buf, at, FieldBits(WindowFields(w))) && at + 23 <= limit <= 8 * |buf|
    ensures Width(WindowFields(w)) == 23 && WindowAt(buf, limit, at) == AsWindow(w)
  {
    if w.Long? {
      LongStands(buf, limit, at, w);
      LongReads(buf, limit, at, w);
    } else {
      SpecialStands(buf, limit, at, w);
      SpecialReads(buf, limit, at, w);
    }
  }

  lemma {:induction false} LongStands(buf: seq<byte>, limit: int, at: nat, w: WrittenWindow)
    requires w.Long? && AllFit(WindowFields(w)) && Stands(buf, at, FieldBits(WindowFields(w))) && at + 23 <= limit <= 8 * |buf|
    ensures Width(WindowFields(w)) == 23 && Laid(buf, limit, WindowFields(w), LongPlaces(at))
  {
    LaidOut(buf, limit, WindowFields(w), LongPlaces(at), at + 23);
  }

  lemma {:induction false} SpecialStands(buf: seq<byte>, limit: int, at: nat, w: WrittenWindow)
    requires w.Special? && AllFit(WindowFields(w)) && Stands(buf, at, FieldBits(WindowFields(w))) && at + 23 <= limit <= 8 * |buf|
    ensures Width(WindowFields(w)) == 23 && Laid(buf, limit, WindowFields(w), SpecialPlaces(at))
  {
    LaidOut(buf, limit, WindowFields(w), SpecialPlaces(at), at + 23);
  }

  function LeadPlaces(at: nat): seq<nat> { [at, at + 12, at + 21, at + 29] }

  lemma {:induction false} LeadReads(buf: seq<byte>, limit: int, h: Header, at: nat, r: Record)
    requires limit <= 8 * |buf| && Laid(buf, limit, LeadFields(h, r), LeadPlaces(at))
    ensures Read(buf, limit, at, 12) == r.part23 && Read(buf, limit, at + 12, 9) == r.bigValues
    ensures Read(buf, limit, at + 21, 8) == r.globalGain && Read(buf, limit, at + 29, ScalefacBits(h)) == r.scalefacCompress
  {
    var fs, ps := LeadFields(h, r), LeadPlaces(at);
    assert fs[0].value == Read(buf, limit, ps[0], fs[0].width) && fs[1].value == Read(buf, limit, ps[1], fs[1].width);
    assert fs[2].value == Read(buf, limit, ps[2], fs[2].width) && fs[3].value == Read(buf, limit, ps[3], fs[3].width);
  }

  function FlagPlaces(h: Header, at: nat): seq<nat> { if IsMpeg1(h) then [at + 56, at + 57, at + 58] else [at + 61, at + 62] }

  lemma {:induction false} FlagsRead(buf: seq<byte>, limit: int, h: Header, at: nat, r: Record, a: nat, b: nat)
    requires limit <= 8 * |buf| && Laid(buf, limit, FlagFields(h, r), FlagPlaces(h, at))
    requires a == at + GranuleBits(h) - 2 && b == at + GranuleBits(h) - 1
    ensures IsMpeg1(h) ==> Read(buf, limit, at + 56, 1) == r.preflag
    ensures Read(buf, limit, a, 1) == r.scalefacScale && Read(buf, limit, b, 1) == r.count1Table
  {
    var fs, ps := FlagFields(h, r), FlagPlaces(h, at);
    var n := |fs|;
    assert fs[n - 2].value == Read(buf, limit, ps[n - 2], fs[n - 2].width);
    assert fs[n - 1].value == Read(buf, limit, ps[n - 1], fs[n - 1].width);
    assert fs[0].value == Read(buf, limit, ps[0], fs[0].width);
  }

  /** A written record is read back, on both window branches and for both versions. */
  lemma {:induction false} RecordReads(buf: seq<byte>, limit: int, h: Header, at: nat, r: Record)
    requires SoundRecord(h, r) && AllFit(RecordFields(h, r)) && Stands(buf, at, FieldBits(RecordFields(h, r)))
    requires at + GranuleBits(h) <= limit <= 8 * |buf|
    ensures GranuleAt(buf, limit, h, at) == AsGranule(r) && GranuleOk(AsGranule(r))
    ensures Width(RecordFields(h, r)) == GranuleBits(h)
  {
    PartWidths(h, r);
    PartsStand(buf, limit, h, at, r);
    LeadReads(buf, limit, h, at, r);
    FlagsRead(buf, limit, h, at, r, at + GranuleBits(h) - 2, at + GranuleBits(h) - 1);
  }

  lemma {:induction false} LeadStands(buf: seq<byte>, limit: int, h: Header, at: nat, r: Record, end: nat)
    requires AllFit(LeadFields(h, r)) && Stands(buf, at, FieldBits(LeadFields(h, r)))
    requires end == at + 29 + ScalefacBits(h) <= limit <= 8 * |buf|
    ensures Laid(buf, limit, LeadFields(h, r), LeadPlaces(at))
  {
    LaidOut(buf, limit, LeadFields(h, r), LeadPlaces(at), end);
  }

  lemma {:induction false} FlagsStand(buf: seq<byte>, limit: int, h: Header, at: nat, r: Record, start: nat, end: nat)
    requires AllFit(FlagFields(h, r)) && Stands(buf, start, FieldBits(FlagFields(h, r)))
    requires start == at + 52 + ScalefacBits(h) && end == at + GranuleBits(h) <= limit <= 8 * |buf|
    ensures Laid(buf, limit, FlagFields(h, r), FlagPlaces(h, at))
  {
    LaidOut(buf, limit, FlagFields(h, r), FlagPlaces(h, at), end);
  }

  lemma {:induction false} WindowWidth(w: WrittenWindow)
    ensures Width(WindowFields(w)) == 23
  {
    if w.Long? {
      WidthOf(WindowFields(w), LongPlaces(0) + [23]);
    } else {
      WidthOf(WindowFields(w), SpecialPlaces(0) + [23]);
    }
  }

  lemma {:induction false} LeadWidth(h: Header, r: Record)
    ensures Width(LeadFields(h, r)) == 29 + ScalefacBits(h)
  {
    WidthOf(LeadFields(h, r), LeadPlaces(0) + [29 + ScalefacBits(h)]);
  }

  lemma {:induction false} FlagWidth(h: Header, r: Record)
    ensures 52 + ScalefacBits(h) + Width(FlagFields(h, r)) == GranuleBits(h)
  {
    WidthOf(FlagFields(h, r), FlagPlaces(h, 0) + [GranuleBits(h)]);
  }

  lemma {:induction false} ThreeWidths(a: seq<Field>, b: seq<Field>, c: seq<Field>)
    ensures Width(a + (b + c)) == Width(a) + Width(b) + Width(c)
  {
    FieldsInTwo(b, c);
    FieldsInTwo(a, b + c);
  }

  lemma {:induction false} PartWidths(h: Header, r: Record)
    ensures Width(LeadFields(h, r)) == 29 + ScalefacBits(h) && Width(WindowFields(r.window)) == 23
    ensures Width(RecordFields(h, r)) == GranuleBits(h)
  {
    LeadWidth(h, r);
    WindowWidth(r.window);
    FlagWidth(h, r);
    ThreeWidths(LeadFields(h, r), WindowFields(r.window), FlagFields(h, r));
  }

  lemma {:induction false} PartsStand(buf: seq<byte>, limit: int, h: Header, at: nat, r: Record)
    requires AllFit(RecordFields(h, r)) && Stands(buf, at, FieldBits(RecordFields(h, r)))
    requires at + GranuleBits(h) <= limit <= 8 * |buf|
    ensures Laid(buf, limit, LeadFields(h, r), LeadPlaces(at)) && Laid(buf, limit, FlagFields(h, r), FlagPlaces(h, at))
    ensures WindowAt(buf, limit, at + 29 + ScalefacBits(h)) == AsWindow(r.window)
  {
    var at1 := at + 29 + ScalefacBits(h);
    var at2 := at1 + 23;
    PartWidths(h, r);
    ThreeParts(buf, at, at1, at2, LeadFields(h, r), WindowFields(r.window), FlagFields(h, r));
    LeadStands(buf, limit, h, at, r, at1);
    WindowReads(buf, limit, at1, r.window);
    FlagsStand(buf, limit, h, at, r, at2, at + GranuleBits(h));
  }

  lemma {:induction false} ThreeParts(buf: seq<byte>, at: nat, at1: nat, at2: nat, a: seq<Field>, b: seq<Field>, c: seq<Field>)
    requires AllFit(a + (b + c)) && Stands(buf, at, FieldBits(a + (b + c))) && at1 == at + Width(a) && at2 == at1 + Width(b)
    ensures AllFit(a) && AllFit(b) && AllFit(c)
    ensures Stands(buf, at, FieldBits(a)) && Stands(buf, at1, FieldBits(b)) && Stands(buf, at2, FieldBits(c))
  {
    FieldsStand(buf, at, at1, a, b + c);
    FieldsStand(buf, at1, at2, b, c);
  }

  // ----- Whole side infos

  function AsGranules(rs: seq<Record>): seq<Granule> { seq(|rs|, i requires 0 <= i < |rs| => AsGranule(rs[i])) }

  /** Record `n` of several written one after the other. */
  lemma {:induction false} RecordReadsAt(buf: seq<byte>, limit: int, h: Header, at: nat, rs: seq<Record>, n: nat, here: nat)
    requires AllFit(Joined(RecordGroups(h, rs))) && Stands(buf, at, FieldBits(Joined(RecordGroups(h, rs))))
    requires n < |rs| && SoundRecord(h, rs[n]) && here == at + n * GranuleBits(h) && here + GranuleBits(h) <= limit <= 8 * |buf|
    ensures GranuleAt(buf, limit, h, here) == AsGranule(rs[n]) && GranuleOk(AsGranule(rs[n]))
  {
    GroupsWide(h, rs);
    GroupStands(buf, at, RecordGroups(h, rs), GranuleBits(h), n, here);
    RecordReads(buf, limit, h, here, rs[n]);
  }

  lemma {:induction false} GroupsWide(h: Header, rs: seq<Record>)
    ensures forall i :: 0 <= i < |rs| ==> Width(RecordGroups(h, rs)[i]) == GranuleBits(h)
  {
    forall i | 0 <= i < |rs| ensures Width(RecordGroups(h, rs)[i]) == GranuleBits(h) {
      PartWidths(h, rs[i]);
    }
  }

  lemma {:induction false} RecordsRead(buf: seq<byte>, limit: int, h: Header, start: nat, rs: seq<Record>, at: nat)
    requires AllFit(Joined(RecordGroups(h, rs))) && Stands(buf, at, FieldBits(Joined(RecordGroups(h, rs))))
    requires (forall i :: 0 <= i < |rs| ==> SoundRecord(h, rs[i])) && |rs| == GranuleCount(h)
    requires at == start + HeadBits(h) && start + 8 * SideInfoBytes(h) <= limit <= 8 * |buf|
    ensures Granules(buf, limit, h, start, GranuleCount(h)) == AsGranules(rs)
    ensures forall i :: 0 <= i < |rs| ==> GranuleOk(AsGranule(rs[i]))
  {
    forall i | 0 <= i < |rs|
      ensures GranuleAt(buf, limit, h, GranuleStart(h, start, i)) == AsGranule(rs[i]) && GranuleOk(AsGranule(rs[i]))
    {
      RecordsInside(h, start, i);
      RecordReadsAt(buf, limit, h, at, rs, i, GranuleStart(h, start, i));
    }
  }

  lemma RecordsInside(h: Header, start: nat, i: nat)
    requires i < GranuleCount(h)
    ensures GranuleStart(h, start, i) + GranuleBits(h) <= start + 8 * SideInfoBytes(h)
  {
    SideInfoFillsBytes(h);
    MulAtMost(i + 1, GranuleCount(h), GranuleBits(h));
    Distribute2(i, 1, GranuleBits(h));
    assert GranuleStart(h, start, GranuleCount(h)) == start + 8 * SideInfoBytes(h);
  }

  function HeadPlaces(h: Header, at: nat): seq<nat> {
    if !IsMpeg1(h) then [at, at + 8] else if IsMono(h) then [at, at + 9, at + 14] else [at, at + 9, at + 12, at + 16]
  }

  lemma {:induction false} HeadStands(buf: seq<byte>, limit: int, h: Header, at: nat, s: Side)
    requires |s.scfsi| == if IsMpeg1(h) then Channels(h) else 0
    requires AllFit(HeadFields(h, s)) && Stands(buf, at, FieldBits(HeadFields(h, s))) && at + HeadBits(h) <= limit <= 8 * |buf|
    ensures Width(HeadFields(h, s)) == HeadBits(h) && Laid(buf, limit, HeadFields(h, s), HeadPlaces(h, at))
  {
    LaidOut(buf, limit, HeadFields(h, s), HeadPlaces(h, at), at + HeadBits(h));
  }

  lemma {:induction false} HeadWidth(h: Header, s: Side)
    requires |s.scfsi| == if IsMpeg1(h) then Channels(h) else 0
    ensures Width(HeadFields(h, s)) == HeadBits(h)
  {
    WidthOf(HeadFields(h, s), HeadPlaces(h, 0) + [HeadBits(h)]);
  }

  lemma {:induction false} BeginReads(buf: seq<byte>, limit: int, h: Header, at: nat, s: Side)
    requires |s.scfsi| == if IsMpeg1(h) then Channels(h) else 0
    requires at + HeadBits(h) <= limit <= 8 * |buf| && Laid(buf, limit, HeadFields(h, s), HeadPlaces(h, at))
    ensures MainDataBegin(buf, limit, h, at) == s.begin
  {
    var fs, ps := HeadFields(h, s), HeadPlaces(h, at);
    assert fs[0].value == Read(buf, limit, ps[0], fs[0].width);
    if !IsMpeg1(h) {
      MainDataBeginLsf(buf, limit, h, at);
    }
  }

  /** What the records get as `scfsi`, said of what was written. */
  predicate SelectedOf(h: Header, s: Side, scfsi: seq<nat>)
    requires Sound(h, s) && |scfsi| == GranuleCount(h)
  {
    var short := (i: nat) => i < |s.records| && s.records[i].window.Special? && s.records[i].window.blockType == 2;
    if !IsMpeg1(h) then
      forall g :: 0 <= g < |scfsi| ==> scfsi[g] == 0
    else if IsMono(h) then
      scfsi[1] == (if short(0) || short(1) then 0 else s.scfsi[0]) && scfsi[0] == (if short(0) then 0 else s.private / 16)
    else
      && scfsi[2] == (if short(0) || short(2) then 0 else s.scfsi[0])
      && scfsi[3] == (if short(1) || short(3) then 0 else s.scfsi[1])
      && scfsi[0] == 0 && scfsi[1] == if short(1) then 0 else s.private
  }

  lemma {:induction false} SelectionReads(buf: seq<byte>, limit: int, h: Header, start: nat, s: Side, gs: seq<Granule>,
                                          scfsi: seq<nat>)
    requires Sound(h, s) && gs == AsGranules(s.records) && |scfsi| == GranuleCount(h)
    requires start + HeadBits(h) <= limit <= 8 * |buf| && Laid(buf, limit, HeadFields(h, s), HeadPlaces(h, start))
    requires Selected(buf, h, start, gs, scfsi)
    ensures SelectedOf(h, s, scfsi)
  {
    if IsMpeg1(h) {
      var fs, ps := HeadFields(h, s), HeadPlaces(h, start);
      assert fs[1].value == Read(buf, limit, ps[1], fs[1].width) && fs[2].value == Read(buf, limit, ps[2], fs[2].width);
      if IsMono(h) {
        FirstOfFive(buf, start + 9);
      } else {
        assert fs[3].value == Read(buf, limit, ps[3], fs[3].width);
      }
    }
  }

  lemma {:induction false} FirstOfFive(buf: seq<byte>, pos: nat)
    requires pos + 5 <= 8 * |buf|
    ensures Value(buf, pos, 1) == Value(buf, pos, 5) / 16
  {
    Pow2Values();
    ValueSplit(buf, pos, 1, 4);
    ValueBound(buf, pos + 1, 4);
    DivUnique(Value(buf, pos, 5), 16, Value(buf, pos, 1), Value(buf, pos + 1, 4));
  }

  /** The data of the records lie between the pointer and the end of the frame. */
  predicate DataFit(h: Header, s: Side, limit: int, start: nat) {
    Part23Sum(AsGranules(s.records)) + start + 8 * SideInfoBytes(h) <= limit + 8 * s.begin
  }

  /**
   Side info written anywhere in a buffer is accepted exactly if its data can be there, and
   whatever holds of an accepted side info then gives back the pointer, every field of
   every record and the selections, on both window branches and for both versions.
   */
  lemma {:induction false} SideReadsBack(buf: seq<byte>, limit: int, h: Header, start: nat, s: Side, info: SideInfo)
    requires Sound(h, s) && Stands(buf, start, FieldBits(SideFields(h, s)))
    requires start + 8 * SideInfoBytes(h) <= limit <= 8 * |buf|
    ensures SideInfoOk(buf, limit, h, start) <==> DataFit(h, s, limit, start)
    ensures Holds(info, buf, limit, h, start) ==>
      && info.mainDataBegin == s.begin && info.granules == AsGranules(s.records)
      && |info.scfsi| == GranuleCount(h) && SelectedOf(h, s, info.scfsi)
  {
    SideStands(buf, limit, h, start, s);
    AllOk(s.records);
    if Holds(info, buf, limit, h, start) {
      SelectionReads(buf, limit, h, start, s, info.granules, info.scfsi);
    }
  }

  lemma AllOk(rs: seq<Record>)
    requires forall i :: 0 <= i < |rs| ==> GranuleOk(AsGranule(rs[i]))
    ensures forall g :: g in AsGranules(rs) ==> GranuleOk(g)
  {
  }

  lemma {:induction false} SideStands(buf: seq<byte>, limit: int, h: Header, start: nat, s: Side)
    requires Sound(h, s) && Stands(buf, start, FieldBits(SideFields(h, s)))
    requires start + 8 * SideInfoBytes(h) <= limit <= 8 * |buf|
    ensures start + HeadBits(h) <= limit && Laid(buf, limit, HeadFields(h, s), HeadPlaces(h, start))
    ensures MainDataBegin(buf, limit, h, start) == s.begin
    ensures Granules(buf, limit, h, start, GranuleCount(h)) == AsGranules(s.records)
    ensures forall i :: 0 <= i < |s.records| ==> GranuleOk(AsGranule(s.records[i]))
  {
    var at := start + HeadBits(h);
    HeadWidth(h, s);
    FieldsStand(buf, start, at, HeadFields(h, s), Joined(RecordGroups(h, s.records)));
    RecordsInside(h, start, 0);
    HeadStands(buf, limit, h, start, s);
    BeginReads(buf, limit, h, start, s);
    RecordsRead(buf, limit, h, start, s.records, at);
  }

  /** The bytes of a side info fill exactly the place the header gives it. */
  lemma {:induction false} SideWidth(h: Header, s: Side)
    requires Sound(h, s)
    ensures |FieldBits(SideFields(h, s))| == 8 * SideInfoBytes(h)
  {
    HeadWidth(h, s);
    GroupsWide(h, s.records);
    JoinedWidth(RecordGroups(h, s.records), GranuleBits(h));
    FieldsInTwo(HeadFields(h, s), Joined(RecordGroups(h, s.records)));
    SideInfoFillsBytes(h);
    assert GranuleStart(h, 0, GranuleCount(h)) == 0 + 8 * SideInfoBytes(h);
  }

  lemma {:induction false} JoinedWidth(groups: seq<seq<Field>>, w: nat)
    requires forall i :: 0 <= i < |groups| ==> Width(groups[i]) == w
    ensures Width(Joined(groups)) == |groups| * w
    decreases |groups|
  {
    if groups != [] {
      JoinedWidth(groups[1..], w);
      FieldsInTwo(groups[0], Joined(groups[1..]));
      OneLess(|groups|, w);
    }
  }

  /** Writes a side info between other bytes and reads it. */
  method WriteAndRead(h: Header, s: Side, before: seq<byte>, after: seq<byte>) returns (info: SideInfo)
    requires Sound(h, s)
    ensures info.mainDataBegin >= 0 <==> DataFit(h, s, 8 * (|before| + SideInfoBytes(h) + |after|), 8 * |before|)
    ensures info.mainDataBegin >= 0 ==>
      && info.mainDataBegin == s.begin && info.granules == AsGranules(s.records)
      && |info.scfsi| == GranuleCount(h) && SelectedOf(h, s, info.scfsi)
  {
    var buf := Bytes(h, s, before, after);
    info := ReadAt(buf, h, |before|);
    SideReadsBack(buf, 8 * |buf|, h, 8 * |before|, s, info);
  }

  function Bytes(h: Header, s: Side, before: seq<byte>, after: seq<byte>): (buf: seq<byte>)
    requires Sound(h, s)
    ensures |buf| == |before| + SideInfoBytes(h) + |after| && Stands(buf, 8 * |before|, FieldBits(SideFields(h, s)))
  {
    SideWidth(h, s);
    var bits := FieldBits(SideFields(h, s));
    PackStands(before, bits, after);
    before + Pack(bits) + after
  }

  method ReadAt(buf: seq<byte>, h: Header, skip: nat) returns (info: SideInfo)
    ensures info.mainDataBegin >= 0 <==> SideInfoOk(buf, 8 * |buf|, h, 8 * skip)
    ensures info.mainDataBegin >= 0 ==> Holds(info, buf, 8 * |buf|, h, 8 * skip)
  {
    var bs := new BitReader(buf, |buf|);
    bs.pos := 8 * skip;
    info := ReadSideInfo(bs, h);
  }
}
