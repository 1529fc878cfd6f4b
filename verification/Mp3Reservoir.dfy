/**
 The bit reservoir (section 2.4.2.7 of ISO/IEC 11172-3): main data of a Layer III
 frame may begin up to 511 bytes before the frame, in the payloads of earlier
 frames.  The decoder keeps the unread tail of what it assembled last.
 */
module Mp3Reservoir {
  import opened Common
  import opened Bits
  import opened Mp3Header
  import opened Mp3Frames
  import opened Mp3SideInfo

  const MAX_BITRESERVOIR_BYTES := 511
  const MAX_L3_FRAME_PAYLOAD_BYTES := MAX_FREE_FORMAT_FRAME_SIZE
  const MAX_MAIN_DATA := MAX_BITRESERVOIR_BYTES + MAX_L3_FRAME_PAYLOAD_BYTES

  /** The last `n` elements. */
  function Tail<T>(s: seq<T>, n: nat): seq<T>
    requires n <= |s|
  {
    s[|s| - n..]
  }

  /** The bytes behind a located frame's header. */
  function FrameBody(mp3: seq<byte>, l: Located): seq<byte>
    requires l.Frame? && l.offset + l.size <= |mp3|
  {
    if l.size <= HDR_SIZE then [] else mp3[l.offset + HDR_SIZE..l.offset + l.size]
  }

  /** The limit of the bit reader on the body of a frame. */
  function BodyBits(size: nat): int { 8 * (size - HDR_SIZE) }

  function SideInfoStart(h: Header): nat { if IsCrc(h) then 16 else 0 }

  /** The side info in the body of a Layer III frame is accepted. */
  predicate BodyAccepted(body: seq<byte>, h: Header, size: nat)
    requires size - HDR_SIZE <= |body|
  {
    SideInfoOk(body, BodyBits(size), h, SideInfoStart(h))
    && SideInfoStart(h) + 8 * SideInfoBytes(h) <= BodyBits(size)
  }

  predicate FrameAccepted(mp3: seq<byte>, l: Located)
    requires l.Frame? && l.offset + l.size <= |mp3|
  {
    BodyAccepted(FrameBody(mp3, l), l.sync.header, l.size)
  }

  function PayloadStart(h: Header): nat { (if IsCrc(h) then 2 else 0) + SideInfoBytes(h) }

  /** The main-data bytes carried by an accepted frame. */
  function Payload(mp3: seq<byte>, l: Located): seq<byte>
    requires l.Frame? && l.offset + l.size <= |mp3| && FrameAccepted(mp3, l)
  {
    FrameBody(mp3, l)[PayloadStart(l.sync.header)..]
  }

  lemma BodySize(mp3: seq<byte>, l: Located)
    requires l.Frame? && l.offset + l.size <= |mp3|
    ensures l.size - HDR_SIZE <= |FrameBody(mp3, l)|
  {
  }

  function Begin(mp3: seq<byte>, l: Located): nat
    requires l.Frame? && l.offset + l.size <= |mp3|
  {
    BodyBegin(FrameBody(mp3, l), l.sync.header, l.size)
  }

  function BodyBegin(body: seq<byte>, h: Header, size: nat): nat
    requires size - HDR_SIZE <= |body|
  {
    MainDataBegin(body, BodyBits(size), h, SideInfoStart(h))
  }

  /** What a call reports; sample values are not modelled. */
  datatype Outcome =
    | NoFrame                                       // no frame in the input
    | Refused(l: Located)                           // side info not acceptable
    | Layer3(l: Located, success: bool, main: seq<byte>, endPos: nat)
    | OtherLayer(l: Located, success: bool)

  class Decoder {
    var reserv: nat
    const reservBuf: array<byte>
    var sync: Sync
    ghost var stream: seq<byte>  // payloads of the frames accepted since the state was last cleared

    ghost predicate Valid()
      reads this, reservBuf
    {
      reservBuf.Length == MAX_BITRESERVOIR_BYTES && reserv <= MAX_BITRESERVOIR_BYTES
      && ValidSync(sync)
      && reserv <= |stream| && reservBuf[..reserv] == Tail(stream, reserv)
    }

    constructor ()
      ensures Valid() && fresh(reservBuf) && stream == [] && sync == NO_SYNC && reserv == 0
    {
      reservBuf := new byte[MAX_BITRESERVOIR_BYTES](_ => 0);
      reserv, sync, stream := 0, NO_SYNC, [];
    }

    /** Assembles reserved bytes and payload; succeeds when enough bytes are reserved. */
    method RestoreReservoir(main: array<byte>, payload: seq<byte>, begin: nat) returns (len: nat, ok: bool)
      requires Valid() && main != reservBuf && main.Length == MAX_MAIN_DATA
      requires |payload| <= MAX_L3_FRAME_PAYLOAD_BYTES
      modifies main
      ensures Valid()
      ensures ok == (begin <= reserv)
      ensures len <= MAX_MAIN_DATA && main[..len] == Tail(stream, Min(reserv, begin)) + payload
    {
      var have := Min(reserv, begin);
      var reserved := LastReserved(have);
      CopyInto(main, 0, reserved);
      CopyInto(main, have, payload);
      len := have + |payload|;
      ok := reserv >= begin;
    }

    method LastReserved(n: nat) returns (s: seq<byte>)
      requires Valid() && n <= reserv
      ensures n <= |stream| && s == Tail(stream, n)
    {
      SliceOfTail(reservBuf, reserv, stream, n);
      s := reservBuf[reserv - n..reserv];
    }

    /** Keeps the unread tail of the assembled data, at most 511 bytes. */
    method SaveReservoir(main: array<byte>, len: nat, bitPos: nat)
      requires main != reservBuf && reservBuf.Length == MAX_BITRESERVOIR_BYTES
      requires len <= main.Length && bitPos <= 8 * len
      requires ValidSync(sync) && len <= |stream| && main[..len] == Tail(stream, len)
      modifies this`reserv, reservBuf
      ensures Valid()
      ensures reserv == Min(len - (bitPos + 7) / 8, MAX_BITRESERVOIR_BYTES)
    {
      var pos := (bitPos + 7) / 8;
      var remains := len - pos;
      if remains > MAX_BITRESERVOIR_BYTES {
        pos := pos + remains - MAX_BITRESERVOIR_BYTES;
        remains := MAX_BITRESERVOIR_BYTES;
      }
      SliceOfTail(main, len, stream, remains);
      if remains > 0 {
        CopyInto(reservBuf, 0, main[pos..pos + remains]);
      }
      reserv := remains;
    }

    /** The granules' part 2 and 3 data are read one after the other. */
    static method DecodeGranules(granules: seq<Granule>) returns (pos: nat)
      ensures pos == Part23Sum(granules)
    {
      pos := 0;
      for i := 0 to |granules|
        invariant pos == Part23Sum(granules[..i])
      {
        assert granules[..i + 1][..i] == granules[..i];
        pos := pos + granules[i].part23;  // L3_huffman leaves the position at this limit
      }
      assert granules[..|granules|] == granules;
    }

    method DecodeFrame(mp3: seq<byte>, otherLayerOk: bool) returns (o: Outcome)
      requires Valid()
      modifies this, reservBuf
      ensures Valid()
      ensures match o
        case NoFrame => Locates(old(sync), mp3, Nothing) && stream == [] && sync == NO_SYNC
        case Refused(l) => l.Frame? && Locates(old(sync), mp3, l) && LayerField(l.sync.header) == 1
          && l.offset + l.size <= |mp3| && !FrameAccepted(mp3, l)
          && stream == (if l.cleared then [] else old(stream)) && sync.header[0] == 0
        case OtherLayer(l, ok) => l.Frame? && Locates(old(sync), mp3, l) && LayerField(l.sync.header) != 1
          && stream == (if l.cleared then [] else old(stream))
        case Layer3(l, ok, main, endPos) =>
          && l.Frame? && Locates(old(sync), mp3, l) && LayerField(l.sync.header) == 1
          && l.offset + l.size <= |mp3| && FrameAccepted(mp3, l)
          && stream == (if l.cleared then [] else old(stream)) + Payload(mp3, l)
          && ok == (Begin(mp3, l) <= if l.cleared then 0 else old(reserv))
          && |main| <= MAX_MAIN_DATA && |main| <= |stream| && main == Tail(stream, |main|)
          && (ok ==> |main| == Begin(mp3, l) + |Payload(mp3, l)|)
          && endPos <= 8 * |main|
    {
      var l := Locate(sync, mp3);
      if l == Nothing || (l.Frame? && l.cleared) {
        reserv, sync, stream := 0, NO_SYNC, [];
      }
      if l == Nothing {
        return NoFrame;
      }
      LocatedFrame(old(sync), mp3, l);
      sync := l.sync;
      if LayerField(l.sync.header) != 1 {
        if !otherLayerOk {
          sync := sync.(header := sync.header[0 := 0]);
        }
        return OtherLayer(l, otherLayerOk);
      }
      o := DecodeLayer3(mp3, l);
    }

    /**
     Reads the side info of a frame.  In an accepted frame the granules' data
     never extend past the end of the payload, counted from `begin` bytes before it.
     */
    static method ParseFrame(mp3: seq<byte>, l: Located)
      returns (ok: bool, begin: nat, granules: seq<Granule>, payload: seq<byte>)
      requires l.Frame? && l.offset + l.size <= |mp3| && l.size <= MAX_FREE_FORMAT_FRAME_SIZE
      ensures ok == FrameAccepted(mp3, l)
      ensures ok ==> begin == Begin(mp3, l) && payload == Payload(mp3, l) && |payload| <= MAX_L3_FRAME_PAYLOAD_BYTES
      ensures ok ==> Part23Sum(granules) <= 8 * (begin + |payload|)
    {
      BodySize(mp3, l);
      ok, begin, granules, payload := ParseBody(FrameBody(mp3, l), l.sync.header, l.size);
    }

    static method ParseBody(body: seq<byte>, h: Header, size: nat)
      returns (ok: bool, begin: nat, granules: seq<Granule>, payload: seq<byte>)
      requires size - HDR_SIZE <= |body|
      ensures ok == BodyAccepted(body, h, size)
      ensures ok ==> begin == BodyBegin(body, h, size)
      ensures ok ==> PayloadStart(h) <= |body| && payload == body[PayloadStart(h)..]
      ensures ok ==> Part23Sum(granules) <= 8 * (begin + |payload|)
    {
      var bs := new BitReader(body, size - HDR_SIZE);
      if IsCrc(h) {
        var _ := bs.GetBits(16);
      }
      assert bs.pos == SideInfoStart(h) && bs.limit == BodyBits(size);
      var info := ReadSideInfo(bs, h);
      if info.mainDataBegin < 0 || bs.pos > bs.limit {
        return false, 0, [], [];
      }
      return true, info.mainDataBegin, info.granules, body[PayloadStart(h)..];
    }

    method DecodeLayer3(mp3: seq<byte>, l: Located) returns (o: Outcome)
      requires Valid() && l.Frame? && sync == l.sync
      requires l.offset + l.size <= |mp3| && l.size <= MAX_FREE_FORMAT_FRAME_SIZE
      modifies this, reservBuf
      ensures Valid()
      ensures o == Refused(l) || (o.Layer3? && o.l == l)
      ensures o.Refused? ==> !FrameAccepted(mp3, l) && stream == old(stream) && sync.header[0] == 0
      ensures o.Layer3? ==>
        && FrameAccepted(mp3, l) && stream == old(stream) + Payload(mp3, l)
        && o.success == (Begin(mp3, l) <= old(reserv))
        && |o.main| <= MAX_MAIN_DATA && |o.main| <= |stream| && o.main == Tail(stream, |o.main|)
        && (o.success ==> |o.main| == Begin(mp3, l) + |Payload(mp3, l)|)
        && o.endPos <= 8 * |o.main|
    {
      var accepted, begin, granules, payload := ParseFrame(mp3, l);
      if !accepted {
        sync := sync.(header := sync.header[0 := 0]);
        return Refused(l);
      }
      var ok, main, pos := UsePayload(payload, begin, granules);
      return Layer3(l, ok, main, pos);
    }

    /** Decodes the granules from reserved bytes and payload, and keeps what is left. */
    method UsePayload(payload: seq<byte>, begin: nat, granules: seq<Granule>)
      returns (ok: bool, assembled: seq<byte>, pos: nat)
      requires Valid() && |payload| <= MAX_L3_FRAME_PAYLOAD_BYTES
      requires Part23Sum(granules) <= 8 * (begin + |payload|)
      modifies this`reserv, this`stream, reservBuf
      ensures Valid() && stream == old(stream) + payload
      ensures ok == (begin <= old(reserv)) && pos <= 8 * |assembled|
      ensures |assembled| <= MAX_MAIN_DATA && |assembled| <= |stream| && assembled == Tail(stream, |assembled|)
      ensures ok ==> |assembled| == begin + |payload|
    {
      var main := new byte[MAX_MAIN_DATA](_ => 0);
      var len;
      len, ok := RestoreReservoir(main, payload, begin);
      assembled := main[..len];
      pos := 0;
      if ok {
        pos := DecodeGranules(granules);
      }
      TailAppend(stream, payload, Min(reserv, begin));
      stream := stream + payload;
      SaveReservoir(main, len, pos);
    }
  }

  /** `memcpy`. */
  method CopyInto(dst: array<byte>, at: nat, src: seq<byte>)
    requires at + |src| <= dst.Length
    modifies dst
    ensures dst[..at + |src|] == old(dst[..at]) + src
  {
    forall i | 0 <= i < |src| {
      dst[at + i] := src[i];
    }
  }

  /** The last `n` of `len` elements that are themselves a tail. */
  lemma SliceOfTail(a: array<byte>, len: nat, stream: seq<byte>, n: nat)
    requires n <= len <= a.Length && len <= |stream| && a[..len] == Tail(stream, len)
    ensures a[len - n..len] == Tail(stream, n)
  {
    assert a[len - n..len] == a[..len][len - n..];
    TailOfTail(stream, len, n);
  }

  lemma TailOfTail<T>(s: seq<T>, n: nat, m: nat)
    requires m <= n <= |s|
    ensures Tail(s, n)[n - m..] == Tail(s, m)
  {
  }

  lemma TailAppend<T>(s: seq<T>, t: seq<T>, n: nat)
    requires n <= |s|
    ensures Tail(s, n) + t == Tail(s + t, n + |t|)
  {
  }
}
