/**
 Bit fields written one after the other, most significant bit first: the reference that
 the bit reader is held against.
 */
module BitWriter {
  import opened Common
  import opened Bits

  datatype Field = Field(value: nat, width: nat) {
    predicate Fits() { value < Pow2(width) }
  }

  predicate AllFit(fields: seq<Field>) { forall i :: 0 <= i < |fields| ==> fields[i].Fits() }

  type bit = x: int | 0 <= x < 2

  function BitsOf(value: nat, width: nat): (bits: seq<bit>)
    ensures |bits| == width
    decreases width
  {
    if width == 0 then [] else BitsOf(value / 2, width - 1) + [value % 2]
  }

  function FieldBits(fields: seq<Field>): seq<bit> {
    if fields == [] then [] else BitsOf(fields[0].value, fields[0].width) + FieldBits(fields[1..])
  }

  function Width(fields: seq<Field>): (n: nat)
    ensures n == |FieldBits(fields)|
  {
    if fields == [] then 0 else fields[0].width + Width(fields[1..])
  }

  /** The bits stand in the buffer from bit `pos` on. */
  ghost predicate Stands(buf: seq<byte>, pos: nat, bits: seq<bit>) {
    pos + |bits| <= 8 * |buf| && forall i :: 0 <= i < |bits| ==> Bit(buf, pos + i) == bits[i]
  }

  lemma {:induction false} StandsInTwo(buf: seq<byte>, pos: nat, pos1: nat, a: seq<bit>, b: seq<bit>)
    requires Stands(buf, pos, a + b) && pos1 == pos + |a|
    ensures Stands(buf, pos, a) && Stands(buf, pos1, b)
  {
    forall i | 0 <= i < |a| ensures Bit(buf, pos + i) == a[i] { assert (a + b)[i] == a[i]; }
    forall i | 0 <= i < |b| ensures Bit(buf, pos1 + i) == b[i] {
      assert (a + b)[|a| + i] == b[i] && pos1 + i == pos + (|a| + i);
    }
  }

  /** A written number is read back. */
  lemma {:induction false} NumberStands(buf: seq<byte>, pos: nat, value: nat, width: nat)
    requires Stands(buf, pos, BitsOf(value, width)) && value < Pow2(width)
    ensures Value(buf, pos, width) == value
    decreases width
  {
    if width > 0 {
      LastStands(buf, pos, BitsOf(value / 2, width - 1), value % 2, pos + width - 1);
      NumberStands(buf, pos, value / 2, width - 1);
    }
  }

  lemma {:induction false} LastStands(buf: seq<byte>, pos: nat, high: seq<bit>, low: bit, end: nat)
    requires Stands(buf, pos, high + [low]) && end == pos + |high|
    ensures Stands(buf, pos, high) && Bit(buf, end) == low
  {
    StandsInTwo(buf, pos, end, high, [low]);
    assert Bit(buf, end + 0) == [low][0];
  }

  lemma {:induction false} FieldsInTwo(a: seq<Field>, b: seq<Field>)
    ensures FieldBits(a + b) == FieldBits(a) + FieldBits(b)
    decreases |a|
  {
    if a == [] {
      assert a + b == b;
      assert FieldBits(a) == [];
    } else {
      assert (a + b)[0] == a[0] && (a + b)[1..] == a[1..] + b;
      FieldsInTwo(a[1..], b);
      Assoc(BitsOf(a[0].value, a[0].width), FieldBits(a[1..]), FieldBits(b));
    }
  }

  lemma Assoc(a: seq<bit>, b: seq<bit>, c: seq<bit>)
    ensures a + (b + c) == a + b + c
  {
  }

  lemma {:induction false} FitInTwo(a: seq<Field>, b: seq<Field>)
    ensures AllFit(a + b) <==> AllFit(a) && AllFit(b)
  {
    if AllFit(a + b) {
      forall i | 0 <= i < |a| ensures a[i].Fits() { assert (a + b)[i] == a[i]; }
      forall i | 0 <= i < |b| ensures b[i].Fits() { assert (a + b)[|a| + i] == b[i]; }
    }
  }

  lemma {:induction false} FieldsStand(buf: seq<byte>, pos: nat, pos1: nat, a: seq<Field>, b: seq<Field>)
    requires AllFit(a + b) && Stands(buf, pos, FieldBits(a + b)) && pos1 == pos + Width(a)
    ensures AllFit(a) && AllFit(b) && Stands(buf, pos, FieldBits(a)) && Stands(buf, pos1, FieldBits(b))
  {
    FieldsInTwo(a, b);
    FitInTwo(a, b);
    StandsInTwo(buf, pos, pos1, FieldBits(a), FieldBits(b));
  }

  /** Groups of fields one after the other. */
  function Joined(groups: seq<seq<Field>>): seq<Field> { if groups == [] then [] else groups[0] + Joined(groups[1..]) }

  /** Group `n` of several that are equally wide. */
  lemma {:induction false} GroupStands(buf: seq<byte>, at: nat, groups: seq<seq<Field>>, w: nat, n: nat, here: nat)
    requires AllFit(Joined(groups)) && Stands(buf, at, FieldBits(Joined(groups))) && n < |groups| && here == at + n * w
    requires forall i :: 0 <= i < |groups| ==> Width(groups[i]) == w
    ensures AllFit(groups[n]) && Stands(buf, here, FieldBits(groups[n]))
    decreases n
  {
    var next := at + w;
    FieldsStand(buf, at, next, groups[0], Joined(groups[1..]));
    if n > 0 {
      OneLess(n, w);
      GroupStands(buf, next, groups[1..], w, n - 1, here);
    } else {
      assert here == at;
    }
  }

  lemma OneLess(n: nat, w: nat)
    requires n > 0
    ensures n * w == w + (n - 1) * w
  {
  }

  /** `places[k]` is the bit where field `k` starts. */
  predicate Places(fields: seq<Field>, places: seq<nat>) {
    |places| == |fields| + 1 && forall k :: 0 <= k < |fields| ==> places[k + 1] == places[k] + fields[k].width
  }

  lemma {:induction false} FieldsFrom(buf: seq<byte>, fields: seq<Field>, places: seq<nat>, k: nat)
    requires Places(fields, places) && Stands(buf, places[0], FieldBits(fields)) && k <= |fields|
    ensures Stands(buf, places[k], FieldBits(fields[k..])) && places[k] + Width(fields[k..]) == places[0] + Width(fields)
    decreases k
  {
    if k == 0 {
      assert fields[0..] == fields;
    } else {
      FieldsFrom(buf, fields, places, k - 1);
      var rest, f := fields[k - 1..], fields[k - 1];
      assert rest[0] == f && rest[1..] == fields[k..] && places[k - 1 + 1] == places[k - 1] + f.width;
      StandsInTwo(buf, places[k - 1], places[k], BitsOf(f.value, f.width), FieldBits(rest[1..]));
    }
  }

  lemma {:induction false} WidthFrom(fields: seq<Field>, places: seq<nat>, k: nat)
    requires Places(fields, places) && k <= |fields|
    ensures places[k] + Width(fields[k..]) == places[|fields|]
    decreases |fields| - k
  {
    if k < |fields| {
      WidthFrom(fields, places, k + 1);
      assert fields[k..][1..] == fields[k + 1..] && places[k + 1] == places[k] + fields[k].width;
    }
  }

  lemma {:induction false} WidthOf(fields: seq<Field>, places: seq<nat>)
    requires Places(fields, places)
    ensures places[0] + Width(fields) == places[|fields|]
  {
    WidthFrom(fields, places, 0);
    assert fields[0..] == fields;
  }

  /** Each field is read back at its place. */
  lemma {:induction false} FieldReads(buf: seq<byte>, limit: int, fields: seq<Field>, places: seq<nat>, k: nat)
    requires Places(fields, places) && AllFit(fields) && Stands(buf, places[0], FieldBits(fields)) && k < |fields|
    requires places[0] + Width(fields) <= limit <= 8 * |buf|
    ensures Read(buf, limit, places[k], fields[k].width) == fields[k].value
  {
    FieldsFrom(buf, fields, places, k);
    var rest, f := fields[k..], fields[k];
    StandsInTwo(buf, places[k], places[k + 1], BitsOf(f.value, f.width), FieldBits(rest[1..]));
    NumberStands(buf, places[k], f.value, f.width);
  }

  /** All fields are read back, each at its place. */
  lemma {:induction false} FieldsRead(buf: seq<byte>, limit: int, fields: seq<Field>, places: seq<nat>)
    requires Places(fields, places) && AllFit(fields) && Stands(buf, places[0], FieldBits(fields))
    requires places[|fields|] <= limit <= 8 * |buf|
    ensures places[0] + Width(fields) == places[|fields|]
    ensures forall k :: 0 <= k < |fields| ==> Read(buf, limit, places[k], fields[k].width) == fields[k].value
  {
    FieldsFrom(buf, fields, places, |fields|);
    assert fields[|fields|..] == [];
    forall k | 0 <= k < |fields| ensures Read(buf, limit, places[k], fields[k].width) == fields[k].value {
      FieldReads(buf, limit, fields, places, k);
    }
  }

  // ----- Bytes

  function NumOf(bits: seq<bit>): nat { if bits == [] then 0 else 2 * NumOf(bits[..|bits| - 1]) + bits[|bits| - 1] }

  lemma {:induction false} NumBound(bits: seq<bit>)
    ensures NumOf(bits) < Pow2(|bits|)
  {
    if bits != [] { NumBound(bits[..|bits| - 1]); }
  }

  /** The bytes that hold the bits, in eights. */
  function Pack(bits: seq<bit>): (buf: seq<byte>)
    requires |bits| % 8 == 0
    ensures |buf| == |bits| / 8
    decreases |bits|
  {
    if bits == [] then []
    else
      NumBound(bits[..8]);
      Pow2Values();
      [NumOf(bits[..8]) as byte] + Pack(bits[8..])
  }

  lemma {:induction false} PackedByte(bits: seq<bit>, k: nat)
    requires |bits| % 8 == 0 && 8 * k + 8 <= |bits|
    ensures Pack(bits)[k] == NumOf(bits[8 * k..8 * k + 8])
    decreases k
  {
    if k == 0 {
      assert bits[..8] == bits[8 * k..8 * k + 8];
    } else {
      PackedByte(bits[8..], k - 1);
      Later(bits, 8 * (k - 1), 8 * k);
    }
  }

  lemma Later(bits: seq<bit>, a: nat, b: nat)
    requires b == a + 8 && b + 8 <= |bits|
    ensures bits[8..][a..a + 8] == bits[b..b + 8]
  {
  }

  lemma HalfOf(m: nat, b: nat, p: nat)
    requires b < 2 && p > 0
    ensures (2 * m + b) / (2 * p) == m / p
  {
    DivMod(m, p);
    var q, r := m / p, m % p;
    Distribute2(q, q, p);
    MulDouble(q, p);
    DivUnique(2 * m + b, 2 * p, q, 2 * r + b);
  }

  /** Shifting and masking a number finds its bits. */
  lemma {:induction false} BitOfNum(bits: seq<bit>, i: nat)
    requires i < |bits|
    ensures (NumOf(bits) / Pow2(|bits| - 1 - i)) % 2 == bits[i]
    decreases |bits|
  {
    var n := |bits|;
    var high, last := bits[..n - 1], bits[n - 1];
    if i == n - 1 {
      assert NumOf(bits) / 1 == NumOf(bits);
    } else {
      BitOfNum(high, i);
      HalfOf(NumOf(high), last, Pow2(n - 2 - i));
    }
  }

  /** Packed bits stand in the bytes, whatever is put around them. */
  lemma {:induction false} PackStands(before: seq<byte>, bits: seq<bit>, after: seq<byte>)
    requires |bits| % 8 == 0
    ensures Stands(before + Pack(bits) + after, 8 * |before|, bits)
  {
    var buf := before + Pack(bits) + after;
    forall i | 0 <= i < |bits| ensures Bit(buf, 8 * |before| + i) == bits[i] {
      BitStands(before, bits, after, i, i / 8, i % 8);
    }
  }

  lemma {:induction false} BitStands(before: seq<byte>, bits: seq<bit>, after: seq<byte>, i: nat, k: nat, j: nat)
    requires |bits| % 8 == 0 && i < |bits| && i == 8 * k + j && j < 8
    ensures Bit(before + Pack(bits) + after, 8 * |before| + i) == bits[i]
  {
    var buf := before + Pack(bits) + after;
    var eight := bits[8 * k..8 * k + 8];
    PackedByte(bits, k);
    assert buf[|before| + k] == Pack(bits)[k] == NumOf(eight);
    BitOfNum(eight, j);
    assert eight[j] == bits[i];
    BytePlace(|before| + k, j);
  }

  lemma BytePlace(k: nat, j: nat)
    requires j < 8
    ensures (8 * k + j) / 8 == k && (8 * k + j) % 8 == j
  {
  }
}
