/**
 The bit reader of the MP3 decoder: `get_bits` reads an unsigned big-endian
 number of up to 32 bits, byte by byte, and answers 0 beyond the limit.
 */
module Bits {
  import opened Common

  function Pow2(n: nat): (p: nat)
    ensures p >= 1
  {
    if n == 0 then 1 else 2 * Pow2(n - 1)
  }

  lemma {:induction false} Pow2Add(a: nat, b: nat)
    ensures Pow2(a + b) == Pow2(a) * Pow2(b)
  {
    if a > 0 {
      Pow2Add(a - 1, b);
      assert Pow2(a + b) == 2 * Pow2(a - 1 + b);
    }
  }

  lemma MulLess(a: nat, b: nat, c: nat)
    requires a < b && c > 0
    ensures a * c < b * c
  {
  }

  lemma MulDouble(x: nat, y: nat)
    ensures x * (2 * y) == 2 * (x * y)
  {
  }

  lemma Distribute(x: nat, y: nat, n: nat, z: nat)
    ensures (x * y + n) * z == x * (y * z) + n * z
  {
  }

  lemma Pow2Values()
    ensures Pow2(0) == 1 && Pow2(1) == 2 && Pow2(2) == 4 && Pow2(3) == 8 && Pow2(4) == 16
    ensures Pow2(5) == 32 && Pow2(6) == 64 && Pow2(7) == 128 && Pow2(8) == 256
  {
    assert Pow2(2) == 4;
    assert Pow2(4) == 16;
    assert Pow2(6) == 64;
  }

  // ----- Bit strings as numbers

  /** Bit `i` of a buffer, most significant bit of byte 0 first. */
  function Bit(buf: seq<byte>, i: nat): (b: nat)
    requires i < 8 * |buf|
    ensures b < 2
  {
    (buf[i / 8] / Pow2(7 - i % 8)) % 2
  }

  /** The number written in `n` bits from position `pos`. */
  function Value(buf: seq<byte>, pos: nat, n: nat): nat
    requires pos + n <= 8 * |buf|
  {
    if n == 0 then 0 else 2 * Value(buf, pos, n - 1) + Bit(buf, pos + n - 1)
  }

  lemma {:induction false} ValueBound(buf: seq<byte>, pos: nat, n: nat)
    requires pos + n <= 8 * |buf|
    ensures Value(buf, pos, n) < Pow2(n)
  {
    if n > 0 {
      ValueBound(buf, pos, n - 1);
    }
  }

  /** Reading `a` and then `b` bits amounts to reading `a + b` bits. */
  lemma {:induction false} ValueSplit(buf: seq<byte>, pos: nat, a: nat, b: nat)
    requires pos + a + b <= 8 * |buf|
    ensures Value(buf, pos, a + b) == Value(buf, pos, a) * Pow2(b) + Value(buf, pos + a, b)
  {
    if b > 0 {
      ValueSplit(buf, pos, a, b - 1);
      MulDouble(Value(buf, pos, a), Pow2(b - 1));
      assert pos + (a + b) - 1 == (pos + a) + b - 1;
    }
  }

  /** Bits within one byte by mask and shift. */
  lemma {:induction false} ValueInByte(buf: seq<byte>, q: nat, s: nat, n: nat)
    requires q < |buf| && s + n <= 8
    ensures Value(buf, 8 * q + s, n) == (buf[q] % Pow2(8 - s)) / Pow2(8 - s - n)
    decreases n
  {
    Pow2Values();
    if n > 0 {
      ValueInByte(buf, q, s, n - 1);
      var t := 8 - s - n;
      assert (8 * q + s + n - 1) / 8 == q && (8 * q + s + n - 1) % 8 == s + n - 1;
      assert Bit(buf, 8 * q + s + n - 1) == (buf[q] / Pow2(t)) % 2;
      MaskShift(buf[q], 8 - s, t);
    }
  }

  lemma MaskShift(b: byte, w: nat, t: nat)
    requires t < w <= 8
    ensures (b % Pow2(w)) / Pow2(t) == 2 * ((b % Pow2(w)) / Pow2(t + 1)) + (b / Pow2(t)) % 2
  {
    var p, c := Pow2(t), Pow2(w - t - 1);
    Pow2Add(t + 1, w - t - 1);
    assert Pow2(w) == (2 * p) * c;
    MaskParity(b, p, c);
    HalfDiv(b % Pow2(w), p, Pow2(t + 1));
  }

  /** Dividing by twice as much drops one more bit. */
  lemma HalfDiv(m: nat, p: nat, d: nat)
    requires d == 2 * p && p > 0
    ensures m / p == 2 * (m / d) + (m / p) % 2
  {
    DivMod(m, d);
    HalfDivParts(m, p, d, m / d, m % d);
  }

  lemma DivMod(m: nat, d: nat)
    requires d > 0
    ensures m == (m / d) * d + m % d && 0 <= m % d < d
    ensures 0 <= m / d
  {
  }

  lemma HalfDivParts(m: nat, p: nat, d: nat, q: nat, r: nat)
    requires m == q * d + r && r < d == 2 * p
    ensures m / p == 2 * q + (m / p) % 2
  {
    MulDouble(q, p);
    if r < p {
      DivUnique(m, p, 2 * q, r);
    } else {
      DivUnique(m, p, 2 * q + 1, r - p);
    }
  }

  /** Masking off higher bits keeps the lower ones. */
  lemma MaskParity(b: nat, p: nat, c: nat)
    requires p > 0 && c > 0 && (2 * p) * c > 0
    ensures ((b % ((2 * p) * c)) / p) % 2 == (b / p) % 2
  {
    var w := (2 * p) * c;
    var h, m := b / w, b % w;
    DivMod(b, w);
    DivMod(m, p);
    MaskParityParts(b, p, c, h, m, m / p, m % p);
  }

  lemma MaskParityParts(b: nat, p: nat, c: nat, h: nat, m: nat, x: nat, r: nat)
    requires b == h * ((2 * p) * c) + m && m == x * p + r && r < p
    ensures b / p == 2 * (h * c) + x && m / p == x
  {
    DivUnique(m, p, x, r);
    Rearrange(h, p, c);
    Distribute2(2 * (h * c), x, p);
    DivUnique(b, p, 2 * (h * c) + x, r);
  }

  lemma Rearrange(h: nat, p: nat, c: nat)
    ensures h * ((2 * p) * c) == (2 * (h * c)) * p
  {
  }

  lemma Distribute2(x: nat, y: nat, z: nat)
    ensures (x + y) * z == x * z + y * z
  {
  }

  lemma DivUnique(m: nat, p: nat, k: nat, r: nat)
    requires m == k * p + r && r < p
    ensures m / p == k
  {
    var q := m / p;
    assert m == q * p + m % p;
    if q < k {
      MulAtMost(q + 1, k, p);
    } else if q > k {
      MulAtMost(k + 1, q, p);
    }
  }

  lemma MulAtMost(a: nat, b: nat, c: nat)
    requires a <= b
    ensures a * c <= b * c
  {
  }

  // ----- Shifts and bitwise or

  function Shr(x: nat, k: nat): nat {
    DivMod(x, Pow2(k));
    x / Pow2(k)
  }

  function Shl(x: nat, k: nat): nat { x * Pow2(k) }

  function Or(a: nat, b: nat): nat
    decreases a + b
  {
    if a == 0 && b == 0 then 0
    else 2 * Or(a / 2, b / 2) + (if a % 2 == 1 || b % 2 == 1 then 1 else 0)
  }

  lemma {:induction false} OrZero(b: nat)
    ensures Or(0, b) == b
    decreases b
  {
    if b > 0 { OrZero(b / 2); }
  }

  /** Numbers without common bits are added by `|`. */
  lemma {:induction false} OrDisjoint(hi: nat, k: nat, b: nat)
    requires b < Pow2(k)
    ensures Or(hi * Pow2(k), b) == hi * Pow2(k) + b
    decreases k
  {
    var a := hi * Pow2(k);
    if k == 0 {
      assert a == hi && b == 0;
      OrSym(hi, 0);
      OrZero(hi);
    } else if a > 0 || b > 0 {
      assert a == 2 * (hi * Pow2(k - 1));
      OrDisjoint(hi, k - 1, b / 2);
    }
  }

  lemma {:induction false} OrSym(a: nat, b: nat)
    ensures Or(a, b) == Or(b, a)
    decreases a + b
  {
    if a > 0 || b > 0 { OrSym(a / 2, b / 2); }
  }

  // ----- The reader

  /** What a read answers: the number, or 0 once it would pass the limit. */
  function Read(buf: seq<byte>, limit: int, pos: nat, n: nat): nat
    requires limit <= 8 * |buf|
  {
    if pos + n <= limit then Value(buf, pos, n) else 0
  }

  /** Inside the limit two reads make one; from where the limit is passed every read answers 0. */
  lemma {:induction false} ReadSplit(buf: seq<byte>, limit: int, pos: nat, a: nat, b: nat)
    requires limit <= 8 * |buf|
    ensures pos + a + b <= limit ==>
      Read(buf, limit, pos, a + b) == Read(buf, limit, pos, a) * Pow2(b) + Read(buf, limit, pos + a, b)
    ensures forall later :: later >= pos && pos > limit ==> Read(buf, limit, later, b) == 0
  {
    if pos + a + b <= limit { ValueSplit(buf, pos, a, b); }
  }

  class BitReader {
    const buf: seq<byte>
    const limit: int
    var pos: nat

    ghost predicate Valid()
      reads this
    {
      limit % 8 == 0 && limit <= 8 * |buf|
    }

    constructor (data: seq<byte>, bytes: int)
      requires bytes <= |data|
      ensures Valid() && buf == data && limit == 8 * bytes && pos == 0
    {
      buf, limit, pos := data, 8 * bytes, 0;
    }

    method GetBits(n: nat) returns (r: nat)
      requires Valid() && 1 <= n <= 32
      modifies this
      ensures pos == old(pos) + n
      ensures r == Read(buf, limit, old(pos), n)
    {
      pos := pos + n;
      if pos > limit {
        return 0;
      }
      r := Gather(buf, pos - n, n);
    }
  }

  /** Collects bits byte by byte, with `cache | next << shl` and a final right shift. */
  method Gather(buf: seq<byte>, pos: nat, n: nat) returns (r: nat)
    requires 1 <= n <= 32 && pos + n <= 8 * |buf|
    ensures r == Value(buf, pos, n)
  {
    var s := pos % 8;
    var p := pos / 8;
    var cache, shl, next := 0, n + s - 8, buf[p] % Pow2(8 - s);
    ghost var done, from := 0, s;  // bits of the number in `cache`, first bit of `next`
    p := p + 1;
    CachedNothing(buf, pos, n);
    while shl > 0
      invariant 0 <= from < 8 && pos + done == 8 * (p - 1) + from && p <= |buf|
      invariant 0 <= done < n && shl == n - done - (8 - from)
      invariant next == buf[p - 1] % Pow2(8 - from)
      invariant Cached(cache, buf, pos, done, n)
      decreases shl
    {
      ghost var more := done + (8 - from);
      cache := Merge(cache, next, shl, buf, pos, done, more, n, p - 1, from);
      done, from := more, 0;
      next := buf[p];
      p := p + 1;
      shl := shl - 8;
      WholeByte(next);
    }
    LastStep(buf, pos, n, done, p - 1, from, next, cache);
    r := Or(cache, Shr(next, -shl));
  }

  /** The first `done` of `n` bits, in their place. */
  predicate Cached(cache: nat, buf: seq<byte>, pos: nat, done: nat, n: nat) {
    done <= n && pos + done <= 8 * |buf| && cache == Value(buf, pos, done) * Pow2(n - done)
  }

  lemma CachedNothing(buf: seq<byte>, pos: nat, n: nat)
    requires pos <= 8 * |buf|
    ensures Cached(0, buf, pos, 0, n)
  {
  }

  lemma WholeByte(b: byte)
    ensures b % Pow2(8) == b
  {
    Pow2Values();
  }

  /** The leading bits of the last byte complete the number. */
  lemma LastStep(buf: seq<byte>, pos: nat, n: nat, done: nat, q: nat, from: nat, next: nat, cache: nat)
    requires q < |buf| && from < 8 && pos + done == 8 * q + from && pos + n <= 8 * |buf|
    requires done < n <= done + (8 - from)
    requires next == buf[q] % Pow2(8 - from) && Cached(cache, buf, pos, done, n)
    ensures Or(cache, Shr(next, 8 - from - (n - done))) == Value(buf, pos, n)
  {
    LeadingBits(buf, q, from, n - done);
    Complete(buf, pos, done, n - done);
  }

  /** The bits of a byte from one of its bits on, as the shifted rest of the byte. */
  lemma LeadingBits(buf: seq<byte>, q: nat, from: nat, w: nat)
    requires q < |buf| && from + w <= 8
    ensures Value(buf, 8 * q + from, w) == Shr(buf[q] % Pow2(8 - from), 8 - from - w)
  {
    ValueInByte(buf, q, from, w);
  }

  lemma Complete(buf: seq<byte>, pos: nat, done: nat, w: nat)
    requires pos + done + w <= 8 * |buf|
    ensures Or(Value(buf, pos, done) * Pow2(w), Value(buf, pos + done, w)) == Value(buf, pos, done + w)
  {
    ValueSplit(buf, pos, done, w);
    ValueBound(buf, pos + done, w);
    OrDisjoint(Value(buf, pos, done), w, Value(buf, pos + done, w));
  }

  /** `cache | next << shl`: the rest of byte `q` joins the cache. */
  method Merge(cache: nat, next: nat, shl: nat, ghost buf: seq<byte>, ghost pos: nat, ghost done: nat, ghost more: nat,
               ghost n: nat, ghost q: nat, ghost from: nat)
    returns (r: nat)
    requires q < |buf| && from < 8 && pos + done == 8 * q + from && pos + done + (8 - from) <= 8 * |buf|
    requires next == buf[q] % Pow2(8 - from) && more == done + (8 - from) && n == more + shl
    requires Cached(cache, buf, pos, done, n)
    ensures Cached(r, buf, pos, more, n)
  {
    MergeValue(buf, pos, done, q, from);
    OrShifted(Value(buf, pos, done), next, shl, 8 - from);
    r := Or(cache, Shl(next, shl));
  }

  lemma MergeValue(buf: seq<byte>, pos: nat, done: nat, q: nat, from: nat)
    requires q < |buf| && from < 8 && pos + done == 8 * q + from && pos + done + (8 - from) <= 8 * |buf|
    ensures var w := 8 - from; var next := buf[q] % Pow2(w);
      next < Pow2(w) && Value(buf, pos, done + w) == Value(buf, pos, done) * Pow2(w) + next
  {
    RestOfByte(buf, q, from);
    ValueBound(buf, pos + done, 8 - from);
    ValueSplit(buf, pos, done, 8 - from);
  }

  lemma RestOfByte(buf: seq<byte>, q: nat, from: nat)
    requires q < |buf| && from <= 8
    ensures Value(buf, 8 * q + from, 8 - from) == buf[q] % Pow2(8 - from)
  {
    ValueInByte(buf, q, from, 8 - from);
    assert Pow2(0) == 1;
  }

  lemma OrShifted(hi: nat, next: nat, shl: nat, w: nat)
    requires next < Pow2(w)
    ensures Or(hi * Pow2(shl + w), Shl(next, shl)) == (hi * Pow2(w) + next) * Pow2(shl)
  {
    Pow2Add(w, shl);
    MulLess(next, Pow2(w), Pow2(shl));
    OrDisjoint(hi, shl + w, next * Pow2(shl));
    Distribute(hi, Pow2(w), next, Pow2(shl));
  }
}
