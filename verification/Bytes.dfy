/** Bytes and the few operations on byte memories that every other module uses. */
module Bytes {
  type byte = x: int | 0 <= x < 256

  function Min(a: int, b: int): int {
    if a < b then a else b
  }

  function Max(a: int, b: int): int {
    if a < b then b else a
  }

  /** Two bytes, most significant first. */
  function Word(hi: byte, lo: byte): (w: nat)
    ensures w < 0x1_0000
  {
    256 * hi + lo
  }

  /** The low sixteen bits of a number, from its two low bytes. */
  lemma WordOf(n: nat)
    ensures Word(n / 256 % 256, n % 256) == n % 0x1_0000
  {
  }

  /** A byte read as a signed 8-bit number. */
  function Signed(b: byte): int {
    if b < 128 then b else b - 256
  }

  /** Reading past the end of a memory answers zero. */
  function ByteAt(s: seq<byte>, i: nat): byte {
    if i < |s| then s[i] else 0
  }

  /** Copy data into s from offset off; whatever would fall past the end is dropped. */
  function WriteAt(s: seq<byte>, off: nat, data: seq<byte>): (t: seq<byte>)
    ensures |t| == |s|
  {
    seq(|s|, i requires 0 <= i < |s| => if off <= i < off + |data| then data[i - off] else s[i])
  }

  /** The len bytes of s from offset off, as far as s reaches. */
  function Slice(s: seq<byte>, off: nat, len: nat): seq<byte> {
    s[Min(off, |s|)..Min(off + len, |s|)]
  }

  function Pow2(n: nat): (p: nat)
    ensures p > 0
  {
    if n == 0 then 1 else 2 * Pow2(n - 1)
  }

  // ---- 16-bit registers, kept as the set of their bits that are up ----

  type Bits = set<nat>

  /** The number the bits from i up to 15 make, bit i counting one. */
  function NumberFrom(s: Bits, i: nat): (w: nat)
    requires i <= 16
    decreases 16 - i
  {
    if i == 16 then 0 else (if i in s then 1 else 0) + 2 * NumberFrom(s, i + 1)
  }

  lemma {:induction false} NumberBelow(s: Bits, i: nat)
    requires i <= 16
    ensures NumberFrom(s, i) < Pow2(16 - i)
    decreases 16 - i
  {
    if i < 16 {
      NumberBelow(s, i + 1);
    }
  }

  lemma Number16(s: Bits)
    ensures NumberFrom(s, 0) < 0x1_0000
  {
    NumberBelow(s, 0);
    Pow2Sixteen();
    hide Pow2, NumberFrom;
  }

  function BitsFrom(w: nat, i: nat): (s: Bits)
    requires i <= 16
    ensures forall k :: k in s ==> i <= k < 16
    decreases 16 - i
  {
    if i == 16 then {} else (if w % 2 == 1 then {i} else {}) + BitsFrom(w / 2, i + 1)
  }

  /** The high and the low byte of a register. */
  function High(s: Bits): byte {
    assert NumberFrom(s, 0) < 0x1_0000 by { Number16(s); }
    NumberFrom(s, 0) / 256
  }

  function Low(s: Bits): byte {
    NumberFrom(s, 0) % 256
  }

  /** The register two bytes stand for. */
  function Register(hi: byte, lo: byte): Bits {
    BitsFrom(Word(hi, lo), 0)
  }

  lemma Pow2Sixteen()
    ensures Pow2(16) == 0x1_0000
  {
    assert Pow2(4) == 16;
    assert Pow2(8) == 256;
    assert Pow2(12) == 4096;
  }

  lemma {:induction false} NumberBits(s: Bits, i: nat, k: nat)
    requires i <= 16
    ensures k in BitsFrom(NumberFrom(s, i), i) <==> k in s && i <= k < 16
    decreases 16 - i
  {
    hide BitsFrom;
    if i < 16 {
      var bit, rest := if i in s then 1 else 0, NumberFrom(s, i + 1);
      assert NumberFrom(s, i) == bit + 2 * rest;
      hide NumberFrom;
      FirstBit(i, bit, rest);
      NumberBits(s, i + 1, k);
    }
  }

  lemma FirstBit(i: nat, bit: nat, rest: nat)
    requires i < 16 && bit <= 1
    ensures BitsFrom(bit + 2 * rest, i) == (if bit == 1 then {i} else {}) + BitsFrom(rest, i + 1)
  {
    assert (bit + 2 * rest) % 2 == bit && (bit + 2 * rest) / 2 == rest;
  }

  /** A bit of the upper byte makes the upper byte nonzero; bit 0 makes the lower one odd. */
  lemma BytesNonzero(s: Bits)
    ensures 8 in s ==> High(s) > 0
    ensures 0 in s ==> Low(s) > 0
  {
    hide Pow2;
    var w, rest := NumberFrom(s, 0), NumberFrom(s, 1);
    assert w == (if 0 in s then 1 else 0) + 2 * rest;
    hide NumberFrom;
    if 8 in s {
      NumberAtLeast(s, 0, 8);
      Pow2Eight();
    }
    ByteOfOdd(w, rest);
  }

  lemma ByteOfOdd(w: nat, rest: nat)
    ensures w == 1 + 2 * rest ==> w % 256 > 0
    ensures w >= 256 ==> w / 256 > 0
  {
    assert w == 256 * (w / 256) + w % 256;
  }

  lemma Pow2Eight()
    ensures Pow2(8) == 256
  {
    assert Pow2(4) == 16;
  }

  lemma {:induction false} NumberAtLeast(s: Bits, i: nat, k: nat)
    requires i <= k < 16 && k in s
    ensures NumberFrom(s, i) >= Pow2(k - i)
    decreases k - i
  {
    if i < k {
      NumberAtLeast(s, i + 1, k);
    }
  }

  lemma Halves(w: nat)
    ensures 256 * (w / 256) + w % 256 == w
  {
  }

  /** What is written out as two bytes reads back as the same sixteen bits. */
  lemma RegisterRoundTrip(s: Bits)
    ensures Register(High(s), Low(s)) == set k | k in s && k < 16
  {
    hide BitsFrom, NumberFrom;
    forall k: nat ensures k in BitsFrom(NumberFrom(s, 0), 0) <==> k in s && k < 16 {
      NumberBits(s, 0, k);
    }
    Halves(NumberFrom(s, 0));
    assert Word(High(s), Low(s)) == NumberFrom(s, 0);
  }
}
