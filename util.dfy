/** `parity64` (util.py): the exclusive or of the 64 bits of an 8-byte packet,
    computed by folding the big-endian value onto itself. */
module Util {
  import opened Bytes
  import opened Bits
  import opened Results

  const Two64: nat := 0x1_0000_0000_0000_0000

  /** The value util.py:4-5 assembles: `data[0] << 56 | … | data[7]`. The eight
      shifted bytes occupy disjoint bit ranges, so their OR is their sum. */
  function Assembled(data: seq<byte>): (x: nat)
    requires |data| >= 8
    ensures x == DecodeBE(data[..8])
    ensures x < Two64
  {
    DecodeBEPrefixes(data);
    (data[0] as int) * 0x100_0000_0000_0000 + (data[1] as int) * 0x1_0000_0000_0000 +
    (data[2] as int) * 0x100_0000_0000 + (data[3] as int) * 0x1_0000_0000 +
    (data[4] as int) * 0x100_0000 + (data[5] as int) * 0x1_0000 + (data[6] as int) * 0x100 + data[7]
  }

  /** One `x ^= x >> k` of util.py:6-11. */
  function Fold(x: nat, k: nat): nat
  {
    Xor(x, ShiftRight(x, k))
  }

  /** `parity64(data)`; None stands for the IndexError of an input shorter than 8 bytes. */
  function Parity64(data: seq<byte>): (r: Option<nat>)
    ensures r.Some? <==> |data| >= 8
    ensures r.Some? ==> r.value < 2
  {
    if |data| < 8 then None
    else
      var x := Assembled(data);
      var x := Fold(x, 32);
      var x := Fold(x, 16);
      var x := Fold(x, 8);
      var x := Fold(x, 4);
      var x := Fold(x, 2);
      var x := Fold(x, 1);
      Some(x % 2)
  }

  // ---------------------------------------------------------------------------

  lemma Pow2Of16()
    ensures Pow2(16) == 0x1_0000
  {
    Pow2Byte();
    Pow2Add(8, 8);
  }

  lemma Pow2Of32()
    ensures Pow2(32) == 0x1_0000_0000
  {
    Pow2Of16();
    Pow2Add(16, 16);
  }

  lemma Pow2Of64()
    ensures Pow2(64) == Two64
  {
    Pow2Of32();
    Pow2Add(32, 32);
  }

  lemma DecodeBEPrefixes(data: seq<byte>)
    requires |data| >= 8
    ensures DecodeBE(data[..8]) ==
      (data[0] as int) * 0x100_0000_0000_0000 + (data[1] as int) * 0x1_0000_0000_0000 +
      (data[2] as int) * 0x100_0000_0000 + (data[3] as int) * 0x1_0000_0000 +
      (data[4] as int) * 0x100_0000 + (data[5] as int) * 0x1_0000 + (data[6] as int) * 0x100 + data[7]
  {
    forall k | 0 <= k < 8
      ensures DecodeBE(data[..k + 1]) == 256 * DecodeBE(data[..k]) + data[k]
    {
      assert data[..k + 1][..k] == data[..k];
    }
    assert DecodeBE(data[..0]) == 0;
  }

  /** Every fold keeps the value below 2**64, so Python's unbounded int never
      grows past the 64 bits it started with. */
  lemma FoldKeepsWidth(x: nat, k: nat)
    requires x < Two64
    ensures Fold(x, k) < Two64
  {
    Pow2Of64();
    ShiftRightBelow(x, k);
    XorBound(x, ShiftRight(x, k), 64);
  }

  /** The result is the number of one bits among the first eight bytes, modulo 2. */
  lemma Parity64CountsOnes(data: seq<byte>)
    requires |data| >= 8
    ensures Parity64(data) == Some(PopCountBytes(data[..8]) % 2)
  {
    var x0 := Assembled(data);
    var x1 := Fold(x0, 32);
    var x2 := Fold(x1, 16);
    var x3 := Fold(x2, 8);
    var x4 := Fold(x3, 4);
    var x5 := Fold(x4, 2);
    var x6 := Fold(x5, 1);
    calc {
      x6 % 2;
      PopCount(LowBits(x6, 1)) % 2;
      { FoldStep(x5, 1); }
      PopCount(LowBits(x5, 2)) % 2;
      { FoldStep(x4, 2); }
      PopCount(LowBits(x4, 4)) % 2;
      { FoldStep(x3, 4); }
      PopCount(LowBits(x3, 8)) % 2;
      { FoldStep(x2, 8); }
      PopCount(LowBits(x2, 16)) % 2;
      { FoldStep(x1, 16); }
      PopCount(LowBits(x1, 32)) % 2;
      { FoldStep(x0, 32); }
      PopCount(LowBits(x0, 64)) % 2;
      { Pow2Of64(); LowBitsOfSmall(x0, 64); }
      PopCount(x0) % 2;
      { PopCountBE(data[..8]); }
      PopCountBytes(data[..8]) % 2;
    }
  }

  /** `b ^ (1 << t)` is still a byte. */
  lemma FlipStaysByte(b: byte, t: nat)
    requires t < 8
    ensures Xor(b, Pow2(t)) < 256
  {
    Pow2Byte();
    Pow2Monotonic(t, 8);
    XorBound(b, Pow2(t), 8);
  }

  /** Replacing byte j by `s[j] ^ (1 << t)` changes the number of one bits by one. */
  lemma FlipChangesCount(s: seq<byte>, j: nat, t: nat)
    requires j < |s| && t < 8
    ensures Xor(s[j], Pow2(t)) < 256
    ensures PopCountBytes(s[j := Xor(s[j], Pow2(t))]) % 2 == 1 - PopCountBytes(s) % 2
  {
    FlipStaysByte(s[j], t);
    var b: byte := Xor(s[j], Pow2(t));
    PopCountBytesUpdate(s, j, b);
    XorParity(s[j], Pow2(t));
    PopCountPow2(t);
    OneMoreFlipsParity(PopCountBytes(s[j := b]), PopCount(s[j]), PopCountBytes(s), PopCount(b));
  }

  /** If n' + c == n + c' and c' has the other parity from c, n' has the other parity from n. */
  lemma OneMoreFlipsParity(n': nat, c: nat, n: nat, c': nat)
    requires n' + c == n + c' && c' % 2 == (c + 1) % 2
    ensures n' % 2 == 1 - n % 2
  {
  }

  /** Flipping any one of the 64 bits (`data[j] ^ (1 << t)`) flips the result. */
  lemma Parity64FlipBit(data: seq<byte>, j: nat, t: nat, p: nat)
    requires |data| >= 8 && j < 8 && t < 8
    requires Parity64(data) == Some(p)
    ensures Xor(data[j], Pow2(t)) < 256
    ensures Parity64(data[j := Xor(data[j], Pow2(t))]) == Some(1 - p)
  {
    FlipPrefixCount(data, j, t);
    var flipped := data[j := Xor(data[j], Pow2(t))];
    Parity64CountsOnes(data);
    Parity64CountsOnes(flipped);
    OtherParity(Parity64(data), Parity64(flipped), p, PopCountBytes(data[..8]), PopCountBytes(flipped[..8]));
  }

  lemma OtherParity(before: Option<nat>, after: Option<nat>, p: nat, n: nat, n': nat)
    requires before == Some(p) && before == Some(n % 2)
    requires after == Some(n' % 2) && n' % 2 == 1 - n % 2
    ensures after == Some(1 - p)
  {
  }

  lemma FlipPrefixCount(data: seq<byte>, j: nat, t: nat)
    requires |data| >= 8 && j < 8 && t < 8
    ensures Xor(data[j], Pow2(t)) < 256
    ensures var flipped := data[j := Xor(data[j], Pow2(t))];
      PopCountBytes(flipped[..8]) % 2 == 1 - PopCountBytes(data[..8]) % 2
  {
    FlipStaysByte(data[j], t);
    var b: byte := Xor(data[j], Pow2(t));
    assert data[j := b][..8] == data[..8][j := b];
    FlipChangesCount(data[..8], j, t);
  }

  /** Parity does not depend on byte order: reading the same eight bytes as a
      little-endian u64 (as ncurses/pacmon.py does) gives the same count. */
  lemma Parity64ByteOrder(data: seq<byte>)
    requires |data| >= 8
    ensures Parity64(data) == Some(PopCount(DecodeLE(data[..8])) % 2)
  {
    Parity64CountsOnes(data);
    PopCountLE(data[..8]);
  }
}
