/** Bit operations on non-negative integers, as Python evaluates them on its
    unbounded `int`: right shift, masking, exclusive or, and counting set bits. */
module Bits {
  import opened Bytes

  function Pow2(k: nat): (p: nat)
    ensures p >= 1
  {
    if k == 0 then 1 else 2 * Pow2(k - 1)
  }

  /** `x >> k` for x >= 0: k halvings, each rounding down. */
  function ShiftRight(x: nat, k: nat): nat
  {
    if k == 0 then x else ShiftRight(x / 2, k - 1)
  }

  /** `(x >> i) & 1`. */
  function Bit(x: nat, i: nat): (b: nat)
    ensures b < 2
  {
    ShiftRight(x, i) % 2
  }

  /** `x & (2**k - 1)`: the k least significant bits of x. */
  function LowBits(x: nat, k: nat): nat
  {
    if k == 0 then 0 else x % 2 + 2 * LowBits(x / 2, k - 1)
  }

  /** `x ^ y`, bit by bit from the least significant end. */
  function Xor(x: nat, y: nat): nat
    decreases x + y
  {
    if x == 0 then y
    else if y == 0 then x
    else (x + y) % 2 + 2 * Xor(x / 2, y / 2)
  }

  /** The number of one bits in x (`bin(x).count('1')`). */
  function PopCount(x: nat): nat
  {
    if x == 0 then 0 else x % 2 + PopCount(x / 2)
  }

  /** The number of one bits in a sequence of bytes. */
  function PopCountBytes(s: seq<byte>): nat
  {
    if s == [] then 0 else PopCount(s[0]) + PopCountBytes(s[1..])
  }

  // ---------------------------------------------------------------------------
  // One step of each definition, valid for every argument.

  lemma PopCountStep(x: nat)
    ensures PopCount(x) == x % 2 + PopCount(x / 2)
  {
  }

  lemma XorStep(x: nat, y: nat)
    ensures Xor(x, y) == (x + y) % 2 + 2 * Xor(x / 2, y / 2)
  {
    if x == 0 {
      assert Xor(x / 2, y / 2) == y / 2;
      Recompose(y);
    } else if y == 0 {
      assert Xor(x / 2, y / 2) == x / 2;
      Recompose(x);
    } else {
      assert Xor(x, y) == (x + y) % 2 + 2 * Xor(x / 2, y / 2);
    }
  }

  lemma DivModTwo(r: nat, q: nat)
    requires r < 2
    ensures (r + 2 * q) % 2 == r && (r + 2 * q) / 2 == q
  {
  }

  lemma XorHalves(x: nat, y: nat)
    ensures Xor(x, y) % 2 == (x + y) % 2
    ensures Xor(x, y) / 2 == Xor(x / 2, y / 2)
  {
    XorStep(x, y);
    DivModTwo((x + y) % 2, Xor(x / 2, y / 2));
  }

  // ---------------------------------------------------------------------------
  // Exclusive or

  /** The one bits of `x ^ y` have the parity of those of x and y together. */
  lemma {:induction false} XorParity(x: nat, y: nat)
    ensures PopCount(Xor(x, y)) % 2 == (PopCount(x) + PopCount(y)) % 2
    decreases x + y
  {
    if x == 0 {
      assert Xor(x, y) == y && PopCount(x) == 0;
    } else if y == 0 {
      assert Xor(x, y) == x && PopCount(y) == 0;
    } else {
      XorParity(x / 2, y / 2);
      PopCountXorStep(x, y);
      PopCountStep(x);
      PopCountStep(y);
      ParityStep(x, y, PopCount(Xor(x, y)), PopCount(x), PopCount(y),
        PopCount(Xor(x / 2, y / 2)), PopCount(x / 2), PopCount(y / 2));
    }
  }

  lemma PopCountXorStep(x: nat, y: nat)
    requires x != 0 && y != 0
    ensures PopCount(Xor(x, y)) == (x + y) % 2 + PopCount(Xor(x / 2, y / 2))
  {
    XorHalves(x, y);
    PopCountStep(Xor(x, y));
  }

  /** The arithmetic of one XorParity step, with the counts as plain numbers. */
  lemma ParityStep(x: nat, y: nat, z: nat, u: nat, v: nat, z': nat, u': nat, v': nat)
    requires z == (x + y) % 2 + z' && u == x % 2 + u' && v == y % 2 + v'
    requires z' % 2 == (u' + v') % 2
    ensures z % 2 == (u + v) % 2
  {
  }

  /** `x ^ y` has no bit above the widest of x and y. */
  lemma {:induction false} XorBound(x: nat, y: nat, k: nat)
    requires x < Pow2(k) && y < Pow2(k)
    ensures Xor(x, y) < Pow2(k)
  {
    if k > 0 {
      XorBound(x / 2, y / 2, k - 1);
      XorStep(x, y);
    }
  }

  /** Masking commutes with exclusive or. */
  lemma {:induction false} XorLowBits(x: nat, y: nat, k: nat)
    ensures LowBits(Xor(x, y), k) == Xor(LowBits(x, k), LowBits(y, k))
  {
    if k > 0 {
      var a, b := LowBits(x, k), LowBits(y, k);
      var l := LowBits(Xor(x, y), k);
      LowBitsHalves(x, k);
      LowBitsHalves(y, k);
      LowBitsHalves(Xor(x, y), k);
      XorHalves(x, y);
      XorLowBits(x / 2, y / 2, k - 1);
      assert l / 2 == Xor(a / 2, b / 2);
      SumMod2(a, b);
      SumMod2(x, y);
      assert l % 2 == (a + b) % 2;
      XorStep(a, b);
      Recompose(l);
    }
  }

  lemma LowBitsStep(x: nat, k: nat)
    requires k > 0
    ensures LowBits(x, k) == x % 2 + 2 * LowBits(x / 2, k - 1)
  {
  }

  lemma Recompose(n: nat)
    ensures n == n % 2 + 2 * (n / 2)
  {
  }

  lemma LowBitsHalves(x: nat, k: nat)
    requires k > 0
    ensures LowBits(x, k) % 2 == x % 2 && LowBits(x, k) / 2 == LowBits(x / 2, k - 1)
  {
    DivModTwo(x % 2, LowBits(x / 2, k - 1));
  }

  lemma SumMod2(a: nat, b: nat)
    ensures (a + b) % 2 == (a % 2 + b % 2) % 2
  {
  }

  // ---------------------------------------------------------------------------
  // Shifts and masks

  lemma {:induction false} ShiftRightAdd(x: nat, a: nat, b: nat)
    ensures ShiftRight(x, a + b) == ShiftRight(ShiftRight(x, a), b)
  {
    if a > 0 {
      ShiftRightAdd(x / 2, a - 1, b);
    }
  }

  lemma {:induction false} ShiftRightBelow(x: nat, k: nat)
    ensures ShiftRight(x, k) <= x
  {
    if k > 0 {
      ShiftRightBelow(x / 2, k - 1);
    }
  }

  lemma {:induction false} Pow2Monotonic(a: nat, b: nat)
    requires a <= b
    ensures Pow2(a) <= Pow2(b)
  {
    if a < b {
      Pow2Monotonic(a, b - 1);
    }
  }

  lemma {:induction false} Pow2Add(a: nat, b: nat)
    ensures Pow2(a + b) == Pow2(a) * Pow2(b)
  {
    if a > 0 {
      Pow2Add(a - 1, b);
      assert Pow2(a) * Pow2(b) == 2 * (Pow2(a - 1) * Pow2(b));
    }
  }

  /** Shifting out every bit of a value leaves zero. */
  lemma {:induction false} ShiftRightPastTop(x: nat, j: nat, k: nat)
    requires x < Pow2(j) && j <= k
    ensures ShiftRight(x, k) == 0
  {
    if k > 0 {
      if j == 0 {
        ShiftRightPastTop(x / 2, 0, k - 1);
      } else {
        ShiftRightPastTop(x / 2, j - 1, k - 1);
      }
    }
  }

  lemma {:induction false} LowBitsOfSmall(x: nat, k: nat)
    requires x < Pow2(k)
    ensures LowBits(x, k) == x
  {
    if k > 0 {
      LowBitsOfSmall(x / 2, k - 1);
    }
  }

  /** `q << k`: k doublings. */
  function ShiftLeft(q: nat, k: nat): nat
  {
    if k == 0 then q else 2 * ShiftLeft(q, k - 1)
  }

  lemma ShiftLeftByte(q: nat)
    ensures ShiftLeft(q, 8) == 256 * q
  {
    assert ShiftLeft(q, 1) == 2 * q;
    assert ShiftLeft(q, 2) == 4 * q;
    assert ShiftLeft(q, 3) == 8 * q;
    assert ShiftLeft(q, 4) == 16 * q;
    assert ShiftLeft(q, 5) == 32 * q;
    assert ShiftLeft(q, 6) == 64 * q;
    assert ShiftLeft(q, 7) == 128 * q;
  }

  lemma Pow2Byte()
    ensures Pow2(8) == 256
  {
    assert Pow2(4) == 16;
  }

  /** Splitting `r | q << k` at bit k gives back r and q. */
  lemma {:induction false} SplitAt(r: nat, q: nat, k: nat)
    requires r < Pow2(k)
    ensures LowBits(r + ShiftLeft(q, k), k) == r
    ensures ShiftRight(r + ShiftLeft(q, k), k) == q
  {
    if k > 0 {
      var n := r + ShiftLeft(q, k);
      assert n % 2 == r % 2 && n / 2 == r / 2 + ShiftLeft(q, k - 1);
      SplitAt(r / 2, q, k - 1);
    }
  }

  /** The bits of `r | q << k` below k are those of r, the ones from k up those of q. */
  lemma {:induction false} BitOfJoin(r: nat, q: nat, k: nat, i: nat)
    requires r < Pow2(k)
    ensures i < k ==> Bit(r + ShiftLeft(q, k), i) == Bit(r, i)
    ensures i >= k ==> Bit(r + ShiftLeft(q, k), i) == Bit(q, i - k)
  {
    var n := r + ShiftLeft(q, k);
    if i >= k {
      SplitAt(r, q, k);
      ShiftRightAdd(n, k, i - k);
    } else if i > 0 {
      assert n / 2 == r / 2 + ShiftLeft(q, k - 1);
      BitOfJoin(r / 2, q, k - 1, i - 1);
    }
  }

  // ---------------------------------------------------------------------------
  // Counting bits

  lemma PopCountCons(r: nat, m: nat)
    requires r < 2
    ensures PopCount(r + 2 * m) == r + PopCount(m)
  {
    PopCountStep(r + 2 * m);
  }

  /** The one bits of x are those below bit k plus those from bit k up. */
  lemma {:induction false} PopCountSplit(x: nat, k: nat)
    ensures PopCount(x) == PopCount(LowBits(x, k)) + PopCount(ShiftRight(x, k))
  {
    if k > 0 {
      PopCountSplit(x / 2, k - 1);
      PopCountStep(x);
      PopCountCons(x % 2, LowBits(x / 2, k - 1));
    }
  }

  /** Within a window of a + b low bits, the one bits split at bit a. */
  lemma PopCountLowSplit(x: nat, a: nat, b: nat)
    ensures PopCount(LowBits(x, a + b)) == PopCount(LowBits(x, a)) + PopCount(LowBits(ShiftRight(x, a), b))
  {
    LowBitsJoin(x, a, b);
    LowBitsBelow(x, a);
    PopCountJoin(LowBits(x, a), LowBits(ShiftRight(x, a), b), a);
  }

  /** The a + b low bits of x are its a low bits joined with the next b. */
  lemma {:induction false} LowBitsJoin(x: nat, a: nat, b: nat)
    ensures LowBits(x, a + b) == LowBits(x, a) + ShiftLeft(LowBits(ShiftRight(x, a), b), a)
  {
    if a > 0 {
      LowBitsJoin(x / 2, a - 1, b);
      assert ShiftRight(x, a) == ShiftRight(x / 2, a - 1);
      LowBitsStep(x, a + b);
      LowBitsStep(x, a);
    }
  }

  lemma {:induction false} LowBitsBelow(x: nat, k: nat)
    ensures LowBits(x, k) < Pow2(k)
  {
    if k > 0 {
      LowBitsBelow(x / 2, k - 1);
    }
  }

  lemma PopCountJoin(r: nat, q: nat, k: nat)
    requires r < Pow2(k)
    ensures PopCount(r + ShiftLeft(q, k)) == PopCount(r) + PopCount(q)
  {
    PopCountSplit(r + ShiftLeft(q, k), k);
    SplitAt(r, q, k);
  }

  lemma PopCountJoinByte(r: byte, q: nat)
    ensures PopCount(r + 256 * q) == PopCount(r) + PopCount(q)
  {
    Pow2Byte();
    ShiftLeftByte(q);
    PopCountJoin(r, q, 8);
  }

  /** One fold step `x ^= x >> k` keeps, in the k low bits, the parity of the 2k low bits. */
  lemma FoldStep(x: nat, k: nat)
    ensures PopCount(LowBits(Xor(x, ShiftRight(x, k)), k)) % 2 == PopCount(LowBits(x, k + k)) % 2
  {
    XorLowBits(x, ShiftRight(x, k), k);
    XorParity(LowBits(x, k), LowBits(ShiftRight(x, k), k));
    PopCountLowSplit(x, k, k);
  }

  // ---------------------------------------------------------------------------
  // Bits of byte sequences

  lemma {:induction false} PopCountBytesSnoc(s: seq<byte>, b: byte)
    ensures PopCountBytes(s + [b]) == PopCountBytes(s) + PopCount(b)
  {
    if s != [] {
      assert (s + [b])[1..] == s[1..] + [b];
      PopCountBytesSnoc(s[1..], b);
    }
  }

  /** The one bits of a little-endian value are the one bits of its bytes. */
  lemma {:induction false} PopCountLE(s: seq<byte>)
    ensures PopCount(DecodeLE(s)) == PopCountBytes(s)
  {
    if s != [] {
      PopCountLE(s[1..]);
      PopCountJoinByte(s[0], DecodeLE(s[1..]));
    }
  }

  /** The one bits of a big-endian value are the one bits of its bytes. */
  lemma {:induction false} PopCountBE(s: seq<byte>)
    ensures PopCount(DecodeBE(s)) == PopCountBytes(s)
  {
    if s != [] {
      var init, last := s[..|s| - 1], s[|s| - 1];
      PopCountBE(init);
      PopCountJoinByte(last, DecodeBE(init));
      PopCountBytesSnoc(init, last);
      assert s == init + [last];
    }
  }

  /** Only position j changes its count when byte j is replaced. */
  lemma {:induction false} PopCountBytesUpdate(s: seq<byte>, j: nat, b: byte)
    requires j < |s|
    ensures PopCountBytes(s[j := b]) + PopCount(s[j]) == PopCountBytes(s) + PopCount(b)
  {
    if j > 0 {
      assert s[j := b][1..] == s[1..][j - 1 := b];
      PopCountBytesUpdate(s[1..], j - 1, b);
    } else {
      assert s[j := b][1..] == s[1..];
    }
  }

  lemma {:induction false} PopCountPow2(t: nat)
    ensures PopCount(Pow2(t)) == 1
  {
    if t == 0 {
      PopCountStep(1);
    } else {
      PopCountPow2(t - 1);
      PopCountCons(0, Pow2(t - 1));
      assert Pow2(t) == 0 + 2 * Pow2(t - 1);
    }
  }

  /** Bit 8j + t of a little-endian value is bit t of byte j. */
  lemma {:induction false} BitOfLE(s: seq<byte>, j: nat, t: nat)
    requires j < |s| && t < 8
    ensures Bit(DecodeLE(s), 8 * j + t) == Bit(s[j], t)
  {
    Pow2Byte();
    ShiftLeftByte(DecodeLE(s[1..]));
    BitOfJoin(s[0], DecodeLE(s[1..]), 8, 8 * j + t);
    if j > 0 {
      BitOfLE(s[1..], j - 1, t);
    }
  }
}
