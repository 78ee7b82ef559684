/** Byte-level integer layouts shared by both codecs: fixed-width unsigned
    integers and their big- and little-endian byte images. */
module Bytes {

  type byte = x: int | 0 <= x < 0x100
  type u16 = x: int | 0 <= x < 0x1_0000
  type u32 = x: int | 0 <= x < 0x1_0000_0000
  type u64 = x: int | 0 <= x < 0x1_0000_0000_0000_0000

  /** 256 to the power n: the number of values n bytes can hold. */
  function Pow256(n: nat): (p: nat)
    ensures p >= 1
  {
    if n == 0 then 1 else 256 * Pow256(n - 1)
  }

  lemma Pow256Widths()
    ensures Pow256(1) == 0x100 && Pow256(2) == 0x1_0000 && Pow256(4) == 0x1_0000_0000
    ensures Pow256(8) == 0x1_0000_0000_0000_0000
  {
    assert Pow256(4) == 0x1_0000_0000;
    assert Pow256(8) == 0x1_0000_0000 * Pow256(4);
  }

  /** n zero bytes: what a padding field is built from. */
  function Zeros(n: nat): (z: seq<byte>)
    ensures |z| == n
    ensures forall i :: 0 <= i < n ==> z[i] == 0
  {
    seq(n, _ => 0)
  }

  // ---------------------------------------------------------------------------
  // Little-endian: byte 0 is the least significant.

  function DecodeLE(s: seq<byte>): (v: nat)
    ensures v < Pow256(|s|)
  {
    if s == [] then 0 else s[0] + 256 * DecodeLE(s[1..])
  }

  /** The n low bytes of v, least significant first (what `struct.pack('<…')` writes). */
  function EncodeLE(v: nat, n: nat): (s: seq<byte>)
    ensures |s| == n
  {
    if n == 0 then [] else [v % 256] + EncodeLE(v / 256, n - 1)
  }

  lemma {:induction false} DecodeEncodeLE(v: nat, n: nat)
    requires v < Pow256(n)
    ensures DecodeLE(EncodeLE(v, n)) == v
  {
    if n > 0 {
      DecodeEncodeLE(v / 256, n - 1);
      assert EncodeLE(v, n)[1..] == EncodeLE(v / 256, n - 1);
    }
  }

  lemma {:induction false} EncodeDecodeLE(s: seq<byte>)
    ensures EncodeLE(DecodeLE(s), |s|) == s
  {
    if s != [] {
      var v := DecodeLE(s);
      assert v % 256 == s[0] && v / 256 == DecodeLE(s[1..]);
      EncodeDecodeLE(s[1..]);
      assert s == [s[0]] + s[1..];
    }
  }

  // ---------------------------------------------------------------------------
  // Big-endian: byte 0 is the most significant.

  function DecodeBE(s: seq<byte>): (v: nat)
    ensures v < Pow256(|s|)
  {
    if s == [] then 0 else 256 * DecodeBE(s[..|s| - 1]) + s[|s| - 1]
  }

  /** The n low bytes of v, most significant first (what `Int16ub`/`Int32ub` write). */
  function EncodeBE(v: nat, n: nat): (s: seq<byte>)
    ensures |s| == n
  {
    if n == 0 then [] else EncodeBE(v / 256, n - 1) + [v % 256]
  }

  lemma {:induction false} DecodeEncodeBE(v: nat, n: nat)
    requires v < Pow256(n)
    ensures DecodeBE(EncodeBE(v, n)) == v
  {
    if n > 0 {
      var s := EncodeBE(v, n);
      assert s[..|s| - 1] == EncodeBE(v / 256, n - 1);
      DecodeEncodeBE(v / 256, n - 1);
    }
  }

  lemma {:induction false} EncodeDecodeBE(s: seq<byte>)
    ensures EncodeBE(DecodeBE(s), |s|) == s
  {
    if s != [] {
      var v := DecodeBE(s);
      var init := s[..|s| - 1];
      assert v % 256 == s[|s| - 1] && v / 256 == DecodeBE(init);
      EncodeDecodeBE(init);
      assert s == init + [s[|s| - 1]];
    }
  }

  /** Decoding reads nothing but the bytes given: equal images decode equally,
      and a value's image is determined by the value. */
  lemma BEInjective(s: seq<byte>, t: seq<byte>)
    requires |s| == |t| && DecodeBE(s) == DecodeBE(t)
    ensures s == t
  {
    EncodeDecodeBE(s);
    EncodeDecodeBE(t);
  }

  lemma LEInjective(s: seq<byte>, t: seq<byte>)
    requires |s| == |t| && DecodeLE(s) == DecodeLE(t)
    ensures s == t
  {
    EncodeDecodeLE(s);
    EncodeDecodeLE(t);
  }
}
