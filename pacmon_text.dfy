/** The string helpers of ncurses/pacmon.py that the counters go through:
    Python 2's `hex`, `_int_parser`, and `print_larpix_bits`, which spells out
    the 64 bits of a number least significant first. */
module PacmonText {
  import opened Bits
  import opened Results

  // ---------------------------------------------------------------------------
  // Digits

  /** The value of a digit character, in any base up to 16 (either case for a-f). */
  function DigitValue(c: char): Option<nat>
  {
    if '0' <= c <= '9' then Some(c as int - '0' as int)
    else if 'a' <= c <= 'f' then Some(c as int - 'a' as int + 10)
    else if 'A' <= c <= 'F' then Some(c as int - 'A' as int + 10)
    else None
  }

  /** `int(s, base)` on a string of digits: None (a `ValueError`) when s is
      empty or holds a character that is not a digit of the base. */
  function DigitsValue(s: string, base: nat): (r: Option<nat>)
    decreases |s|
  {
    if s == [] then None
    else
      match DigitValue(s[|s| - 1])
      case None => None
      case Some(d) =>
        if d >= base then None
        else if |s| == 1 then Some(d)
        else
          match DigitsValue(s[..|s| - 1], base)
          case None => None
          case Some(v) => Some(v * base + d)
  }

  /** `s.split(c)[-1]`: what follows the last c, or all of s when it has none. */
  function AfterLast(s: string, c: char): (r: string)
    ensures c !in r
    ensures c !in s ==> r == s
    decreases |s|
  {
    if s == [] then []
    else if s[|s| - 1] == c then []
    else AfterLast(s[..|s| - 1], c) + [s[|s| - 1]]
  }

  /** `_int_parser(s)`: a `0x`/`x` prefix reads the text after the last `x` as
      hexadecimal, `0b`/`b` the text after the last `b` as binary, anything
      else is read as decimal. None stands for the `ValueError` of `int`. */
  function IntParser(s: string): Option<nat>
  {
    if |s| >= 2 && (s[..2] == "0x" || s[..1] == "x") then DigitsValue(AfterLast(s, 'x'), 16)
    else if |s| >= 2 && (s[..2] == "0b" || s[..1] == "b") then DigitsValue(AfterLast(s, 'b'), 2)
    else DigitsValue(s, 10)
  }

  // ---------------------------------------------------------------------------
  // hex

  function HexChar(d: nat): (c: char)
    requires d < 16
    ensures DigitValue(c) == Some(d)
    ensures c != 'x' && c != 'L'
  {
    if d < 10 then ('0' as int + d) as char else ('a' as int + d - 10) as char
  }

  /** The lower-case hexadecimal digits of n, most significant first. */
  function HexDigits(n: nat): (s: string)
    ensures |s| >= 1
    ensures 'x' !in s && 'L' !in s
  {
    if n < 16 then [HexChar(n)] else HexDigits(n / 16) + [HexChar(n % 16)]
  }

  /** Python 2's `hex(n)`: `0x`, the digits, and an `L` when n is a `long`. */
  function Hex(n: nat, long: bool): (s: string)
    ensures |s| >= 3
  {
    "0x" + HexDigits(n) + (if long then "L" else "")
  }

  /** The hexadecimal digits read back give n. */
  lemma {:induction false} HexDigitsValue(n: nat)
    ensures DigitsValue(HexDigits(n), 16) == Some(n)
  {
    if n >= 16 {
      var s := HexDigits(n);
      HexDigitsValue(n / 16);
      assert s[..|s| - 1] == HexDigits(n / 16);
      assert s[|s| - 1] == HexChar(n % 16);
    }
  }

  /** `_int_parser(hex(n))` is n: the round trip the counters rely on. */
  lemma IntParserHex(n: nat)
    ensures IntParser(Hex(n, false)) == Some(n)
  {
    var h := HexDigits(n);
    var s := Hex(n, false);
    assert s == "0" + ['x'] + h;
    assert s[..2] == "0x";
    AfterLastPrefix("0", h, 'x');
    HexDigitsValue(n);
    HexBranch(s, DigitsValue(h, 16));
  }

  /** `_int_parser(bin(n))` is n: the `0b` branch reads the binary digits back. */
  lemma IntParserBinary(n: nat)
    ensures IntParser("0b" + Binary(n)) == Some(n)
  {
    var d := Binary(n);
    var s := "0b" + d;
    assert s == "0" + ['b'] + d;
    BinaryChars(n);
    AfterLastPrefix("0", d, 'b');
    BinaryDigitsValue(n);
    BinaryBranch(s);
  }

  /** `_int_parser(str(n))` is n: decimal digits never look like a prefix. */
  lemma IntParserDecimal(n: nat)
    ensures IntParser(Decimal(n)) == Some(n)
  {
    DecimalDigitsValue(n);
    DecimalBranch(Decimal(n));
  }

  lemma BinaryBranch(s: string)
    requires |s| >= 2 && s[0] == '0' && s[1] == 'b'
    ensures IntParser(s) == DigitsValue(AfterLast(s, 'b'), 2)
  {
    assert s[..2][1] == 'b' && s[..1][0] == '0';
    assert s[..2] == "0b";
  }

  lemma DecimalBranch(s: string)
    requires forall i :: 0 <= i < |s| ==> '0' <= s[i] <= '9'
    ensures IntParser(s) == DigitsValue(s, 10)
  {
    if |s| >= 2 {
      assert s[..2][1] == s[1] && s[..1][0] == s[0];
      assert s[..2] != "0x" && s[..1] != "x" && s[..2] != "0b" && s[..1] != "b";
    }
  }

  lemma HexBranch(s: string, v: Option<nat>)
    requires |s| >= 2 && s[..2] == "0x" && DigitsValue(AfterLast(s, 'x'), 16) == v
    ensures IntParser(s) == v
  {
  }

  /** What follows the last c in p + [c] + s, when s holds no c, is s. */
  lemma {:induction false} AfterLastPrefix(p: string, s: string, c: char)
    requires c !in s
    ensures AfterLast(p + [c] + s, c) == s
    decreases |s|
  {
    if s != [] {
      var t := p + [c] + s;
      assert t[..|t| - 1] == p + [c] + s[..|s| - 1];
      AfterLastPrefix(p, s[..|s| - 1], c);
      assert s == s[..|s| - 1] + [s[|s| - 1]];
    } else {
      assert (p + [c] + s)[|p|] == c;
    }
  }

  // ---------------------------------------------------------------------------
  // str

  function DecimalChar(d: nat): (c: char)
    requires d < 10
    ensures DigitValue(c) == Some(d)
    ensures '0' <= c <= '9'
  {
    ('0' as int + d) as char
  }

  /** `str(n)`: the decimal digits of n, most significant first. */
  function Decimal(n: nat): (s: string)
    ensures |s| >= 1
    ensures forall i :: 0 <= i < |s| ==> '0' <= s[i] <= '9'
  {
    if n < 10 then [DecimalChar(n)] else Decimal(n / 10) + [DecimalChar(n % 10)]
  }

  /** The decimal digits read back give n. */
  lemma {:induction false} DecimalDigitsValue(n: nat)
    ensures DigitsValue(Decimal(n), 10) == Some(n)
  {
    if n >= 10 {
      var s := Decimal(n);
      DecimalDigitsValue(n / 10);
      assert s[..|s| - 1] == Decimal(n / 10);
    }
  }

  // ---------------------------------------------------------------------------
  // print_larpix_bits

  function BitChar(b: nat): char
    requires b < 2
  {
    if b == 1 then '1' else '0'
  }

  /** The binary digits of n, most significant first, with no leading zero
      (`format(n, 'b')`). */
  function Binary(n: nat): (s: string)
    ensures |s| >= 1
  {
    if n < 2 then [BitChar(n)] else Binary(n / 2) + [BitChar(n % 2)]
  }

  /** `format(n, '064b')`: the binary digits, padded with zeros to 64. */
  function Binary64(n: nat): (s: string)
    ensures |s| >= 64
  {
    var b := Binary(n);
    if |b| >= 64 then b else seq(64 - |b|, _ => '0') + b
  }

  /** Binary digits are zeros and ones only. */
  lemma {:induction false} BinaryChars(n: nat)
    ensures forall i :: 0 <= i < |Binary(n)| ==> Binary(n)[i] == '0' || Binary(n)[i] == '1'
  {
    if n >= 2 {
      BinaryChars(n / 2);
    }
  }

  /** The binary digits read back give n. */
  lemma {:induction false} BinaryDigitsValue(n: nat)
    ensures DigitsValue(Binary(n), 2) == Some(n)
  {
    if n >= 2 {
      var s := Binary(n);
      BinaryDigitsValue(n / 2);
      assert s[..|s| - 1] == Binary(n / 2);
    }
  }

  function Reverse(s: string): (r: string)
    ensures |r| == |s|
  {
    if s == [] then [] else Reverse(s[1..]) + [s[0]]
  }

  /** `print_larpix_bits(word)`: a trailing `L` dropped, the rest read by
      `_int_parser`, its 64-bit binary form reversed, so that character i is
      bit i. None stands for the exception of an empty string (`word[-1]`)
      or an unreadable number. */
  function PrintLarpixBits(word: string): Option<string>
  {
    if word == [] then None
    else
      var word := if word[|word| - 1] == 'L' then word[..|word| - 1] else word;
      match IntParser(word)
      case None => None
      case Some(n) => Some(Reverse(Binary64(n)))
  }

  /** bits spells out the 64 low bits of n, bit 0 first. */
  predicate SpellsBits(bits: string, n: nat)
  {
    |bits| == 64 && forall i :: 0 <= i < 64 ==> bits[i] == BitChar(Bit(n, i))
  }

  /** The bits of a number below 2**64, as the counters read them: exactly 64
      characters, character i being bit i of n; an `L` suffix changes nothing. */
  lemma LarpixBitsOfHex(n: nat, long: bool)
    requires n < Pow2(64)
    ensures PrintLarpixBits(Hex(n, long)).Some?
    ensures SpellsBits(PrintLarpixBits(Hex(n, long)).value, n)
  {
    var s := Hex(n, long);
    var stripped := if s[|s| - 1] == 'L' then s[..|s| - 1] else s;
    assert stripped == Hex(n, false) by {
      var h := HexDigits(n);
      assert s == "0x" + h + (if long then "L" else "");
      assert h[|h| - 1] != 'L';
    }
    IntParserHex(n);
    PrintLarpixBitsOf(s, n);
    LarpixBitsOf(n);
  }

  lemma PrintLarpixBitsOf(s: string, n: nat)
    requires s != [] && IntParser(if s[|s| - 1] == 'L' then s[..|s| - 1] else s) == Some(n)
    ensures PrintLarpixBits(s) == Some(Reverse(Binary64(n)))
  {
  }

  /** The reversed 64-bit binary form of n < 2**64 lists its bits from bit 0 up. */
  lemma LarpixBitsOf(n: nat)
    requires n < Pow2(64)
    ensures SpellsBits(Reverse(Binary64(n)), n)
  {
    var b := Binary(n);
    BinaryLength(n);
    if |b| > 64 {
      Pow2Monotonic(64, |b| - 1);
      assert false;
    }
    var zeros := seq(64 - |b|, _ => '0');
    assert Binary64(n) == zeros + b;
    ReverseAppend(zeros, b);
    ReversedBinaryBits(n);
    ReverseZeros(zeros);
    HighBitsZero(n, |b|);
    JoinBits(Reverse(b), Reverse(zeros), n);
  }

  /** Bits known below |r| and zero from there on join into the spelling of n. */
  lemma JoinBits(r: string, z: string, n: nat)
    requires |r| + |z| == 64
    requires forall i :: 0 <= i < |r| ==> r[i] == BitChar(Bit(n, i))
    requires forall j :: 0 <= j < |z| ==> z[j] == '0'
    requires forall i :: |r| <= i ==> Bit(n, i) == 0
    ensures SpellsBits(r + z, n)
  {
    forall i | 0 <= i < 64
      ensures (r + z)[i] == BitChar(Bit(n, i))
    {
      if i >= |r| {
        assert (r + z)[i] == z[i - |r|];
      }
    }
  }

  lemma HighBitsZero(n: nat, k: nat)
    requires n < Pow2(k)
    ensures forall i :: k <= i ==> Bit(n, i) == 0
  {
    forall i | k <= i
      ensures Bit(n, i) == 0
    {
      ShiftRightPastTop(n, k, i);
    }
  }

  lemma ReversedBinaryBits(n: nat)
    ensures forall i :: 0 <= i < |Binary(n)| ==> Reverse(Binary(n))[i] == BitChar(Bit(n, i))
  {
    forall i | 0 <= i < |Binary(n)|
      ensures Reverse(Binary(n))[i] == BitChar(Bit(n, i))
    {
      ReversedBinaryBit(n, i);
    }
  }

  /** Character i of the reversed binary digits of n is bit i of n. */
  lemma {:induction false} ReversedBinaryBit(n: nat, i: nat)
    requires i < |Binary(n)|
    ensures Reverse(Binary(n))[i] == BitChar(Bit(n, i))
  {
    if n >= 2 {
      ReverseSnoc(Binary(n / 2), BitChar(n % 2));
      if i > 0 {
        ReversedBinaryBit(n / 2, i - 1);
      }
    }
  }

  /** n has as many binary digits as it needs: it is below 2 to their number,
      and from two up at least 2 to one less. */
  lemma {:induction false} BinaryLength(n: nat)
    ensures n < Pow2(|Binary(n)|)
    ensures n >= 2 ==> Pow2(|Binary(n)| - 1) <= n
  {
    if n >= 2 {
      BinaryLength(n / 2);
    }
  }

  lemma ReverseSnoc(s: string, c: char)
    ensures Reverse(s + [c]) == [c] + Reverse(s)
  {
    assert (s + [c])[0] == if s == [] then c else s[0];
    if s != [] {
      assert (s + [c])[1..] == s[1..] + [c];
      ReverseSnoc(s[1..], c);
    }
  }

  lemma {:induction false} ReverseAppend(s: string, t: string)
    ensures Reverse(s + t) == Reverse(t) + Reverse(s)
  {
    if s != [] {
      assert (s + t)[1..] == s[1..] + t;
      ReverseAppend(s[1..], t);
    } else {
      assert s + t == t;
    }
  }

  lemma ReverseZeros(z: string)
    requires forall j :: 0 <= j < |z| ==> z[j] == '0'
    ensures forall j :: 0 <= j < |z| ==> Reverse(z)[j] == '0'
  {
    forall j | 0 <= j < |z|
      ensures Reverse(z)[j] == '0'
    {
      ReverseAll(z, '0', j);
    }
  }

  lemma {:induction false} ReverseAll(s: string, c: char, i: nat)
    requires i < |s| && forall j :: 0 <= j < |s| ==> s[j] == c
    ensures Reverse(s)[i] == c
  {
    if i < |s| - 1 {
      ReverseAll(s[1..], c, i);
    }
  }
}
