/** The per-word counter update of ncurses/pacmon.py (lines 353-402 of `main`),
    over the three module-level dictionaries it mutates: a count per word type,
    and for each I/O channel 1..32 a list of five data counters and a list of
    six configuration counters. The packet bits are read the way the code reads
    them, through `print_larpix_bits(hex(word[-1]))`. */
module PacmonCounts {
  import opened Bytes
  import opened Bits
  import opened Results
  import opened PacmonWire
  import opened PacmonText
  import Util

  // ---------------------------------------------------------------------------
  // Reading a word

  /** `word[-1]` when it is an integer; None for a PING word (whose last entry
      is its type name) and an ERROR word (a string), where `hex` raises. */
  function LastField(w: Word): Option<u64>
  {
    match w
    case DataWord(_, _, packet) => Some(packet)
    case TrigWord(_, ts) => Some(ts)
    case SyncWord(_, _, ts) => Some(ts)
    case PingWord => None
    case WriteWord(_, r2) => Some(r2)
    case ReadWord(_, r2) => Some(r2)
    case ErrorWord(_, _) => None
  }

  /** Python 2 hands back a `long`, whose `hex` ends in `L`, above `sys.maxint`. */
  const MaxInt: nat := 0x7FFF_FFFF_FFFF_FFFF

  /** The type a word is counted under: a DATA word by the two low bits of its
      packet (0 DATA, 1 WRITE, 2 ERROR, 3 READ), any other word under its own type. */
  function CountedType(w: Word): WordType
  {
    match w
    case DataWord(_, _, packet) =>
      var low := packet % 4;
      if low == 0 then Data else if low == 1 then Write else if low == 2 then Error else Read
    case _ => w.Type()
  }

  /** A packet has valid parity exactly when its 64 bits hold an odd number of ones. */
  predicate ValidParity(packet: nat)
  {
    PopCount(packet) % 2 == 1
  }

  /** A packet travels downstream exactly when its bit 62 is set. */
  predicate Downstream(packet: nat)
  {
    Bit(packet, 62) == 1
  }

  /** `larpix_bits[slice(0,63)].count('1')`, on any prefix. */
  function CountOnes(s: string): nat
  {
    if s == [] then 0 else CountOnes(s[..|s| - 1]) + (if s[|s| - 1] == '1' then 1 else 0)
  }

  // ---------------------------------------------------------------------------
  // Counter lists

  function B(b: bool): nat
  {
    if b then 1 else 0
  }

  /** Two counter lists added slot by slot. */
  function AddSlots(a: seq<nat>, b: seq<nat>): (r: seq<nat>)
    requires |a| == |b|
    ensures |r| == |a| && forall i :: 0 <= i < |a| ==> r[i] == a[i] + b[i]
  {
    seq(|a|, i requires 0 <= i < |a| => a[i] + b[i])
  }

  /** What one DATA word adds to the five data counters of its channel: the
      total, valid or invalid parity, downstream or upstream. */
  function DataIncrement(valid: bool, down: bool): seq<nat>
  {
    [1, B(valid), B(!valid), B(down), B(!down)]
  }

  /** What one DATA word adds to the six configuration counters of its channel,
      as lines 378-402 do it: slot 0 never; slot 1 for every READ and for a
      WRITE with invalid parity; slots 2 and 3 once for the direction branch
      and once more at lines 399-402 when downstream, once when upstream;
      slots 4 and 5 for an upstream READ or WRITE. */
  function ConfigIncrement(read: bool, write: bool, valid: bool, down: bool): seq<nat>
  {
    [0,
     B(read || (write && !valid)),
     if read then (if down then 2 else 1) else 0,
     if write then (if down then 2 else 1) else 0,
     B(read && !down),
     B(write && !down)]
  }

  /** Every data word of a channel is counted once by parity and once by direction. */
  predicate DataSlotsOk(d: seq<nat>)
  {
    |d| == 5 && d[0] == d[1] + d[2] == d[3] + d[4]
  }

  /** The READ words a channel has seen, recovered from slots 2 and 4. */
  function Reads(k: seq<nat>): nat
    requires |k| == 6
  {
    (k[2] + k[4]) / 2
  }

  /** The WRITE words a channel has seen, recovered from slots 3 and 5. */
  function Writes(k: seq<nat>): nat
    requires |k| == 6
  {
    (k[3] + k[5]) / 2
  }

  /** What the configuration counters of a channel keep, given its data
      counters d: slot 0 stays zero; slots 2 and 4 hold each READ twice between
      them, slots 3 and 5 each WRITE; slot 1 counts every READ and some WRITEs;
      and every READ or WRITE is one of the channel's data words. */
  predicate ConfigSlotsOk(k: seq<nat>, d: seq<nat>)
  {
    |k| == 6 && |d| == 5 && k[0] == 0 &&
    k[4] <= k[2] && k[5] <= k[3] && (k[2] + k[4]) % 2 == 0 && (k[3] + k[5]) % 2 == 0 &&
    Reads(k) <= k[1] <= Reads(k) + Writes(k) && Reads(k) + Writes(k) <= d[0]
  }

  predicate ChannelOk(d: seq<nat>, k: seq<nat>)
  {
    DataSlotsOk(d) && ConfigSlotsOk(k, d)
  }

  /** One DATA word keeps a channel's counters in agreement, and counts it as
      one more READ or WRITE exactly when it is one. */
  lemma ChannelStepOk(d: seq<nat>, k: seq<nat>, read: bool, write: bool, valid: bool, down: bool)
    requires !(read && write) && ChannelOk(d, k)
    ensures var d', k' := AddSlots(d, DataIncrement(valid, down)), AddSlots(k, ConfigIncrement(read, write, valid, down));
      ChannelOk(d', k') && Reads(k') == Reads(k) + B(read) && Writes(k') == Writes(k) + B(write)
  {
    var d' := AddSlots(d, DataIncrement(valid, down));
    var k' := AddSlots(k, ConfigIncrement(read, write, valid, down));
    assert d'[0] == d[0] + 1 && d'[1] + d'[2] == d[1] + d[2] + 1 && d'[3] + d'[4] == d[3] + d[4] + 1;
    assert k'[0] == k[0] && k'[4] <= k'[2] && k'[5] <= k'[3];
    assert k'[2] + k'[4] == k[2] + k[4] + 2 * B(read);
    assert k'[3] + k'[5] == k[3] + k[5] + 2 * B(write);
    assert k[1] + B(read) <= k'[1] <= k[1] + B(read) + B(write);
  }

  /** The configuration counters as written: slot 0 never moves; a READ adds 1
      to slot 1 whatever its parity, a WRITE only with invalid parity; a
      downstream READ adds 2 to slot 2 and a downstream WRITE 2 to slot 3. */
  lemma ConfigQuirks(k: seq<nat>, read: bool, write: bool, valid: bool, down: bool)
    requires |k| == 6 && !(read && write)
    ensures var k' := AddSlots(k, ConfigIncrement(read, write, valid, down));
      k'[0] == k[0] &&
      (read ==> k'[1] == k[1] + 1) &&
      (write ==> (k'[1] == k[1] + 1 <==> !valid)) &&
      (read && down ==> k'[2] == k[2] + 2) &&
      (write && down ==> k'[3] == k[3] + 2) &&
      (!read && !write ==> k' == k)
  {
    var k' := AddSlots(k, ConfigIncrement(read, write, valid, down));
    if !read && !write {
      assert forall i :: 0 <= i < 6 ==> k'[i] == k[i];
    }
  }

  /** Lines 374-402 on the two counter lists of one channel, one increment at a
      time, given the word's parity, its bit-62 character and whether it was
      reclassified as a READ or a WRITE. */
  method CountChannel(d0: seq<nat>, k0: seq<nat>, validParity: bool, bit62: char,
                      isConfigRead: bool, isConfigWrite: bool)
    returns (d: seq<nat>, k: seq<nat>)
    requires |d0| == 5 && |k0| == 6 && (bit62 == '0' || bit62 == '1')
    requires !(isConfigRead && isConfigWrite)
    ensures d == AddSlots(d0, DataIncrement(validParity, bit62 == '1'))
    ensures k == AddSlots(k0, ConfigIncrement(isConfigRead, isConfigWrite, validParity, bit62 == '1'))
  {
    d, k := d0, k0;
    d := d[0 := d[0] + 1];
    if validParity {
      d := d[1 := d[1] + 1];
      if isConfigRead {
        k := k[1 := k[1] + 1];
      }
    } else {
      d := d[2 := d[2] + 1];
      if isConfigRead || isConfigWrite {
        k := k[1 := k[1] + 1];
      }
    }
    if bit62 == '1' {
      d := d[3 := d[3] + 1];
      if isConfigRead {
        k := k[2 := k[2] + 1];
      } else if isConfigWrite {
        k := k[3 := k[3] + 1];
      }
    } else if bit62 == '0' {
      d := d[4 := d[4] + 1];
      if isConfigRead {
        k := k[4 := k[4] + 1];
      } else if isConfigWrite {
        k := k[5 := k[5] + 1];
      }
    }
    if isConfigRead {
      k := k[2 := k[2] + 1];
    }
    if isConfigWrite {
      k := k[3 := k[3] + 1];
    }
    var down := bit62 == '1';
    SlotsEqual(d, AddSlots(d0, DataIncrement(validParity, down)));
    var inc := ConfigIncrement(isConfigRead, isConfigWrite, validParity, down);
    assert k[0] == k0[0] + inc[0] && k[1] == k0[1] + inc[1];
    assert k[2] == k0[2] + inc[2] && k[3] == k0[3] + inc[3];
    assert k[4] == k0[4] + inc[4] && k[5] == k0[5] + inc[5];
    SlotsEqual(k, AddSlots(k0, inc));
  }

  lemma SlotsEqual(a: seq<nat>, b: seq<nat>)
    requires |a| == |b| && forall i :: 0 <= i < |a| ==> a[i] == b[i]
    ensures a == b
  {
  }

  // ---------------------------------------------------------------------------
  // Counter state

  const Channels: set<int> := set c: int | 1 <= c <= 32

  /** The three dictionaries. */
  datatype Tallies = Tallies(types: map<WordType, nat>, data: map<int, seq<nat>>, config: map<int, seq<nat>>)

  /** Every type has a count, exactly the channels 1..32 have counter lists,
      and each channel's lists agree. */
  predicate TalliesOk(s: Tallies)
  {
    (forall t: WordType :: t in s.types) &&
    s.data.Keys == Channels && s.config.Keys == Channels &&
    forall c :: c in s.data ==> ChannelOk(s.data[c], s.config[c])
  }

  /** The dictionaries as the module creates them: every count zero. */
  function Initial(): Tallies
  {
    Tallies(map[Data := 0, Trig := 0, Sync := 0, Ping := 0, Write := 0, Read := 0, Error := 0],
            map c | c in Channels :: [0, 0, 0, 0, 0],
            map c | c in Channels :: [0, 0, 0, 0, 0, 0])
  }

  /** The dictionaries start out in agreement. */
  lemma InitialOk()
    ensures TalliesOk(Initial())
  {
    var s := Initial();
    assert ChannelOk([0, 0, 0, 0, 0], [0, 0, 0, 0, 0, 0]);
    forall t: WordType
      ensures t in s.types
    {
      match t
      case Data => case Trig => case Sync => case Ping => case Write => case Read => case Error =>
    }
  }

  /** The dictionaries after one word; None when the word raises (PING, ERROR). */
  function Step(s: Tallies, w: Word): (r: Option<Tallies>)
    requires TalliesOk(s)
    ensures r.None? <==> w.PingWord? || w.ErrorWord?
  {
    if LastField(w).None? then None
    else
      var t := CountedType(w);
      var types := s.types[t := s.types[t] + 1];
      if w.DataWord? && w.ioChannel in Channels then
        var c := w.ioChannel;
        var valid, down := ValidParity(w.packet), Downstream(w.packet);
        var d := AddSlots(s.data[c], DataIncrement(valid, down));
        var k := AddSlots(s.config[c], ConfigIncrement(t == Read, t == Write, valid, down));
        Some(Tallies(types, s.data[c := d], s.config[c := k]))
      else
        Some(Tallies(types, s.data, s.config))
  }

  /** A word that does not raise adds one to exactly the count of the type it
      is counted under, and leaves the dictionaries in agreement. */
  lemma StepKeepsTallies(s: Tallies, w: Word)
    requires TalliesOk(s) && LastField(w).Some?
    ensures TalliesOk(Step(s, w).value)
    ensures forall t :: Step(s, w).value.types[t] == s.types[t] + B(t == CountedType(w))
  {
    var t := CountedType(w);
    if w.DataWord? && w.ioChannel in Channels {
      var c := w.ioChannel;
      ChannelStepOk(s.data[c], s.config[c], t == Read, t == Write, ValidParity(w.packet), Downstream(w.packet));
    }
  }

  /** A word touches no channel's lists but its own, and only a DATA word
      touches any. */
  lemma StepOwnChannelOnly(s: Tallies, w: Word, c: int)
    requires TalliesOk(s) && Step(s, w).Some? && c in s.data
    requires !(w.DataWord? && c == w.ioChannel)
    ensures c in Step(s, w).value.data && c in Step(s, w).value.config
    ensures Step(s, w).value.data[c] == s.data[c] && Step(s, w).value.config[c] == s.config[c]
  {
  }

  /** Step on a DATA word of a channel 1..32, spelled out. */
  lemma StepData(s: Tallies, w: Word, valid: bool, down: bool)
    requires TalliesOk(s) && w.DataWord? && w.ioChannel in Channels
    requires valid == ValidParity(w.packet) && down == Downstream(w.packet)
    ensures var t, c := CountedType(w), w.ioChannel;
      Step(s, w) == Some(Tallies(s.types[t := s.types[t] + 1],
                                 s.data[c := AddSlots(s.data[c], DataIncrement(valid, down))],
                                 s.config[c := AddSlots(s.config[c], ConfigIncrement(t == Read, t == Write, valid, down))]))
  {
  }

  /** Step on any other word that does not raise: only the type count moves. */
  lemma StepOther(s: Tallies, w: Word)
    requires TalliesOk(s) && LastField(w).Some? && !(w.DataWord? && w.ioChannel in Channels)
    ensures var t := CountedType(w);
      Step(s, w) == Some(Tallies(s.types[t := s.types[t] + 1], s.data, s.config))
  {
  }

  /** The dictionaries after the words of one message, and whether a word
      raised; the words after one that raises are never reached. */
  function RunAll(s: Tallies, ws: seq<Word>): (r: (Tallies, bool))
    requires TalliesOk(s)
    ensures TalliesOk(r.0)
    decreases |ws|
  {
    if ws == [] then (s, false)
    else
      match Step(s, ws[0])
      case None => (s, true)
      case Some(s') =>
        StepKeepsTallies(s, ws[0]);
        RunAll(s', ws[1..])
  }

  /** The words of a message the loop gets through: those before the first
      one that raises. */
  function Reached(ws: seq<Word>): (r: seq<Word>)
    ensures |r| <= |ws|
  {
    if ws == [] || LastField(ws[0]).None? then [] else [ws[0]] + Reached(ws[1..])
  }

  /** How many of ws are counted under t. */
  function CountedAs(ws: seq<Word>, t: WordType): nat
  {
    if ws == [] then 0 else B(CountedType(ws[0]) == t) + CountedAs(ws[1..], t)
  }

  /** After a message, each type count has risen by the number of words reached
      that are counted under it, and the message raised exactly when some word
      was not reached. */
  lemma {:induction false} RunAllTypes(s: Tallies, ws: seq<Word>, t: WordType)
    requires TalliesOk(s)
    ensures RunAll(s, ws).0.types[t] == s.types[t] + CountedAs(Reached(ws), t)
    ensures RunAll(s, ws).1 <==> |Reached(ws)| < |ws|
    decreases |ws|
  {
    if ws != [] && LastField(ws[0]).Some? {
      StepKeepsTallies(s, ws[0]);
      var s' := Step(s, ws[0]).value;
      RunAllTypes(s', ws[1..], t);
      assert ([ws[0]] + Reached(ws[1..]))[1..] == Reached(ws[1..]);
    }
  }

  // ---------------------------------------------------------------------------
  // Reading the bits

  /** The low two characters spell the packet's two low bits, so the four
      string comparisons of lines 358-367 pick the type its value mod 4 names. */
  lemma LowTwoBits(bits: string, n: nat)
    requires SpellsBits(bits, n)
    ensures bits[..2] == "00" <==> n % 4 == 0
    ensures bits[..2] == "10" <==> n % 4 == 1
    ensures bits[..2] == "01" <==> n % 4 == 2
    ensures bits[..2] == "11" <==> n % 4 == 3
  {
    assert bits[..2] == [bits[0], bits[1]];
    assert ShiftRight(n, 1) == ShiftRight(n / 2, 0);
  }

  /** The count of ones among bits 0..62 is the count in the 63 low bits of n. */
  lemma {:induction false} CountOnesBits(bits: string, n: nat, k: nat)
    requires SpellsBits(bits, n) && k <= 64
    ensures CountOnes(bits[..k]) == PopCount(LowBits(n, k))
  {
    if k > 0 {
      CountOnesBits(bits, n, k - 1);
      assert bits[..k][..k - 1] == bits[..k - 1];
      PopCountLowSplit(n, k - 1, 1);
      var top := ShiftRight(n, k - 1);
      assert LowBits(top, 1) == top % 2;
      assert PopCount(top % 2) == top % 2 by {
        if top % 2 == 1 {
          assert PopCount(1) == 1 + PopCount(0);
        }
      }
    }
  }

  /** Lines 376-377: the parity bit 63 must make the number of ones odd, so
      `valid_parity` holds exactly when the packet has an odd number of ones. */
  lemma ParityFromBits(bits: string, n: nat)
    requires SpellsBits(bits, n) && n < Pow2(64)
    ensures (1 - CountOnes(bits[..63]) % 2 == (if bits[63] == '1' then 1 else 0)) <==> PopCount(n) % 2 == 1
  {
    CountOnesBits(bits, n, 63);
    TopBit(n);
    assert bits[63] == BitChar(Bit(n, 63));
    OddOnes(CountOnes(bits[..63]), if bits[63] == '1' then 1 else 0, PopCount(n));
  }

  lemma OddOnes(low: nat, top: nat, total: nat)
    requires top < 2 && total == low + top
    ensures (1 - low % 2 == top) <==> total % 2 == 1
  {
  }

  /** Below 2**64, bit 63 is all that lies above the 63 low bits. */
  lemma TopBit(n: nat)
    requires n < Pow2(64)
    ensures PopCount(n) == PopCount(LowBits(n, 63)) + Bit(n, 63)
  {
    PopCountSplit(n, 63);
    ShiftRightAdd(n, 63, 1);
    ShiftRightPastTop(n, 64, 64);
    var top := ShiftRight(n, 63);
    assert ShiftRight(top, 1) == ShiftRight(top / 2, 0);
    assert top < 2;
    assert PopCount(top) == top by {
      if top == 1 {
        assert PopCount(1) == 1 + PopCount(0);
      }
    }
  }

  /** Lines 356-367: the type a word is counted under, read off the first two
      characters of its bits, and whether a DATA word turned out to be a READ
      or a WRITE. */
  method ClassifyWord(w: Word, larpixBits: string, n: nat)
    returns (counted: WordType, isConfigRead: bool, isConfigWrite: bool)
    requires LastField(w) == Some(n) && SpellsBits(larpixBits, n)
    ensures counted == CountedType(w)
    ensures isConfigRead <==> w.DataWord? && counted == Read
    ensures isConfigWrite <==> w.DataWord? && counted == Write
  {
    LowTwoBits(larpixBits, n);
    isConfigRead, isConfigWrite := false, false;
    if w.DataWord? && larpixBits[..2] == "00" {
      counted := Data;
    } else if w.DataWord? && larpixBits[..2] == "10" {
      counted := Write;
      isConfigWrite := true;
    } else if w.DataWord? && larpixBits[..2] == "11" {
      counted := Read;
      isConfigRead := true;
    } else if w.DataWord? && larpixBits[..2] == "01" {
      counted := Error;
    } else {
      counted := w.Type();
    }
  }

  /** Lines 355-377: the word's last field through `hex` and
      `print_larpix_bits`, then the type it is counted under, the parity check
      and the direction character, all read off the 64-character string. The
      packet bits are recomputed at line 375 from the same field; they are the
      same string. */
  method ReadBits(w: Word, n: nat)
    returns (counted: WordType, isConfigRead: bool, isConfigWrite: bool, validParity: bool, bit62: char)
    requires LastField(w) == Some(n)
    ensures counted == CountedType(w)
    ensures isConfigRead <==> w.DataWord? && counted == Read
    ensures isConfigWrite <==> w.DataWord? && counted == Write
    ensures validParity <==> ValidParity(n)
    ensures bit62 == (if Downstream(n) then '1' else '0')
  {
    Util.Pow2Of64();
    LarpixBitsOfHex(n, n > MaxInt);
    var larpixBits := PrintLarpixBits(Hex(n, n > MaxInt)).value;
    counted, isConfigRead, isConfigWrite := ClassifyWord(w, larpixBits, n);
    var parity := 1 - CountOnes(larpixBits[..63]) % 2;
    validParity := parity == (if larpixBits[63] == '1' then 1 else 0);
    ParityFromBits(larpixBits, n);
    bit62 := larpixBits[62];
    assert bit62 == BitChar(Bit(n, 62));
  }

  // ---------------------------------------------------------------------------
  // The dictionaries, updated in place

  class Counters {
    var packetTypeCount: map<WordType, nat>
    var dataPerIoc: map<int, seq<nat>>
    var configPerIoc: map<int, seq<nat>>

    function State(): Tallies
      reads this
    {
      Tallies(packetTypeCount, dataPerIoc, configPerIoc)
    }

    predicate Valid()
      reads this
    {
      TalliesOk(State())
    }

    /** `_packet_type_count`, `_data_packet_count_per_ioc` and
        `_config_packet_count_per_ioc` as the module initialises them. */
    constructor()
      ensures State() == Initial() && Valid()
    {
      InitialOk();
      var s := Initial();
      packetTypeCount := s.types;
      dataPerIoc := s.data;
      configPerIoc := s.config;
    }

    /** One pass of the loop body at lines 353-402. A word whose last field is
        not an integer makes `hex` raise, before anything is counted. */
    method RecordWord(w: Word) returns (raised: bool)
      requires Valid()
      modifies this
      ensures Valid()
      ensures Step(old(State()), w) == if raised then None else Some(State())
      ensures raised ==> State() == old(State())
    {
      var s0 := State();
      var last := LastField(w);
      if last.None? {
        return true;
      }
      var n: nat := last.value;
      var counted, isConfigRead, isConfigWrite, validParity, bit62 := ReadBits(w, n);
      packetTypeCount := packetTypeCount[counted := packetTypeCount[counted] + 1];
      if w.DataWord? && w.ioChannel in dataPerIoc {
        var c := w.ioChannel;
        var d, k := CountChannel(dataPerIoc[c], configPerIoc[c], validParity, bit62,
                                 isConfigRead, isConfigWrite);
        dataPerIoc := dataPerIoc[c := d];
        configPerIoc := configPerIoc[c := k];
        assert isConfigRead == (counted == Read) && isConfigWrite == (counted == Write);
        assert n == w.packet;
        StepData(s0, w, validParity, bit62 == '1');
        assert State() == Step(s0, w).value;
      } else {
        StepOther(s0, w);
        assert State() == Step(s0, w).value;
      }
      StepKeepsTallies(s0, w);
      raised := false;
    }

    /** The loop over one message's words. An exception in one word leaves the
        loop (and `main`), so the words after it are not counted. */
    method RecordWords(ws: seq<Word>) returns (raised: bool)
      requires Valid()
      modifies this
      ensures Valid()
      ensures (State(), raised) == RunAll(old(State()), ws)
    {
      var i := 0;
      while i < |ws|
        invariant 0 <= i <= |ws|
        invariant Valid()
        invariant RunAll(State(), ws[i..]) == RunAll(old(State()), ws)
      {
        assert ws[i..][1..] == ws[i + 1..];
        raised := RecordWord(ws[i]);
        if raised {
          return;
        }
        i := i + 1;
      }
      return false;
    }
  }
}
