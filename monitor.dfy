/** The per-word statistics of monitor_pacman.py: the class `Pacmon` keeps a
    count per (reclassified) word type and, per I/O channel, data and
    configuration status counters, and updates them word by word. */
module Monitor {
  import opened Bytes
  import opened Bits
  import opened Results
  import opened Format
  import opened Util

  // ---------------------------------------------------------------------------
  // Packet fields

  /** `PACKET_TYPE_MAP`: from the two low bits of a packet's first byte to a
      word type. Its definition lives outside the modelled files, so it is a
      parameter, total on 0..3. */
  type PacketTypeMap = m: map<nat, WordType> | forall k: nat :: k < 4 ==> k in m
    witness map[0 := Data, 1 := Data, 2 := Data, 3 := Data]

  /** `packet[0] & 3`: the two low bits of the first byte. */
  function PacketType(p: Packet): (k: nat)
    ensures k < 4
    ensures k == Bit(p[0], 0) + 2 * Bit(p[0], 1)
  {
    assert ShiftRight(p[0], 1) == p[0] / 2;
    p[0] % 4
  }

  /** `parity64(packet)` is truthy. */
  predicate ValidParity(p: Packet)
  {
    Parity64(p) == Some(1)
  }

  /** `packet[7] & 0x40 == 0x40`. */
  predicate Downstream(p: Packet)
  {
    (p[7] / 64) % 2 == 1
  }

  /** A packet has valid parity exactly when its 64 bits hold an odd number of ones. */
  lemma ValidParityOddOnes(p: Packet)
    ensures ValidParity(p) <==> PopCountBytes(p) % 2 == 1
  {
    Parity64CountsOnes(p);
    assert p[..8] == p;
  }

  /** A packet is downstream exactly when bit 62 of its little-endian value is set,
      the bit ncurses/pacmon.py reads as the direction. */
  lemma DownstreamIsBit62(p: Packet)
    ensures Downstream(p) <==> Bit(DecodeLE(p), 62) == 1
  {
    BitOfLE(p, 7, 6);
    ShiftRightSix(p[7]);
  }

  lemma ShiftRightSix(x: nat)
    ensures ShiftRight(x, 6) == x / 64
  {
    assert ShiftRight(x, 6) == ShiftRight(x / 2, 5);
    assert ShiftRight(x / 2, 5) == ShiftRight(x / 4, 4);
    assert ShiftRight(x / 4, 4) == ShiftRight(x / 8, 3);
    assert ShiftRight(x / 8, 3) == ShiftRight(x / 16, 2);
    assert ShiftRight(x / 16, 2) == ShiftRight(x / 32, 1);
  }

  /** The type a word is counted under by `record_type`: a data word under the
      type its packet bits map to, any other word under its own type. Only a
      data word can change type, and always to one the map offers. */
  function Reclassify(w: Word, ptm: PacketTypeMap): (t: WordType)
    ensures w.DataWord? ==> t in ptm.Values
    ensures t != w.Type() ==> w.DataWord?
  {
    match w
    case DataWord(_, _, packet) => ptm[PacketType(packet)]
    case _ => w.Type()
  }

  /** Only bits 0 and 1 of a data word's packet decide its type: two data
      words that agree there are counted alike, whatever their other fields. */
  lemma ReclassifyLowBitsOnly(w: Word, v: Word, ptm: PacketTypeMap)
    requires w.DataWord? && v.DataWord?
    requires Bit(w.packet[0], 0) == Bit(v.packet[0], 0) && Bit(w.packet[0], 1) == Bit(v.packet[0], 1)
    ensures Reclassify(w, ptm) == Reclassify(v, ptm)
  {
    assert PacketType(w.packet) == PacketType(v.packet);
  }

  /** The map is consulted for data words only: any other word is counted
      under its own type, whatever the map says. */
  lemma ReclassifyIgnoresMap(w: Word, ptm: PacketTypeMap, ptm': PacketTypeMap)
    requires !w.DataWord?
    ensures Reclassify(w, ptm) == Reclassify(w, ptm') == w.Type()
  {
  }

  // ---------------------------------------------------------------------------
  // Counters

  /** `DataCountsPerStatus`. */
  datatype DataCounts = DataCounts(total: nat, validParity: nat, invalidParity: nat,
                                   downstream: nat, upstream: nat)

  /** `ConfigCountsPerStatus`. */
  datatype ConfigCounts = ConfigCounts(total: nat, invalidParity: nat,
                                       dsRead: nat, dsWrite: nat, usRead: nat, usWrite: nat)

  const NoData := DataCounts(0, 0, 0, 0, 0)
  const NoConfig := ConfigCounts(0, 0, 0, 0, 0, 0)

  /** Every data word is counted once by parity and once by direction. */
  predicate DataBalanced(d: DataCounts)
  {
    d.total == d.validParity + d.invalidParity == d.downstream + d.upstream
  }

  /** Every configuration word is counted once by direction and kind, and
      invalid parity is counted only among them. */
  predicate ConfigBalanced(c: ConfigCounts)
  {
    c.total == c.dsRead + c.dsWrite + c.usRead + c.usWrite && c.invalidParity <= c.total
  }

  /** No counter of d' is below the same counter of d. */
  predicate DataNoLess(d: DataCounts, d': DataCounts)
  {
    d.total <= d'.total && d.validParity <= d'.validParity && d.invalidParity <= d'.invalidParity &&
    d.downstream <= d'.downstream && d.upstream <= d'.upstream
  }

  predicate ConfigNoLess(c: ConfigCounts, c': ConfigCounts)
  {
    c.total <= c'.total && c.invalidParity <= c'.invalidParity &&
    c.dsRead <= c'.dsRead && c.dsWrite <= c'.dsWrite && c.usRead <= c'.usRead && c.usWrite <= c'.usWrite
  }

  /** The data counters after one data word with the given parity and direction
      (monitor_pacman.py:115-133). */
  function DataAfter(d: DataCounts, valid: bool, down: bool): DataCounts
  {
    DataCounts(d.total + 1,
               if valid then d.validParity + 1 else d.validParity,
               if valid then d.invalidParity else d.invalidParity + 1,
               if down then d.downstream + 1 else d.downstream,
               if down then d.upstream else d.upstream + 1)
  }

  /** The configuration counters after one data word whose packet maps to Read
      (`read`) or Write (`write`) (monitor_pacman.py:116-137). */
  function ConfigAfter(c: ConfigCounts, read: bool, write: bool, valid: bool, down: bool): ConfigCounts
    requires !(read && write)
  {
    if !read && !write then c
    else
      ConfigCounts(c.total + 1,
                   if valid then c.invalidParity else c.invalidParity + 1,
                   if down && read then c.dsRead + 1 else c.dsRead,
                   if down && write then c.dsWrite + 1 else c.dsWrite,
                   if !down && read then c.usRead + 1 else c.usRead,
                   if !down && write then c.usWrite + 1 else c.usWrite)
  }

  /** One data word adds 1 to the total, to exactly one of valid/invalid parity
      (the one its parity selects) and to exactly one of downstream/upstream
      (the one its direction selects); no counter goes down. */
  lemma DataAfterCounts(d: DataCounts, valid: bool, down: bool)
    ensures var d' := DataAfter(d, valid, down);
      (DataBalanced(d) ==> DataBalanced(d')) &&
      d'.total == d.total + 1 && DataNoLess(d, d') &&
      d'.validParity + d'.invalidParity == d.validParity + d.invalidParity + 1 &&
      d'.downstream + d'.upstream == d.downstream + d.upstream + 1 &&
      (valid <==> d'.validParity > d.validParity) &&
      (down <==> d'.downstream > d.downstream)
  {
  }

  /** A word that maps to neither Read nor Write leaves the configuration
      counters alone; one that does adds 1 to the total, to invalid parity when
      its parity is invalid, and to exactly one of the four direction/kind
      counters; no counter goes down. */
  lemma ConfigAfterCounts(c: ConfigCounts, read: bool, write: bool, valid: bool, down: bool)
    requires !(read && write)
    ensures var c' := ConfigAfter(c, read, write, valid, down);
      (ConfigBalanced(c) ==> ConfigBalanced(c')) &&
      c'.total == c.total + (if read || write then 1 else 0) &&
      ConfigNoLess(c, c') &&
      (c' == c <==> !read && !write) &&
      (c'.invalidParity > c.invalidParity <==> (read || write) && !valid) &&
      (c'.dsRead > c.dsRead <==> read && down) &&
      (c'.dsWrite > c.dsWrite <==> write && down) &&
      (c'.usRead > c.usRead <==> read && !down) &&
      (c'.usWrite > c.usWrite <==> write && !down) &&
      c'.dsRead + c'.dsWrite + c'.usRead + c'.usWrite ==
        c.dsRead + c.dsWrite + c.usRead + c.usWrite + (if read || write then 1 else 0)
  {
  }

  /** A `defaultdict(int)` read: a missing type counts 0. */
  function Count(m: map<WordType, nat>, t: WordType): nat
  {
    if t in m then m[t] else 0
  }

  function DataOf(ds: map<byte, DataCounts>, chan: byte): DataCounts
  {
    if chan in ds then ds[chan] else NoData
  }

  function ConfigOf(cs: map<byte, ConfigCounts>, chan: byte): ConfigCounts
  {
    if chan in cs then cs[chan] else NoConfig
  }

  /** `word_types[t] += 1`. */
  function Bump(m: map<WordType, nat>, t: WordType): (m': map<WordType, nat>)
    ensures t in m' && Count(m', t) == Count(m, t) + 1
    ensures forall u :: u != t ==> Count(m', u) == Count(m, u)
    ensures m'.Keys == m.Keys + {t}
  {
    m[t := Count(m, t) + 1]
  }

  lemma PutKeys<V>(m: map<byte, V>, k: byte, v: V)
    ensures m[k := v].Keys == m.Keys + {k}
  {
  }

  /** The status maps after a data word on channel chan whose packet maps to
      kind, with the given parity and direction: only chan's entries change. */
  function ChannelAfter(ds: map<byte, DataCounts>, cs: map<byte, ConfigCounts>, chan: byte,
                        kind: WordType, valid: bool, down: bool)
    : (r: (map<byte, DataCounts>, map<byte, ConfigCounts>))
    ensures r.0.Keys == ds.Keys + {chan} && r.1.Keys == cs.Keys + {chan}
  {
    var d := DataAfter(DataOf(ds, chan), valid, down);
    var c := ConfigAfter(ConfigOf(cs, chan), kind == Read, kind == Write, valid, down);
    PutKeys(ds, chan, d);
    PutKeys(cs, chan, c);
    (ds[chan := d], cs[chan := c])
  }

  /** Only the entries of the word's own channel change. */
  lemma ChannelAfterOthers(ds: map<byte, DataCounts>, cs: map<byte, ConfigCounts>, chan: byte,
                           kind: WordType, valid: bool, down: bool, c: byte)
    requires c != chan
    ensures DataOf(ChannelAfter(ds, cs, chan, kind, valid, down).0, c) == DataOf(ds, c)
    ensures ConfigOf(ChannelAfter(ds, cs, chan, kind, valid, down).1, c) == ConfigOf(cs, c)
  {
    var d := DataAfter(DataOf(ds, chan), valid, down);
    var k := ConfigAfter(ConfigOf(cs, chan), kind == Read, kind == Write, valid, down);
    assert ChannelAfter(ds, cs, chan, kind, valid, down) == (ds[chan := d], cs[chan := k]);
    assert c in ds[chan := d] <==> c in ds;
    assert c in cs[chan := k] <==> c in cs;
  }

  /** The status maps after one word: a data word updates the entries of its
      channel, any other word changes nothing. */
  function StatusesAfter(ds: map<byte, DataCounts>, cs: map<byte, ConfigCounts>, w: Word, ptm: PacketTypeMap)
    : (map<byte, DataCounts>, map<byte, ConfigCounts>)
  {
    match w
    case DataWord(chan, _, packet) =>
      ChannelAfter(ds, cs, chan, ptm[PacketType(packet)], ValidParity(packet), Downstream(packet))
    case _ => (ds, cs)
  }

  /** The type counts after a sequence of words, each counted in turn. */
  function TypesAfterAll(m: map<WordType, nat>, ws: seq<Word>, ptm: PacketTypeMap): map<WordType, nat>
  {
    if ws == [] then m
    else Bump(TypesAfterAll(m, ws[..|ws| - 1], ptm), Reclassify(ws[|ws| - 1], ptm))
  }

  /** The status maps after a sequence of words, each recorded in turn. */
  function StatusesAfterAll(ds: map<byte, DataCounts>, cs: map<byte, ConfigCounts>, ws: seq<Word>, ptm: PacketTypeMap)
    : (map<byte, DataCounts>, map<byte, ConfigCounts>)
  {
    if ws == [] then (ds, cs)
    else
      var (ds', cs') := StatusesAfterAll(ds, cs, ws[..|ws| - 1], ptm);
      StatusesAfter(ds', cs', ws[|ws| - 1], ptm)
  }

  /** How many of ws are counted under t. */
  function CountedAs(ws: seq<Word>, t: WordType, ptm: PacketTypeMap): nat
  {
    if ws == [] then 0
    else CountedAs(ws[..|ws| - 1], t, ptm) + (if Reclassify(ws[|ws| - 1], ptm) == t then 1 else 0)
  }

  /** How many of ws are data words on channel chan. */
  function DataWordsOn(ws: seq<Word>, chan: byte): nat
  {
    if ws == [] then 0
    else DataWordsOn(ws[..|ws| - 1], chan) + (if ws[|ws| - 1].DataWord? && ws[|ws| - 1].ioChannel == chan then 1 else 0)
  }

  /** After a sequence of words, each type's count has risen by the number of
      words counted under it. */
  lemma {:induction false} TypesAfterAllCounts(m: map<WordType, nat>, ws: seq<Word>, ptm: PacketTypeMap, t: WordType)
    ensures Count(TypesAfterAll(m, ws, ptm), t) == Count(m, t) + CountedAs(ws, t, ptm)
  {
    if ws != [] {
      TypesAfterAllCounts(m, ws[..|ws| - 1], ptm, t);
    }
  }

  /** After a sequence of words, a channel's data total has risen by the number
      of data words on that channel. */
  lemma {:induction false} StatusesAfterAllTotals(ds: map<byte, DataCounts>, cs: map<byte, ConfigCounts>,
                                                  ws: seq<Word>, ptm: PacketTypeMap, chan: byte)
    ensures DataOf(StatusesAfterAll(ds, cs, ws, ptm).0, chan).total == DataOf(ds, chan).total + DataWordsOn(ws, chan)
  {
    if ws != [] {
      StatusesAfterAllTotals(ds, cs, ws[..|ws| - 1], ptm, chan);
    }
  }

  /** The entries of one channel agree with each other: every data word is
      counted once by parity and once by direction, every configuration word
      once by direction and kind, and the configuration words of a channel are
      among its data words. */
  predicate EntryOk(d: DataCounts, k: ConfigCounts)
  {
    DataBalanced(d) && ConfigBalanced(k) && k.total <= d.total
  }

  /** The entries of channel c (default ones for a channel not yet seen) agree. */
  predicate ChannelOk(ds: map<byte, DataCounts>, cs: map<byte, ConfigCounts>, c: byte)
  {
    EntryOk(DataOf(ds, c), ConfigOf(cs, c))
  }

  /** The invariant of the status maps: both know the same channels, and the
      entries of every channel agree. */
  predicate StatusesValid(ds: map<byte, DataCounts>, cs: map<byte, ConfigCounts>)
  {
    ds.Keys == cs.Keys && forall c: byte :: ChannelOk(ds, cs, c)
  }

  /** Empty status maps are valid: every channel reads default entries. */
  lemma EmptyValid()
    ensures StatusesValid(map[], map[])
  {
    forall c: byte
      ensures ChannelOk(map[], map[], c)
    {
      assert DataOf(map[], c) == NoData && ConfigOf(map[], c) == NoConfig;
    }
  }

  /** One data word keeps a channel's entries in agreement. */
  lemma EntryAfter(d: DataCounts, k: ConfigCounts, read: bool, write: bool, valid: bool, down: bool)
    requires !(read && write)
    requires EntryOk(d, k)
    ensures EntryOk(DataAfter(d, valid, down), ConfigAfter(k, read, write, valid, down))
  {
  }

  /** Recording a data word keeps the status maps valid. */
  lemma ChannelAfterValid(ds: map<byte, DataCounts>, cs: map<byte, ConfigCounts>, chan: byte,
                          kind: WordType, valid: bool, down: bool)
    requires StatusesValid(ds, cs)
    ensures StatusesValid(ChannelAfter(ds, cs, chan, kind, valid, down).0, ChannelAfter(ds, cs, chan, kind, valid, down).1)
  {
    var r := ChannelAfter(ds, cs, chan, kind, valid, down);
    forall c: byte
      ensures ChannelOk(r.0, r.1, c)
    {
      if c == chan {
        var d := DataAfter(DataOf(ds, chan), valid, down);
        var k := ConfigAfter(ConfigOf(cs, chan), kind == Read, kind == Write, valid, down);
        assert ChannelOk(ds, cs, chan);
        EntryAfter(DataOf(ds, chan), ConfigOf(cs, chan), kind == Read, kind == Write, valid, down);
        assert r == (ds[chan := d], cs[chan := k]);
      } else {
        assert ChannelOk(ds, cs, c);
        ChannelAfterOthers(ds, cs, chan, kind, valid, down, c);
      }
    }
  }

  /** Recording any word keeps the status maps valid. */
  lemma StatusesAfterValid(ds: map<byte, DataCounts>, cs: map<byte, ConfigCounts>, w: Word, ptm: PacketTypeMap)
    requires StatusesValid(ds, cs)
    ensures StatusesValid(StatusesAfter(ds, cs, w, ptm).0, StatusesAfter(ds, cs, w, ptm).1)
  {
    if w.DataWord? {
      ChannelAfterValid(ds, cs, w.ioChannel, ptm[PacketType(w.packet)], ValidParity(w.packet), Downstream(w.packet));
    }
  }

  /** A data word replaces the entries of its channel by the counters after it. */
  lemma StatusesAfterData(ds: map<byte, DataCounts>, cs: map<byte, ConfigCounts>, w: Word, ptm: PacketTypeMap)
    requires w.DataWord?
    ensures StatusesAfter(ds, cs, w, ptm) ==
      (ds[w.ioChannel := DataAfter(DataOf(ds, w.ioChannel), ValidParity(w.packet), Downstream(w.packet))],
       cs[w.ioChannel := ConfigAfter(ConfigOf(cs, w.ioChannel), ptm[PacketType(w.packet)] == Read,
                                     ptm[PacketType(w.packet)] == Write, ValidParity(w.packet), Downstream(w.packet))])
  {
  }

  /** The increments of `record_statuses` on the two counter records of one
      channel, one field at a time, as monitor_pacman.py:118-137 performs them. */
  method CountDataWord(d0: DataCounts, k0: ConfigCounts, validParity: bool, downstream: bool,
                       isConfigRead: bool, isConfigWrite: bool)
    returns (data: DataCounts, config: ConfigCounts)
    requires !(isConfigRead && isConfigWrite)
    ensures data == DataAfter(d0, validParity, downstream)
    ensures config == ConfigAfter(k0, isConfigRead, isConfigWrite, validParity, downstream)
  {
    var isConfig := isConfigRead || isConfigWrite;
    data, config := d0, k0;
    data := data.(total := data.total + 1);
    if isConfig {
      config := config.(total := config.total + 1);
    }
    if validParity {
      data := data.(validParity := data.validParity + 1);
    } else {
      data := data.(invalidParity := data.invalidParity + 1);
      if isConfig {
        config := config.(invalidParity := config.invalidParity + 1);
      }
    }
    if downstream {
      data := data.(downstream := data.downstream + 1);
      if isConfigRead {
        config := config.(dsRead := config.dsRead + 1);
      } else if isConfigWrite {
        config := config.(dsWrite := config.dsWrite + 1);
      }
    } else {
      data := data.(upstream := data.upstream + 1);
      if isConfigRead {
        config := config.(usRead := config.usRead + 1);
      } else if isConfigWrite {
        config := config.(usWrite := config.usWrite + 1);
      }
    }
  }

  /** `Pacmon`, without its socket: the three counter maps. */
  class Pacmon {
    const packetTypeMap: PacketTypeMap
    var wordTypes: map<WordType, nat>
    var dataStatuses: map<byte, DataCounts>
    var configStatuses: map<byte, ConfigCounts>

    predicate Valid()
      reads this
    {
      StatusesValid(dataStatuses, configStatuses)
    }

    /** `Pacmon.__init__`: every counter map starts empty. */
    constructor(ptm: PacketTypeMap)
      ensures packetTypeMap == ptm
      ensures wordTypes == map[] && dataStatuses == map[] && configStatuses == map[]
      ensures Valid()
    {
      packetTypeMap := ptm;
      wordTypes := map[];
      dataStatuses := map[];
      configStatuses := map[];
      EmptyValid();
    }

    /** `record_type`: one more word of the reclassified type. */
    method RecordType(w: Word)
      modifies this
      ensures wordTypes == Bump(old(wordTypes), Reclassify(w, packetTypeMap))
      ensures dataStatuses == old(dataStatuses) && configStatuses == old(configStatuses)
    {
      var reclass: WordType;
      if w.DataWord? {
        var packetType := w.packet[0] % 4;
        reclass := packetTypeMap[packetType];
      } else {
        reclass := w.Type();
      }
      var n := if reclass in wordTypes then wordTypes[reclass] else 0;
      wordTypes := wordTypes[reclass := n + 1];
    }

    /** `record_statuses`: a data word updates the data and configuration
        counters of its channel; any other word changes nothing. */
    method RecordStatuses(w: Word)
      requires Valid()
      modifies this
      ensures Valid()
      ensures (dataStatuses, configStatuses) == StatusesAfter(old(dataStatuses), old(configStatuses), w, packetTypeMap)
      ensures wordTypes == old(wordTypes)
    {
      if w.DataWord? {
        StatusesAfterData(dataStatuses, configStatuses, w, packetTypeMap);
        var chan := w.ioChannel;
        var validParity := ValidParity(w.packet);
        var downstream := Downstream(w.packet);
        var packetType := PacketType(w.packet);
        var isConfigRead := packetTypeMap[packetType] == Read;
        var isConfigWrite := packetTypeMap[packetType] == Write;
        var data := DataOf(dataStatuses, chan);
        var config := ConfigOf(configStatuses, chan);
        data, config := CountDataWord(data, config, validParity, downstream, isConfigRead, isConfigWrite);
        dataStatuses := dataStatuses[chan := data];
        configStatuses := configStatuses[chan := config];
      }
      StatusesAfterValid(old(dataStatuses), old(configStatuses), w, packetTypeMap);
    }

    /** The loop body of `run` over one message's words: each word is recorded
        by type and then by status. */
    method RecordWords(ws: seq<Word>)
      requires Valid()
      modifies this
      ensures Valid()
      ensures wordTypes == TypesAfterAll(old(wordTypes), ws, packetTypeMap)
      ensures (dataStatuses, configStatuses) == StatusesAfterAll(old(dataStatuses), old(configStatuses), ws, packetTypeMap)
    {
      var i := 0;
      while i < |ws|
        invariant 0 <= i <= |ws|
        invariant Valid()
        invariant wordTypes == TypesAfterAll(old(wordTypes), ws[..i], packetTypeMap)
        invariant (dataStatuses, configStatuses) == StatusesAfterAll(old(dataStatuses), old(configStatuses), ws[..i], packetTypeMap)
      {
        assert ws[..i + 1][..i] == ws[..i];
        RecordType(ws[i]);
        RecordStatuses(ws[i]);
        i := i + 1;
      }
      assert ws[..i] == ws;
    }
  }
}
