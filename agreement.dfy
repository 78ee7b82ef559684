/** How the two monitors relate. monitor_pacman.py reads the eight raw packet
    bytes of a DATA word; ncurses/pacmon.py reads the same bytes as a
    little-endian u64. Both see the same parity, direction and packet type, and
    count data words the same way; their configuration counters differ by the
    quirks of lines 378-402 of ncurses/pacmon.py. */
module Agreement {
  import opened Bytes
  import opened Bits
  import F = Format
  import M = Monitor
  import W = PacmonWire
  import C = PacmonCounts
  import Util

  /** The word type of one codec named in the other's terms. */
  function AsFormat(t: W.WordType): (u: F.WordType)
    ensures F.WordTag(u) == W.WordTag(t)
  {
    match t
    case Data => F.Data
    case Trig => F.Trig
    case Sync => F.Sync
    case Ping => F.Ping
    case Write => F.Write
    case Read => F.Read
    case Error => F.Error
  }

  /** The packet-type map ncurses/pacmon.py applies through its bit strings. */
  const NcursesTypeMap: M.PacketTypeMap := map[0 := F.Data, 1 := F.Write, 2 := F.Error, 3 := F.Read]

  /** Both monitors find the same parity in the same eight bytes. */
  lemma ValidParityAgrees(p: F.Packet)
    ensures M.ValidParity(p) <==> C.ValidParity(DecodeLE(p))
  {
    Util.Parity64ByteOrder(p);
    assert p[..8] == p;
  }

  /** Both monitors find the same direction. */
  lemma DownstreamAgrees(p: F.Packet)
    ensures M.Downstream(p) <==> C.Downstream(DecodeLE(p))
  {
    M.DownstreamIsBit62(p);
  }

  /** The two low bits of the u64 are those of the first byte. */
  lemma PacketTypeAgrees(p: F.Packet)
    ensures DecodeLE(p) % 4 == M.PacketType(p)
  {
    var q := DecodeLE(p[1..]);
    assert DecodeLE(p) == p[0] + 4 * (64 * q);
  }

  /** ncurses/pacmon.py counts a DATA word under the type monitor_pacman.py
      would give it with the map 0 DATA, 1 WRITE, 2 ERROR, 3 READ. */
  lemma CountedTypeAgrees(ch: byte, ts: u32, ts': u32, p: F.Packet)
    ensures DecodeLE(p) < 0x1_0000_0000_0000_0000
    ensures AsFormat(C.CountedType(W.DataWord(ch, ts', DecodeLE(p)))) ==
            M.Reclassify(F.DataWord(ch, ts, p), NcursesTypeMap)
  {
    Pow256Widths();
    PacketTypeAgrees(p);
  }

  function DataSlots(d: M.DataCounts): (s: seq<nat>)
    ensures |s| == 5
  {
    [d.total, d.validParity, d.invalidParity, d.downstream, d.upstream]
  }

  function ConfigSlots(c: M.ConfigCounts): (s: seq<nat>)
    ensures |s| == 6
  {
    [c.total, c.invalidParity, c.dsRead, c.dsWrite, c.usRead, c.usWrite]
  }

  /** One DATA word moves the five data counters of its channel alike in both
      monitors. */
  lemma DataCountsAgree(d: M.DataCounts, valid: bool, down: bool)
    ensures DataSlots(M.DataAfter(d, valid, down)) == C.AddSlots(DataSlots(d), C.DataIncrement(valid, down))
  {
    var a, b := DataSlots(M.DataAfter(d, valid, down)), C.AddSlots(DataSlots(d), C.DataIncrement(valid, down));
    assert forall i :: 0 <= i < 5 ==> a[i] == b[i];
  }

  /** Where the configuration counters part: ncurses/pacmon.py never adds to its
      total, counts a READ with valid parity as invalid, and adds one more to
      DS READ or DS WRITE for every READ or WRITE; the upstream counters agree. */
  lemma ConfigCountsCompared(c: M.ConfigCounts, read: bool, write: bool, valid: bool, down: bool)
    requires !(read && write)
    ensures var m, n := ConfigSlots(M.ConfigAfter(c, read, write, valid, down)),
                        C.AddSlots(ConfigSlots(c), C.ConfigIncrement(read, write, valid, down));
      n[0] + C.B(read || write) == m[0] &&
      n[1] == m[1] + C.B(read && valid) &&
      n[2] == m[2] + C.B(read) &&
      n[3] == m[3] + C.B(write) &&
      n[4] == m[4] && n[5] == m[5]
  {
  }
}
