# pacmon, modelled in Dafny

pacmon monitors the data stream of a LArPix pacman board. The board sends
messages: an 8-byte header (a message type, a 32-bit timestamp, a padding byte
and a 16-bit word count) followed by 16-byte words. Each word starts with a tag
byte naming its type: DATA, TRIG, SYNC, PING, WRITE, READ or ERROR. A DATA word
carries a 64-bit LArPix packet. The monitors parse each message and count the
words by type. For each I/O channel they also count the DATA packets by parity
and by direction, and count the configuration READ and WRITE packets among them.

This project models four parts of that code:

- **format.py** describes the wire format with the `construct` library, big-endian.
  The model builds and parses words and messages byte for byte
  (`format.dfy`, modules `Format` and `FormatLemmas`). The lemmas prove:
  - parsing a built message gives it back;
  - building a parsed message reproduces its bytes exactly when every padding
    byte was zero;
  - a message cut short fails to parse.
- **util.py**, `parity64`: the XOR fold over a big-endian 64-bit value
  (`util.dfy`). The lemmas prove that it returns the number of one bits modulo 2.
  Flipping any single bit flips it, and the byte order of the value does not matter.
- **monitor_pacman.py**, `Pacmon.record_type` and `Pacmon.record_statuses`, as a
  class whose methods update its three counter maps (`monitor.dfy`). It comes with:
  - the per-channel invariants those updates keep;
  - the totals after a sequence of words.
- **ncurses/pacmon.py**, the curses monitor:
  - its own little-endian codec, including the `format_msg` loop
    (`pacmon_wire.dfy`);
  - the string helpers `hex`, `_int_parser` and `print_larpix_bits`
    (`pacmon_text.dfy`);
  - the counting step of `main`, over the three module-level dictionaries
    (`pacmon_counts.dfy`), which reads each packet through its 64-character bit
    string.

  `agreement.dfy` relates the two monitors. They see the same parity, direction
  and packet type in the same eight bytes, and count data packets alike. Their
  configuration counters differ exactly by the quirks of ncurses/pacmon.py:378-402.

Shared pieces:
- `results.dfy`: Option and Result types.
- `bytes.dfy`: byte and integer types, and the big- and little-endian codecs with
  their round trips.
- `bits.dfy`: shifts, masks, XOR and bit counts on Python's unbounded integers.

Python integers are unbounded, so bit operations are modelled on `nat` rather
than on bit-vectors.

## Model

| member | source | states |
|---|---|---|
| Format.WordTypeOf | format.py:49-57 | the seven named tags map to their types; any other byte maps to an `Unlisted` type carrying that byte, whose tag is the byte itself |
| Format.MsgTypeOf | format.py:74-78 | the three message tags map to their types; any other byte is kept as an unlisted type |
| Format.WordTagRoundTrip | format.py:49-57 | a word type is what its tag byte parses as, exactly when it is a named type |
| Format.MsgTagRoundTrip | format.py:74-78 | the same for message types |
| Format.BuildWord | format.py:7-72 | a built word is its tag followed by its content, as long as that type's struct, with every `Padding` byte zero |
| Format.ParseWord | format.py:59-72 | a word parses exactly when its tag's struct fits in the bytes; the result has the tag's type, and the rest is what follows the struct |
| Format.ParseWords | format.py:85 | n words parse into exactly n words of valid types (an unlisted tag byte included), and the rest is what follows their bytes |
| Format.BuildMessage | format.py:80-86 | building succeeds exactly when the word count equals the number of words; the result is the tag, the timestamp, a zero byte, the count, and then the bytes of the words in order |
| Format.ParseMessage | format.py:80-86 | a parsed message has the header's type, timestamp and count, holds that many words of valid types (an unlisted tag byte included), and consumes 8 bytes plus its words |
| FormatLemmas.ContentAtBuild | format.py:7-47 | reading a built content struct gives back every named field |
| FormatLemmas.ParseBuildWord | format.py:59-72 | parsing a built word of a named type gives back the word and leaves what followed it |
| FormatLemmas.ParseBuildWords | format.py:85 | parsing the bytes of n built words gives back the n words and what followed them |
| FormatLemmas.MessageRoundTrip | format.py:80-86 | a message whose count matches its words builds, and parsing the result (followed by anything) gives back the message and what followed |
| FormatLemmas.ParseWordPrefix | format.py:59-72 | a word's parse depends only on its own bytes: cutting the input anywhere after them changes nothing |
| FormatLemmas.ParseWordsSpan | format.py:85 | n words parse exactly when their tags say they fit, and then they take exactly the bytes their tags say |
| FormatLemmas.SpanPrefix | format.py:85 | n words fit in the first k bytes exactly when they fit in the whole input within k bytes |
| FormatLemmas.ParseWordsTruncated | format.py:85 | a word list cut anywhere before its last byte fails to parse |
| FormatLemmas.ParseMessageTruncated | format.py:80-86 | a message cut anywhere before its last byte fails to parse |
| FormatLemmas.BuildContentAt | format.py:7-47 | rebuilding parsed content reproduces every byte except padding, which becomes zero |
| FormatLemmas.ParseThenBuildWord | format.py:59-72 | a parsed word rebuilds to the bytes it came from exactly when its padding bytes were zero |
| FormatLemmas.ParseThenBuildWords | format.py:85 | n parsed words rebuild to their bytes exactly when all their padding bytes were zero |
| FormatLemmas.HeaderThenBuild | format.py:80-84 | a parsed header rebuilds byte for byte exactly when its padding byte is zero |
| FormatLemmas.ParseThenBuild | format.py:80-86 | building a parsed message reproduces the bytes it consumed exactly when every padding byte in them was zero |
| FormatLemmas.ParseExampleStream | format.py:88-94 | in the two back-to-back headers of `test_parse`, the first parse takes 8 bytes (timestamp 1234, no words) and the second reads timestamp 1266 |
| FormatLemmas.BuildExampleEmpty | format.py:96-100 | the empty message of `test_build` is the 8 bytes `D 00 00 04 d2 00 00 00` |
| FormatLemmas.BuildExampleDataWord | format.py:101-108 | the one-word message of `test_build` builds to 24 bytes: the header with count 1, then tag `D`, channel 3, timestamp 4321, two zero bytes, and packet 666666 as eight big-endian bytes at offsets 16..23 |
| Util.Parity64 | util.py:3-12 | the result is 0 or 1, and exists exactly when there are at least 8 bytes |
| Util.FoldKeepsWidth | util.py:6-11 | every `x ^= x >> k` keeps the value below 2**64 |
| Util.Parity64CountsOnes | util.py:3-12 | the result is the number of one bits in the first 8 bytes, modulo 2 |
| Util.Parity64FlipBit | util.py:3-12 | flipping any one of the 64 bits flips the result |
| Util.Parity64ByteOrder | util.py:3-12 | the result equals the bit count modulo 2 of the same bytes read little-endian |
| Monitor.PacketType | monitor_pacman.py:94 | `packet[0] & 3` is below 4 and made of bits 0 and 1 of the first byte |
| Monitor.ValidParityOddOnes | monitor_pacman.py:104 | a packet has valid parity exactly when its 64 bits hold an odd number of ones |
| Monitor.DownstreamIsBit62 | monitor_pacman.py:105 | `packet[7] & 0x40` is set exactly when bit 62 of the little-endian value is |
| Monitor.Reclassify | monitor_pacman.py:91-98 | only a data word can be counted under a type other than its own, and then always under a type the map offers |
| Monitor.ReclassifyLowBitsOnly | monitor_pacman.py:93-96 | two data words whose packets agree in bits 0 and 1 of the first byte are counted under the same type, whatever their other fields |
| Monitor.ReclassifyIgnoresMap | monitor_pacman.py:97-98 | a word that is not a data word is counted under its own type, whatever the map |
| Monitor.DataAfterCounts | monitor_pacman.py:115-133 | a data word adds 1 to the total, to exactly the parity counter and the direction counter it selects, and keeps the data counters balanced |
| Monitor.ConfigAfterCounts | monitor_pacman.py:116-137 | the configuration counters change exactly for a READ or WRITE. Such a word adds 1 to the total, adds 1 to invalid parity exactly when parity is invalid, and adds 1 to exactly the direction and kind counter it selects |
| Monitor.ChannelAfterOthers | monitor_pacman.py:112-113 | only the entries of the word's own channel change |
| Monitor.TypesAfterAllCounts | monitor_pacman.py:91-99 | after a run of words, each type's count has risen by the number of words counted under it |
| Monitor.StatusesAfterAllTotals | monitor_pacman.py:101-115 | after a run of words, each channel's data total has risen by the number of data words on it |
| Monitor.EmptyValid | monitor_pacman.py:81-84 | fresh maps satisfy the status invariant |
| Monitor.ChannelAfterValid | monitor_pacman.py:101-137 | recording a data word keeps every channel's data and configuration counters in agreement |
| Monitor.StatusesAfterValid | monitor_pacman.py:101-137 | recording any word keeps the status maps valid |
| Monitor.CountDataWord | monitor_pacman.py:115-137 | the step-by-step increments produce exactly the data and configuration counters after the word |
| Monitor.Pacmon.constructor | monitor_pacman.py:81-84 | the three maps start empty and valid |
| Monitor.Pacmon.RecordType | monitor_pacman.py:91-99 | adds one to the count of the word's reclassified type and changes nothing else |
| Monitor.Pacmon.RecordStatuses | monitor_pacman.py:101-137 | updates the status maps as a data word dictates, keeps them valid, and leaves the type counts alone |
| Monitor.Pacmon.RecordWords | monitor_pacman.py:91-137 | after a run of words, the maps equal the fold of both updates over the words |
| PacmonWire.WordTypeOf | ncurses/pacmon.py:33-42 | `WORD_TYPE_INV` inverts `WORD_TYPE`; any other byte has no entry (the `KeyError`) |
| PacmonWire.MsgTypeOf | ncurses/pacmon.py:26-31 | `MSG_TYPE_INV` inverts `MSG_TYPE`; any other byte has no entry |
| PacmonWire.Fit14 | ncurses/pacmon.py:56 | the `14s` field is the message cut or zero-padded to 14 bytes |
| PacmonWire.FormatWord | ncurses/pacmon.py:49-61 | every word format packs to 16 bytes, tag first |
| PacmonWire.ParseWord | ncurses/pacmon.py:79-82 | a word parses exactly when it is 16 bytes with a known tag; an empty or unknown tag is a lookup error |
| PacmonWire.FormatHeader | ncurses/pacmon.py:46-70 | the header packs to 8 bytes: the tag, then a zero padding byte at offset 5 |
| PacmonWire.ParseHeader | ncurses/pacmon.py:75-77 | a header parses exactly when it is 8 bytes with a known tag, and its count is the little-endian u16 at offset 6 |
| PacmonWire.FormatWords | ncurses/pacmon.py:84-88 | n formatted words take 16·n bytes |
| PacmonWire.FormatMsg | ncurses/pacmon.py:84-88 | with 65536 words or more the count does not fit in a u16 (a `struct.error`); otherwise the loop leaves the header followed by the words in order |
| PacmonWire.FormatWordsSnoc | ncurses/pacmon.py:86-87 | appending one word's bytes extends the formatted words by that word |
| PacmonWire.ParseChunks | ncurses/pacmon.py:92-95 | a parsed body is a multiple of 16 bytes long, one word per 16 bytes |
| PacmonWire.ParseFormatWord | ncurses/pacmon.py:49-82 | parsing a formatted word gives back its fields, with an ERROR message fitted to 14 bytes |
| PacmonWire.ParseFormatHeader | ncurses/pacmon.py:69-77 | parsing a formatted header gives back its type, timestamp and count |
| PacmonWire.ParseFormatWords | ncurses/pacmon.py:84-96 | the words of a formatted body parse back, in order |
| PacmonWire.ParseFormattedMsg | ncurses/pacmon.py:84-96 | a formatted message is 8 + 16·n bytes, and parsing it gives the header with count n and the n words in order |
| PacmonWire.ParseMsgShape | ncurses/pacmon.py:90-96 | a message shorter than 8 bytes fails; a parsed message has one word per 16 bytes after the header |
| PacmonWire.ParseMsgIgnoresCount | ncurses/pacmon.py:90-96 | overwriting the header's word count does not change the words parsed |
| PacmonWire.ParseChunksPartial | ncurses/pacmon.py:92-95 | a body whose length is not a multiple of 16 fails to parse, because its last chunk is short |
| PacmonText.AfterLast | ncurses/pacmon.py:428-430 | `s.split(c)[-1]` holds no c, and is all of s when s holds none |
| PacmonText.HexChar | ncurses/pacmon.py:428 | each hexadecimal digit reads back as its value |
| PacmonText.HexDigitsValue | ncurses/pacmon.py:428 | the digits of `hex(n)` read in base 16 give n |
| PacmonText.IntParserHex | ncurses/pacmon.py:425-431 | `_int_parser(hex(n))` is n |
| PacmonText.IntParserBinary | ncurses/pacmon.py:425-431 | `_int_parser(bin(n))` is n: the `0b` branch reads the binary digits back |
| PacmonText.IntParserDecimal | ncurses/pacmon.py:425-431 | `_int_parser(str(n))` is n: a decimal string never takes the `0x` or `0b` branch |
| PacmonText.DecimalDigitsValue | ncurses/pacmon.py:431 | the decimal digits of n read in base 10 give n |
| PacmonText.BinaryDigitsValue | ncurses/pacmon.py:430 | the binary digits of n read in base 2 give n |
| PacmonText.AfterLastPrefix | ncurses/pacmon.py:428 | what follows the last x of `0x` + digits is the digits |
| PacmonText.LarpixBitsOfHex | ncurses/pacmon.py:98-104 | for n below 2**64, with or without the `L` suffix, `print_larpix_bits(hex(n))` returns 64 characters, character i being bit i of n |
| PacmonText.LarpixBitsOf | ncurses/pacmon.py:100-103 | the reversed 64-bit binary form of n lists its bits from bit 0 up |
| PacmonText.ReversedBinaryBit | ncurses/pacmon.py:101-102 | character i of the reversed binary digits is bit i |
| PacmonText.BinaryLength | ncurses/pacmon.py:101 | n is below 2 to the number of its binary digits, so a u64 needs at most 64 |
| PacmonCounts.ChannelStepOk | ncurses/pacmon.py:373-402 | one DATA word keeps a channel's counters in agreement: every data word is counted once by parity and once by direction; slot 0 stays zero; slots 2 and 4, and slots 3 and 5, count each READ and each WRITE twice between them; slot 1 counts every READ and at most every WRITE; the word counts as one more READ or WRITE exactly when it is one |
| PacmonCounts.ConfigQuirks | ncurses/pacmon.py:378-402 | as written: slot 0 never moves; a READ adds 1 to slot 1 whatever its parity, a WRITE only with invalid parity; a downstream READ adds 2 to slot 2, a downstream WRITE 2 to slot 3; other words change nothing |
| PacmonCounts.CountChannel | ncurses/pacmon.py:374-402 | the increments, one at a time, add exactly the data and configuration vectors of the word |
| PacmonCounts.InitialOk | ncurses/pacmon.py:63-67 | the dictionaries start with every type and channel 1..32 at zero, in agreement |
| PacmonCounts.Step | ncurses/pacmon.py:353-402 | a word raises exactly when it is a PING or an ERROR word |
| PacmonCounts.StepOwnChannelOnly | ncurses/pacmon.py:373-402 | a word leaves the two lists of every channel unchanged, except a DATA word's own channel |
| PacmonCounts.StepKeepsTallies | ncurses/pacmon.py:356-402 | a word that does not raise adds 1 to exactly the count of its type and keeps the dictionaries in agreement |
| PacmonCounts.RunAll | ncurses/pacmon.py:353 | the dictionaries stay in agreement over a whole message |
| PacmonCounts.RunAllTypes | ncurses/pacmon.py:353-369 | after a message, each type count has risen by the number of reached words counted under it, and the loop raised exactly when a word was not reached |
| PacmonCounts.LowTwoBits | ncurses/pacmon.py:358-367 | the four bit-string comparisons pick the packet's value mod 4: 0 DATA, 1 WRITE, 3 READ, 2 ERROR |
| PacmonCounts.CountOnesBits | ncurses/pacmon.py:376 | the ones among the first k characters are the ones among the k low bits |
| PacmonCounts.ParityFromBits | ncurses/pacmon.py:376-377 | `valid_parity` holds exactly when the packet has an odd number of ones |
| PacmonCounts.TopBit | ncurses/pacmon.py:376-377 | below 2**64, the ones of n are those of its 63 low bits plus bit 63 |
| PacmonCounts.ClassifyWord | ncurses/pacmon.py:356-367 | the type counted is the arithmetic classification; the READ and WRITE flags are set exactly for reclassified DATA words |
| PacmonCounts.ReadBits | ncurses/pacmon.py:357-377 | read through `hex` and `print_larpix_bits`, the word gives its counted type, its parity (odd ones) and its direction (bit 62) |
| PacmonCounts.Counters.constructor | ncurses/pacmon.py:63-67 | the dictionaries as the module creates them |
| PacmonCounts.Counters.RecordWord | ncurses/pacmon.py:353-402 | one word updates the dictionaries in place to the next state, or raises and leaves them unchanged; they stay in agreement |
| PacmonCounts.Counters.RecordWords | ncurses/pacmon.py:353-402 | over a message, the dictionaries reach the fold of the step, stopping at the first word that raises |
| Agreement.ValidParityAgrees | monitor_pacman.py:104 | `parity64` of the raw packet and the ncurses parity test of its little-endian value agree |
| Agreement.DownstreamAgrees | monitor_pacman.py:105 | both monitors read the same direction bit |
| Agreement.PacketTypeAgrees | monitor_pacman.py:94 | `packet[0] & 3` is the little-endian value mod 4 |
| Agreement.CountedTypeAgrees | ncurses/pacmon.py:356-369 | ncurses counts a DATA word as monitor_pacman.py would with the map 0 DATA, 1 WRITE, 2 ERROR, 3 READ |
| Agreement.DataCountsAgree | monitor_pacman.py:115-133 | one DATA word moves the five data counters alike in both monitors |
| Agreement.ConfigCountsCompared | ncurses/pacmon.py:378-402 | compared with monitor_pacman.py: ncurses adds nothing to its total, counts a READ with valid parity as invalid, and adds one more to DS READ or DS WRITE for every READ or WRITE; the upstream counters agree |
| Bytes.DecodeEncodeBE | format.py:9 | a value below 256^n encoded big-endian in n bytes decodes back |
| Bytes.EncodeDecodeBE | format.py:9 | n bytes decoded big-endian re-encode to themselves |
| Bytes.DecodeEncodeLE | ncurses/pacmon.py:46 | the same for little-endian |
| Bytes.EncodeDecodeLE | ncurses/pacmon.py:46 | the same for little-endian |
| Bits.XorParity | util.py:6-11 | XOR adds bit counts modulo 2 |
| Bits.PopCountSplit | util.py:3-12 | the one bits of x split into those below bit k and those from bit k up |
| Bits.PopCountLE | util.py:4-5 | the bit count of a little-endian value is the sum of its bytes' counts |
| Bits.PopCountBE | util.py:4-5 | the bit count of a big-endian value is the sum of its bytes' counts |

## Left out

- Network I/O is left out: ZeroMQ sockets, pollers, `dump_messages`, `Pacmon.run` and the receive loop of ncurses `main`. A message reaches the model as a byte sequence.
- Rendering is left out: curses (`run_console`, `print_msg`), `print_stats` and argparse. Nothing they compute feeds back into the counters.
- The wall clock is left out: `time.time()` in `format_header` becomes a `timestamp` parameter, and the one-second reporting tick is dropped.
- The `construct` library itself is not modelled. Only the byte layout format.py declares with it is.
- Python's `struct` raises on an out-of-range field. Field types (`byte`, `u32`, `u64`) rule such values out instead; only the word count of `format_msg` is checked, because it depends on the input length.
- `PACKET_TYPE_MAP` is not defined in monitor_pacman.py, so it is a parameter, total on 0..3. `Agreement.NcursesTypeMap` is the map ncurses/pacmon.py applies.
- The `else` branch at ncurses/pacmon.py:370-372 (`unknown packet type!`) is not modelled. It cannot be taken, because every parsed word has one of the seven types that key the dictionary. Its `exit` is also never called.
- A PING or ERROR word makes `hex(word[-1])` raise. `PacmonCounts.Counters.RecordWord` models this by returning `raised` with the dictionaries unchanged. `RecordWords` stops at that word; the real loop would also end `main`.
- Python 2 returns a `long` for a u64 above `sys.maxint`, so its `hex` ends in `L`. Both forms are modelled (`PacmonCounts.MaxInt`), and `LarpixBitsOfHex` shows the bits are the same either way.
- PacmonText.IntParser: `int()` also accepts surrounding whitespace, a sign and a second base prefix. Only the plain digit strings that `hex` produces are modelled; any other string reads as None.
- format.py has no default branch in its `Switch` for an unknown word tag. The model parses such a tag as an `Unlisted` word with empty content, not as an error, and the construct `Enum` keeps the raw byte.
- Validity is parity 1, an odd number of ones, as `parity64` and ncurses/pacmon.py:376-377 compute it.
- ncurses/pacmon.py maps packet type 1 to WRITE and 2 to ERROR (bit strings `10` and `01`).
