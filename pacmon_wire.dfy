/** The little-endian copy of the message layout in ncurses/pacmon.py, written
    with `struct` formats: an 8-byte header (`<cLxH`) and words of a fixed 16
    bytes each, whose tag byte selects the format of the rest. Unknown tags
    raise, through the inverse-dictionary lookups. */
module PacmonWire {
  import opened Bytes
  import opened Results

  // ---------------------------------------------------------------------------
  // Tags

  /** The keys of `WORD_TYPE`. */
  datatype WordType = Data | Trig | Sync | Ping | Write | Read | Error

  /** The keys of `MSG_TYPE`. */
  datatype MsgType = DataMsg | Request | Reply

  /** `WORD_TYPE[t]`. */
  function WordTag(t: WordType): byte
  {
    match t
    case Data => 'D' as int
    case Trig => 'T' as int
    case Sync => 'S' as int
    case Ping => 'P' as int
    case Write => 'W' as int
    case Read => 'R' as int
    case Error => 'E' as int
  }

  /** `WORD_TYPE_INV[code]`: None where the lookup raises `KeyError`. */
  function WordTypeOf(code: byte): (t: Option<WordType>)
    ensures t.Some? ==> WordTag(t.value) == code
    ensures forall u :: WordTag(u) == code ==> t == Some(u)
  {
    if code == 'D' as int then Some(Data)
    else if code == 'T' as int then Some(Trig)
    else if code == 'S' as int then Some(Sync)
    else if code == 'P' as int then Some(Ping)
    else if code == 'W' as int then Some(Write)
    else if code == 'R' as int then Some(Read)
    else if code == 'E' as int then Some(Error)
    else None
  }

  /** `MSG_TYPE[t]`. */
  function MsgTag(t: MsgType): byte
  {
    match t
    case DataMsg => 'D' as int
    case Request => '?' as int
    case Reply => '!' as int
  }

  /** `MSG_TYPE_INV[code]`: None where the lookup raises `KeyError`. */
  function MsgTypeOf(code: byte): (t: Option<MsgType>)
    ensures t.Some? ==> MsgTag(t.value) == code
    ensures forall u :: MsgTag(u) == code ==> t == Some(u)
  {
    if code == 'D' as int then Some(DataMsg)
    else if code == '?' as int then Some(Request)
    else if code == '!' as int then Some(Reply)
    else None
  }

  // ---------------------------------------------------------------------------
  // Words

  /** What `parse_word` returns: the type name followed by the fields its
      format unpacks (pad bytes `x` unpack to nothing). */
  datatype Word =
    | DataWord(ioChannel: byte, timestamp: u32, packet: u64)
    | TrigWord(kind: byte, timestamp: u32)
    | SyncWord(kind: byte, clkSource: byte, timestamp: u32)
    | PingWord
    | WriteWord(reg1: u32, reg2: u32)
    | ReadWord(reg1: u32, reg2: u32)
    | ErrorWord(err: byte, message: seq<byte>)
  {
    function Type(): WordType
    {
      match this
      case DataWord(_, _, _) => Data
      case TrigWord(_, _) => Trig
      case SyncWord(_, _, _) => Sync
      case PingWord => Ping
      case WriteWord(_, _) => Write
      case ReadWord(_, _) => Read
      case ErrorWord(_, _) => Error
    }
  }

  const WordLen: nat := 16
  const HeaderLen: nat := 8

  /** What a `14s` field packs a string to: cut to 14 bytes, or padded with zeros. */
  function Fit14(s: seq<byte>): (r: seq<byte>)
    ensures |r| == 14
    ensures |s| >= 14 ==> r == s[..14]
    ensures |s| < 14 ==> r[..|s|] == s && forall i :: |s| <= i < 14 ==> r[i] == 0
  {
    if |s| >= 14 then s[..14] else s + Zeros(14 - |s|)
  }

  /** `format_word(t, *fields)`: the word packed with the format of its type. */
  function FormatWord(w: Word): (b: seq<byte>)
    ensures |b| == WordLen
    ensures b[0] == WordTag(w.Type())
  {
    match w
    case DataWord(ch, ts, packet) => [WordTag(Data), ch] + EncodeLE(ts, 4) + Zeros(2) + EncodeLE(packet, 8)
    case TrigWord(kind, ts) => [WordTag(Trig), kind] + Zeros(2) + EncodeLE(ts, 4) + Zeros(8)
    case SyncWord(kind, clk, ts) => [WordTag(Sync), kind, clk] + Zeros(1) + EncodeLE(ts, 4) + Zeros(8)
    case PingWord => [WordTag(Ping)] + Zeros(15)
    case WriteWord(r1, r2) => [WordTag(Write)] + Zeros(3) + EncodeLE(r1, 4) + Zeros(4) + EncodeLE(r2, 4)
    case ReadWord(r1, r2) => [WordTag(Read)] + Zeros(3) + EncodeLE(r1, 4) + Zeros(4) + EncodeLE(r2, 4)
    case ErrorWord(err, message) => [WordTag(Error), err] + Fit14(message)
  }

  /** The fields the format of t unpacks from a 16-byte word b. */
  function WordAt(t: WordType, b: seq<byte>): (w: Word)
    requires |b| == WordLen
    ensures w.Type() == t
  {
    Pow256Widths();
    match t
    case Data => DataWord(b[1], DecodeLE(b[2..6]), DecodeLE(b[8..16]))
    case Trig => TrigWord(b[1], DecodeLE(b[4..8]))
    case Sync => SyncWord(b[1], b[2], DecodeLE(b[4..8]))
    case Ping => PingWord
    case Write => WriteWord(DecodeLE(b[4..8]), DecodeLE(b[12..16]))
    case Read => ReadWord(DecodeLE(b[4..8]), DecodeLE(b[12..16]))
    case Error => ErrorWord(b[1], b[2..16])
  }

  /** Why a parse fails: an unknown tag (`KeyError`), or a chunk whose length is
      not the one its format needs, or a field out of range (`struct.error`). */
  datatype WireError = UnknownMsgType | UnknownWordType | BadLength | OutOfRange

  /** `parse_word`: the tag is looked up first (an empty word's tag `b''` is
      unknown too), then the word is unpacked, which needs exactly 16 bytes. */
  function ParseWord(b: seq<byte>): (r: Result<Word, WireError>)
    ensures r.Ok? <==> |b| == WordLen && WordTypeOf(b[0]).Some?
    ensures (|b| == 0 || WordTypeOf(b[0]).None?) ==> r == Err(UnknownWordType)
    ensures r.Ok? ==> r.value.Type() == WordTypeOf(b[0]).value
  {
    if |b| == 0 then Err(UnknownWordType)
    else match WordTypeOf(b[0])
      case None => Err(UnknownWordType)
      case Some(t) => if |b| != WordLen then Err(BadLength) else Ok(WordAt(t, b))
  }

  /** The word `parse_word` gives back for one packed by `format_word`: the
      same, with the error message fitted to 14 bytes. */
  function Packed(w: Word): (p: Word)
    ensures p.Type() == w.Type()
  {
    match w
    case ErrorWord(err, message) => ErrorWord(err, Fit14(message))
    case _ => w
  }

  // ---------------------------------------------------------------------------
  // Headers and messages

  /** What `parse_header` returns: the message type, the timestamp and the word count. */
  datatype Header = Header(msgType: MsgType, timestamp: u32, numWords: u16)

  /** `format_header`, with the clock reading `int(time.time())` passed in. */
  function FormatHeader(t: MsgType, timestamp: u32, numWords: u16): (h: seq<byte>)
    ensures |h| == HeaderLen
    ensures h[0] == MsgTag(t) && h[5] == 0
  {
    [MsgTag(t)] + EncodeLE(timestamp, 4) + Zeros(1) + EncodeLE(numWords, 2)
  }

  /** `parse_header`: the 8 bytes are unpacked first, then the tag looked up. */
  function ParseHeader(h: seq<byte>): (r: Result<Header, WireError>)
    ensures r.Ok? <==> |h| == HeaderLen && MsgTypeOf(h[0]).Some?
    ensures |h| != HeaderLen ==> r == Err(BadLength)
    ensures r.Ok? ==> r.value.numWords == DecodeLE(h[6..8])
  {
    if |h| != HeaderLen then Err(BadLength)
    else match MsgTypeOf(h[0])
      case None => Err(UnknownMsgType)
      case Some(t) =>
        Pow256Widths();
        Ok(Header(t, DecodeLE(h[1..5]), DecodeLE(h[6..8])))
  }

  /** The words packed one after another. */
  function FormatWords(ws: seq<Word>): (b: seq<byte>)
    ensures |b| == WordLen * |ws|
  {
    if ws == [] then [] else FormatWord(ws[0]) + FormatWords(ws[1..])
  }

  /** The bytes `format_msg` returns once `len(msg_words)` fits the u16 count. */
  function FormattedMsg(t: MsgType, timestamp: u32, ws: seq<Word>): seq<byte>
    requires |ws| < 0x1_0000
  {
    FormatHeader(t, timestamp, |ws|) + FormatWords(ws)
  }

  /** `format_msg`: the header, then each word appended in turn (`+=`). A
      count that does not fit the u16 field makes `struct.pack` raise. */
  method FormatMsg(t: MsgType, timestamp: u32, ws: seq<Word>) returns (r: Result<seq<byte>, WireError>)
    ensures |ws| >= 0x1_0000 ==> r == Err(OutOfRange)
    ensures |ws| < 0x1_0000 ==> r == Ok(FormattedMsg(t, timestamp, ws))
  {
    if |ws| >= 0x1_0000 {
      return Err(OutOfRange);
    }
    var msgBytes := FormatHeader(t, timestamp, |ws|);
    var i := 0;
    while i < |ws|
      invariant 0 <= i <= |ws|
      invariant msgBytes == FormatHeader(t, timestamp, |ws|) + FormatWords(ws[..i])
    {
      FormatWordsPrefix(t, timestamp, ws, i);
      msgBytes := msgBytes + FormatWord(ws[i]);
      i := i + 1;
    }
    assert ws[..i] == ws;
    return Ok(msgBytes);
  }

  /** The bytes after i + 1 words are those after i words, then word i. */
  lemma FormatWordsPrefix(t: MsgType, timestamp: u32, ws: seq<Word>, i: nat)
    requires i < |ws| < 0x1_0000
    ensures FormatHeader(t, timestamp, |ws|) + FormatWords(ws[..i + 1]) ==
      FormatHeader(t, timestamp, |ws|) + FormatWords(ws[..i]) + FormatWord(ws[i])
  {
    assert ws[..i + 1] == ws[..i] + [ws[i]];
    FormatWordsSnoc(ws[..i], ws[i]);
  }

  /** Appending a word appends its packed bytes. */
  lemma {:induction false} FormatWordsSnoc(ws: seq<Word>, w: Word)
    ensures FormatWords(ws + [w]) == FormatWords(ws) + FormatWord(w)
  {
    if ws != [] {
      assert (ws + [w])[0] == ws[0];
      assert (ws + [w])[1..] == ws[1..] + [w];
      FormatWordsSnoc(ws[1..], w);
    }
  }

  /** The words of a message body: consecutive 16-byte chunks, the last one
      whatever is left (`msg[i:i+WORD_LEN]`), each parsed in order; the first
      failure is the result. */
  function ParseChunks(body: seq<byte>): (r: Result<seq<Word>, WireError>)
    ensures r.Ok? ==> |body| % WordLen == 0 && |r.value| == |body| / WordLen
    decreases |body|
  {
    if body == [] then Ok([])
    else
      var k := if |body| < WordLen then |body| else WordLen;
      var w :- ParseWord(body[..k]);
      var ws :- ParseChunks(body[k..]);
      Ok([w] + ws)
  }

  /** `parse_msg`: the header from `msg[:8]`, then the chunks from byte 8 on.
      The header's word count is never consulted. */
  function ParseMsg(msg: seq<byte>): (r: Result<(Header, seq<Word>), WireError>)
  {
    var header :- ParseHeader(if |msg| < HeaderLen then msg else msg[..HeaderLen]);
    var words :- ParseChunks(msg[HeaderLen..]);
    Ok((header, words))
  }

  // ---------------------------------------------------------------------------
  // Properties

  /** Every word packs to 16 bytes and parses back to its own fields. */
  lemma ParseFormatWord(w: Word)
    ensures ParseWord(FormatWord(w)) == Ok(Packed(w))
  {
    var b := FormatWord(w);
    assert WordTypeOf(b[0]) == Some(w.Type());
    match w {
      case DataWord(ch, ts, packet) => DataRoundTrip(ch, ts, packet);
      case TrigWord(kind, ts) => TrigRoundTrip(kind, ts);
      case SyncWord(kind, clk, ts) => SyncRoundTrip(kind, clk, ts);
      case PingWord =>
      case WriteWord(r1, r2) => RegistersRoundTrip(Write, r1, r2);
      case ReadWord(r1, r2) => RegistersRoundTrip(Read, r1, r2);
      case ErrorWord(err, message) => assert b[2..16] == Fit14(message);
    }
  }

  lemma DataRoundTrip(ch: byte, ts: u32, packet: u64)
    ensures WordAt(Data, FormatWord(DataWord(ch, ts, packet))) == DataWord(ch, ts, packet)
  {
    var b := FormatWord(DataWord(ch, ts, packet));
    assert b[2..6] == EncodeLE(ts, 4);
    assert b[8..16] == EncodeLE(packet, 8);
    Pow256Widths();
    DecodeEncodeLE(ts, 4);
    DecodeEncodeLE(packet, 8);
  }

  lemma TrigRoundTrip(kind: byte, ts: u32)
    ensures WordAt(Trig, FormatWord(TrigWord(kind, ts))) == TrigWord(kind, ts)
  {
    var b := FormatWord(TrigWord(kind, ts));
    assert b[4..8] == EncodeLE(ts, 4);
    Pow256Widths();
    DecodeEncodeLE(ts, 4);
  }

  lemma SyncRoundTrip(kind: byte, clk: byte, ts: u32)
    ensures WordAt(Sync, FormatWord(SyncWord(kind, clk, ts))) == SyncWord(kind, clk, ts)
  {
    var b := FormatWord(SyncWord(kind, clk, ts));
    assert b[4..8] == EncodeLE(ts, 4);
    Pow256Widths();
    DecodeEncodeLE(ts, 4);
  }

  lemma RegistersRoundTrip(t: WordType, r1: u32, r2: u32)
    requires t == Write || t == Read
    ensures var w := if t == Write then WriteWord(r1, r2) else ReadWord(r1, r2);
      WordAt(t, FormatWord(w)) == w
  {
    var w := if t == Write then WriteWord(r1, r2) else ReadWord(r1, r2);
    var b := FormatWord(w);
    assert b == [WordTag(t)] + Zeros(3) + EncodeLE(r1, 4) + Zeros(4) + EncodeLE(r2, 4);
    RegisterBytes(WordTag(t), r1, r2);
    Pow256Widths();
    DecodeEncodeLE(r1, 4);
    DecodeEncodeLE(r2, 4);
  }

  lemma RegisterBytes(tag: byte, r1: u32, r2: u32)
    ensures var b := [tag] + Zeros(3) + EncodeLE(r1, 4) + Zeros(4) + EncodeLE(r2, 4);
      b[4..8] == EncodeLE(r1, 4) && b[12..16] == EncodeLE(r2, 4)
  {
  }

  /** The header packs to 8 bytes and parses back to its fields. */
  lemma ParseFormatHeader(t: MsgType, timestamp: u32, numWords: u16)
    ensures ParseHeader(FormatHeader(t, timestamp, numWords)) == Ok(Header(t, timestamp, numWords))
  {
    var h := FormatHeader(t, timestamp, numWords);
    assert h[1..5] == EncodeLE(timestamp, 4);
    assert h[6..8] == EncodeLE(numWords, 2);
    Pow256Widths();
    DecodeEncodeLE(timestamp, 4);
    DecodeEncodeLE(numWords, 2);
  }

  /** The chunks of packed words parse back to the words, in order. */
  lemma {:induction false} ParseFormatWords(ws: seq<Word>)
    ensures ParseChunks(FormatWords(ws)) == Ok(PackedAll(ws))
  {
    if ws != [] {
      var body := FormatWords(ws);
      assert body[..WordLen] == FormatWord(ws[0]);
      assert body[WordLen..] == FormatWords(ws[1..]);
      ParseFormatWord(ws[0]);
      ParseFormatWords(ws[1..]);
    }
  }

  function PackedAll(ws: seq<Word>): (ps: seq<Word>)
    ensures |ps| == |ws|
    ensures forall i :: 0 <= i < |ws| ==> ps[i] == Packed(ws[i])
  {
    if ws == [] then [] else [Packed(ws[0])] + PackedAll(ws[1..])
  }

  /** `format_msg` output is 8 + 16·n bytes and parses back to the message type,
      the timestamp, the count n and the words in the given order. */
  lemma ParseFormattedMsg(t: MsgType, timestamp: u32, ws: seq<Word>)
    requires |ws| < 0x1_0000
    ensures |FormattedMsg(t, timestamp, ws)| == HeaderLen + WordLen * |ws|
    ensures ParseMsg(FormattedMsg(t, timestamp, ws)) == Ok((Header(t, timestamp, |ws|), PackedAll(ws)))
  {
    var msg := FormattedMsg(t, timestamp, ws);
    assert msg[..HeaderLen] == FormatHeader(t, timestamp, |ws|);
    assert msg[HeaderLen..] == FormatWords(ws);
    ParseFormatHeader(t, timestamp, |ws|);
    ParseFormatWords(ws);
  }

  /** A message parses only when it holds a full header and whole 16-byte
      words, one word per chunk; shorter than a header it fails on the header. */
  lemma ParseMsgShape(msg: seq<byte>)
    ensures |msg| < HeaderLen ==> ParseMsg(msg) == Err(BadLength)
    ensures ParseMsg(msg).Ok? ==>
      |msg| >= HeaderLen && (|msg| - HeaderLen) % WordLen == 0 &&
      |ParseMsg(msg).value.1| == (|msg| - HeaderLen) / WordLen
  {
  }

  /** The header's word count plays no part in parsing: rewriting it to any c
      leaves the words as they were and reports c. */
  lemma ParseMsgIgnoresCount(msg: seq<byte>, c: u16)
    requires ParseMsg(msg).Ok?
    ensures var msg' := msg[..6] + EncodeLE(c, 2) + msg[HeaderLen..];
      ParseMsg(msg').Ok? &&
      ParseMsg(msg').value.1 == ParseMsg(msg).value.1 &&
      ParseMsg(msg').value.0 == ParseMsg(msg).value.0.(numWords := c)
  {
    var msg' := msg[..6] + EncodeLE(c, 2) + msg[HeaderLen..];
    assert msg'[..HeaderLen] == msg[..6] + EncodeLE(c, 2);
    assert msg'[HeaderLen..] == msg[HeaderLen..];
    assert msg'[..HeaderLen][1..5] == msg[..HeaderLen][1..5];
    assert msg'[..HeaderLen][6..8] == EncodeLE(c, 2);
    Pow256Widths();
    DecodeEncodeLE(c, 2);
  }

  /** A body that is not a whole number of words fails to parse. */
  lemma {:induction false} ParseChunksPartial(body: seq<byte>)
    requires |body| % WordLen != 0
    ensures ParseChunks(body).Err?
    decreases |body|
  {
    if |body| >= WordLen {
      ParseChunksPartial(body[WordLen..]);
    }
  }
}
