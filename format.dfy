/** The big-endian message layout declared in format.py: an 8-byte header
    (type tag, u32 timestamp, one padding byte, u16 word count) followed by
    `num_words` words, each a type tag and the content struct that tag selects. */
module Format {
  import opened Bytes
  import opened Results

  // ---------------------------------------------------------------------------
  // Tags

  /** `WordType`: the seven named tags, and `Unlisted` for any other byte, which
      the `Enum` hands back as a bare integer rather than rejecting. */
  datatype WordType = Data | Trig | Sync | Ping | Write | Read | Error | Unlisted(code: byte)

  /** `MsgType`, with the same treatment of bytes outside the three named tags. */
  datatype MsgType = DataMsg | Request | Reply | UnlistedMsg(code: byte)

  predicate IsWordTag(code: byte)
  {
    code in {'D' as int, 'T' as int, 'S' as int, 'P' as int, 'W' as int, 'R' as int, 'E' as int}
  }

  predicate IsMsgTag(code: byte)
  {
    code in {'D' as int, '?' as int, '!' as int}
  }

  /** The tag byte a word type is built as. */
  function WordTag(t: WordType): byte
  {
    match t
    case Data => 'D' as int
    case Trig => 'T' as int
    case Sync => 'S' as int
    case Ping => 'P' as int
    case Write => 'W' as int
    case Read => 'R' as int
    case Error => 'E' as int
    case Unlisted(code) => code
  }

  /** The word type a tag byte parses as. */
  function WordTypeOf(code: byte): (t: WordType)
    ensures WordTag(t) == code
    ensures t.Unlisted? <==> !IsWordTag(code)
  {
    if code == 'D' as int then Data
    else if code == 'T' as int then Trig
    else if code == 'S' as int then Sync
    else if code == 'P' as int then Ping
    else if code == 'W' as int then Write
    else if code == 'R' as int then Read
    else if code == 'E' as int then Error
    else Unlisted(code)
  }

  function MsgTag(t: MsgType): byte
  {
    match t
    case DataMsg => 'D' as int
    case Request => '?' as int
    case Reply => '!' as int
    case UnlistedMsg(code) => code
  }

  function MsgTypeOf(code: byte): (t: MsgType)
    ensures MsgTag(t) == code
    ensures t.UnlistedMsg? <==> !IsMsgTag(code)
  {
    if code == 'D' as int then DataMsg
    else if code == '?' as int then Request
    else if code == '!' as int then Reply
    else UnlistedMsg(code)
  }

  /** A type value that parsing can produce: an unlisted code is not a named tag. */
  predicate ValidWordType(t: WordType)
  {
    t.Unlisted? ==> !IsWordTag(t.code)
  }

  predicate ValidMsgType(t: MsgType)
  {
    t.UnlistedMsg? ==> !IsMsgTag(t.code)
  }

  /** The tag alone decides the type: tags and valid types are in one-to-one correspondence. */
  lemma WordTagRoundTrip(t: WordType)
    ensures ValidWordType(t) <==> WordTypeOf(WordTag(t)) == t
  {
  }

  lemma MsgTagRoundTrip(t: MsgType)
    ensures ValidMsgType(t) <==> MsgTypeOf(MsgTag(t)) == t
  {
  }

  // ---------------------------------------------------------------------------
  // Words

  type Packet = s: seq<byte> | |s| == 8 witness [0, 0, 0, 0, 0, 0, 0, 0]

  /** A parsed `Word`: its type together with the named fields of the content
      struct that type selects (`Padding` fields carry no value). The `type`
      byte of `Trig` and `Sync` is called `kind` here. */
  datatype Word =
    | DataWord(ioChannel: byte, timestamp: u32, packet: Packet)
    | TrigWord(kind: byte, timestamp: u32)
    | SyncWord(kind: byte, clkSource: byte, timestamp: u32)
    | PingWord
    | WriteWord(write1: u32, write2: u32)
    | ReadWord(read1: u32, read2: u32)
    | ErrorWord(err: byte)
    | UnlistedWord(code: byte)
  {
    function Type(): WordType
    {
      match this
      case DataWord(_, _, _) => Data
      case TrigWord(_, _) => Trig
      case SyncWord(_, _, _) => Sync
      case PingWord => Ping
      case WriteWord(_, _) => Write
      case ReadWord(_, _) => Read
      case ErrorWord(_) => Error
      case UnlistedWord(code) => Unlisted(code)
    }
  }

  /** Bytes of the content struct each tag selects; an unlisted tag selects none. */
  function ContentSize(t: WordType): nat
  {
    match t
    case Data => 15
    case Trig => 7
    case Sync => 6
    case Ping => 15
    case Write => 15
    case Read => 15
    case Error => 15
    case Unlisted(_) => 0
  }

  function WordSize(t: WordType): nat
  {
    1 + ContentSize(t)
  }

  /** Whether offset i, within a word of type t, is a `Padding` byte. */
  predicate IsPadding(t: WordType, i: nat)
  {
    match t
    case Data => i == 6 || i == 7
    case Trig => i == 2 || i == 3
    case Sync => false
    case Ping => 1 <= i <= 15
    case Write => 1 <= i <= 3 || 8 <= i <= 11
    case Read => 1 <= i <= 3 || 8 <= i <= 11
    case Error => 2 <= i <= 15
    case Unlisted(_) => false
  }

  /** The encoded bytes of the content struct (format.py:7-47), padding written as zeros. */
  function BuildContent(w: Word): seq<byte>
  {
    match w
    case DataWord(ch, ts, packet) => [ch] + EncodeBE(ts, 4) + Zeros(2) + packet
    case TrigWord(kind, ts) => [kind] + Zeros(2) + EncodeBE(ts, 4)
    case SyncWord(kind, clk, ts) => [kind, clk] + EncodeBE(ts, 4)
    case PingWord => Zeros(15)
    case WriteWord(w1, w2) => Zeros(3) + EncodeBE(w1, 4) + Zeros(4) + EncodeBE(w2, 4)
    case ReadWord(r1, r2) => Zeros(3) + EncodeBE(r1, 4) + Zeros(4) + EncodeBE(r2, 4)
    case ErrorWord(err) => [err] + Zeros(14)
    case UnlistedWord(_) => []
  }

  /** `Word.build`: the tag, then the content. */
  function BuildWord(w: Word): (b: seq<byte>)
    ensures |b| == WordSize(w.Type())
    ensures b[0] == WordTag(w.Type())
    ensures forall i: nat :: IsPadding(w.Type(), i) ==> i < |b| && b[i] == 0
  {
    [WordTag(w.Type())] + BuildContent(w)
  }

  function BuildWords(ws: seq<Word>): (b: seq<byte>)
    ensures |b| == WordsSize(ws)
  {
    if ws == [] then [] else BuildWord(ws[0]) + BuildWords(ws[1..])
  }

  function WordsSize(ws: seq<Word>): nat
  {
    if ws == [] then 0 else WordSize(ws[0].Type()) + WordsSize(ws[1..])
  }

  /** The content struct selected by t, read from the front of c. */
  function ContentAt(t: WordType, c: seq<byte>): (w: Word)
    requires |c| >= ContentSize(t)
    ensures w.Type() == t
  {
    Pow256Widths();
    match t
    case Data => DataWord(c[0], DecodeBE(c[1..5]), c[7..15])
    case Trig => TrigWord(c[0], DecodeBE(c[3..7]))
    case Sync => SyncWord(c[0], c[1], DecodeBE(c[2..6]))
    case Ping => PingWord
    case Write => WriteWord(DecodeBE(c[3..7]), DecodeBE(c[11..15]))
    case Read => ReadWord(DecodeBE(c[3..7]), DecodeBE(c[11..15]))
    case Error => ErrorWord(c[0])
    case Unlisted(code) => UnlistedWord(code)
  }

  /** Errors of `parse` and `build`: the input ran out (`StreamError`), or the
      word list does not have `num_words` entries (`RangeError` of `Array`). */
  datatype FormatError = StreamEnded | CountMismatch

  /** `Word.parse_stream`: the word at the front of b and the bytes after it. */
  function ParseWord(b: seq<byte>): (r: Result<(Word, seq<byte>), FormatError>)
    ensures r.Ok? <==> |b| >= 1 && |b| >= WordSize(WordTypeOf(b[0]))
    ensures r.Ok? ==> r.value.0.Type() == WordTypeOf(b[0]) &&
                      r.value.1 == b[WordSize(r.value.0.Type())..]
  {
    if |b| == 0 then Err(StreamEnded)
    else
      var t := WordTypeOf(b[0]);
      if |b| - 1 < ContentSize(t) then Err(StreamEnded)
      else Ok((ContentAt(t, b[1..]), b[1 + ContentSize(t)..]))
  }

  /** `Array(n, Word)`: n words in a row. A successful parse yields words of
      valid types that took exactly their own sizes from the front of b. */
  function ParseWords(b: seq<byte>, n: nat): (r: Result<(seq<Word>, seq<byte>), FormatError>)
    ensures r.Ok? ==> |r.value.0| == n
    ensures r.Ok? ==> WordsSize(r.value.0) <= |b| && r.value.1 == b[WordsSize(r.value.0)..]
    ensures r.Ok? ==> forall i :: 0 <= i < n ==> ValidWordType(r.value.0[i].Type())
  {
    if n == 0 then Ok(([], b))
    else
      match ParseWord(b)
      case Err(e) => Err(e)
      case Ok((w, rest)) =>
        match ParseWords(rest, n - 1)
        case Err(e) => Err(e)
        case Ok((ws, rest')) =>
          assert ([w] + ws)[1..] == ws;
          assert WordsSize([w] + ws) == WordSize(w.Type()) + WordsSize(ws);
          assert rest' == b[WordsSize([w] + ws)..];
          Ok(([w] + ws, rest'))
  }

  // ---------------------------------------------------------------------------
  // Messages

  datatype Message = Message(msgType: MsgType, timestamp: u32, numWords: u16, words: seq<Word>)

  predicate ValidMessage(m: Message)
  {
    ValidMsgType(m.msgType) && forall i :: 0 <= i < |m.words| ==> ValidWordType(m.words[i].Type())
  }

  /** The 8-byte message header: tag, timestamp, one zero padding byte, word count. */
  function BuildHeader(m: Message): (h: seq<byte>)
    ensures |h| == 8
  {
    [MsgTag(m.msgType)] + EncodeBE(m.timestamp, 4) + [0] + EncodeBE(m.numWords, 2)
  }

  /** `Message.build` (format.py:80-86). */
  function BuildMessage(m: Message): (r: Result<seq<byte>, FormatError>)
    ensures r.Ok? <==> |m.words| == m.numWords
    ensures r.Ok? ==> |r.value| == 8 + WordsSize(m.words)
    ensures r.Ok? ==> r.value[0] == MsgTag(m.msgType) && r.value[5] == 0 &&
                      DecodeBE(r.value[1..5]) == m.timestamp &&
                      DecodeBE(r.value[6..8]) == m.numWords
    ensures r.Ok? ==> r.value[8..] == BuildWords(m.words)
  {
    if |m.words| != m.numWords then Err(CountMismatch)
    else
      var b := BuildHeader(m) + BuildWords(m.words);
      assert b[1..5] == EncodeBE(m.timestamp, 4) && b[6..8] == EncodeBE(m.numWords, 2);
      assert b[8..] == BuildWords(m.words);
      Pow256Widths();
      DecodeEncodeBE(m.timestamp, 4);
      DecodeEncodeBE(m.numWords, 2);
      Ok(b)
  }

  /** `Message.parse_stream` (format.py:80-86): the message at the front of b and
      the bytes after it. */
  function ParseMessage(b: seq<byte>): (r: Result<(Message, seq<byte>), FormatError>)
    ensures r.Ok? ==> 8 + WordsSize(r.value.0.words) <= |b| &&
                      r.value.1 == b[8 + WordsSize(r.value.0.words)..]
    ensures r.Ok? ==> ValidMessage(r.value.0)
    ensures r.Ok? ==> r.value.0.msgType == MsgTypeOf(b[0]) &&
                      r.value.0.timestamp == DecodeBE(b[1..5]) &&
                      r.value.0.numWords == DecodeBE(b[6..8]) == |r.value.0.words|
  {
    if |b| < 8 then Err(StreamEnded)
    else
      Pow256Widths();
      var n: u16 := DecodeBE(b[6..8]);
      var (ws, rest) :- ParseWords(b[8..], n);
      Ok((Message(MsgTypeOf(b[0]), DecodeBE(b[1..5]), n, ws), rest))
  }
}

/** Round trips, sizes and error cases of the format.py layout. */
module FormatLemmas {
  import opened Bytes
  import opened Results
  import opened Format

  // ---------------------------------------------------------------------------
  // build, then parse

  /** Reading back built content gives every named field. */
  lemma ContentAtBuild(w: Word, rest: seq<byte>)
    ensures ContentAt(w.Type(), BuildContent(w) + rest) == w
  {
    match w {
      case DataWord(ch, ts, packet) => DataAtBuild(ch, ts, packet, rest);
      case TrigWord(kind, ts) => TrigAtBuild(kind, ts, rest);
      case SyncWord(kind, clk, ts) => SyncAtBuild(kind, clk, ts, rest);
      case PingWord =>
      case WriteWord(w1, w2) => WriteAtBuild(w1, w2, rest);
      case ReadWord(r1, r2) => ReadAtBuild(r1, r2, rest);
      case ErrorWord(err) =>
      case UnlistedWord(code) =>
    }
  }

  lemma DataAtBuild(ch: byte, ts: u32, packet: Packet, rest: seq<byte>)
    ensures ContentAt(Data, BuildContent(DataWord(ch, ts, packet)) + rest) == DataWord(ch, ts, packet)
  {
    var c := BuildContent(DataWord(ch, ts, packet)) + rest;
    assert c[1..5] == EncodeBE(ts, 4) && c[7..15] == packet;
    DecodeEncodeBE(ts, 4);
  }

  lemma TrigAtBuild(kind: byte, ts: u32, rest: seq<byte>)
    ensures ContentAt(Trig, BuildContent(TrigWord(kind, ts)) + rest) == TrigWord(kind, ts)
  {
    var c := BuildContent(TrigWord(kind, ts)) + rest;
    assert c[3..7] == EncodeBE(ts, 4);
    DecodeEncodeBE(ts, 4);
  }

  lemma SyncAtBuild(kind: byte, clk: byte, ts: u32, rest: seq<byte>)
    ensures ContentAt(Sync, BuildContent(SyncWord(kind, clk, ts)) + rest) == SyncWord(kind, clk, ts)
  {
    var c := BuildContent(SyncWord(kind, clk, ts)) + rest;
    assert c[2..6] == EncodeBE(ts, 4);
    DecodeEncodeBE(ts, 4);
  }

  lemma WriteAtBuild(w1: u32, w2: u32, rest: seq<byte>)
    ensures ContentAt(Write, BuildContent(WriteWord(w1, w2)) + rest) == WriteWord(w1, w2)
  {
    var c := BuildContent(WriteWord(w1, w2)) + rest;
    assert c[3..7] == EncodeBE(w1, 4) && c[11..15] == EncodeBE(w2, 4);
    DecodeEncodeBE(w1, 4);
    DecodeEncodeBE(w2, 4);
  }

  lemma ReadAtBuild(r1: u32, r2: u32, rest: seq<byte>)
    ensures ContentAt(Read, BuildContent(ReadWord(r1, r2)) + rest) == ReadWord(r1, r2)
  {
    var c := BuildContent(ReadWord(r1, r2)) + rest;
    assert c[3..7] == EncodeBE(r1, 4) && c[11..15] == EncodeBE(r2, 4);
    DecodeEncodeBE(r1, 4);
    DecodeEncodeBE(r2, 4);
  }

  /** Parsing a built word gives back the word and leaves what followed it. */
  lemma ParseBuildWord(w: Word, rest: seq<byte>)
    requires ValidWordType(w.Type())
    ensures ParseWord(BuildWord(w) + rest) == Ok((w, rest))
  {
    var b := BuildWord(w) + rest;
    var t := w.Type();
    WordTagRoundTrip(t);
    assert WordTypeOf(b[0]) == t;
    assert b[1..] == BuildContent(w) + rest;
    ContentAtBuild(w, rest);
    assert b[1 + ContentSize(t)..] == rest;
  }

  lemma {:induction false} ParseBuildWords(ws: seq<Word>, rest: seq<byte>)
    requires forall i :: 0 <= i < |ws| ==> ValidWordType(ws[i].Type())
    ensures ParseWords(BuildWords(ws) + rest, |ws|) == Ok((ws, rest))
  {
    if ws != [] {
      var w, ws' := ws[0], ws[1..];
      var tail := BuildWords(ws') + rest;
      BuildWordsCons(ws, rest);
      ParseBuildWord(w, tail);
      ParseBuildWords(ws', rest);
      ParseWordsCons(BuildWord(w) + tail, |ws|, w, tail, ws', rest);
    }
  }

  lemma BuildWordsCons(ws: seq<Word>, rest: seq<byte>)
    requires ws != []
    ensures BuildWords(ws) + rest == BuildWord(ws[0]) + (BuildWords(ws[1..]) + rest)
    ensures [ws[0]] + ws[1..] == ws
  {
    var a, b := BuildWord(ws[0]), BuildWords(ws[1..]);
    assert BuildWords(ws) == a + b;
    ConcatAssoc(a, b, rest);
  }

  lemma ConcatAssoc(a: seq<byte>, b: seq<byte>, c: seq<byte>)
    ensures (a + b) + c == a + (b + c)
  {
  }

  /** One word, then n - 1 more. */
  lemma ParseWordsCons(b: seq<byte>, n: nat, w: Word, r: seq<byte>, ws: seq<Word>, rest: seq<byte>)
    requires n > 0 && ParseWord(b) == Ok((w, r)) && ParseWords(r, n - 1) == Ok((ws, rest))
    ensures ParseWords(b, n) == Ok(([w] + ws, rest))
  {
  }

  /** A header whose fields are those of m, followed by m's words, parses as m. */
  lemma ParseMessageOf(wire: seq<byte>, m: Message, rest: seq<byte>)
    requires |wire| >= 8 && MsgTypeOf(wire[0]) == m.msgType
    requires DecodeBE(wire[1..5]) == m.timestamp && DecodeBE(wire[6..8]) == m.numWords
    requires ParseWords(wire[8..], m.numWords) == Ok((m.words, rest))
    ensures ParseMessage(wire) == Ok((m, rest))
  {
  }

  /** The round trip of format.py:96-108: parsing the bytes built from a message
      returns its type, timestamp, word count and every named field of every
      word, and consumes exactly those bytes. */
  lemma MessageRoundTrip(m: Message, rest: seq<byte>)
    requires ValidMessage(m) && |m.words| == m.numWords
    ensures BuildMessage(m).Ok?
    ensures ParseMessage(BuildMessage(m).value + rest) == Ok((m, rest))
  {
    var wire := BuildMessage(m).value + rest;
    BuiltMessageFields(m, rest);
    ParseBuildWords(m.words, rest);
    ParseMessageOf(wire, m, rest);
  }

  /** The header fields and the word bytes of a built message, followed by rest. */
  lemma BuiltMessageFields(m: Message, rest: seq<byte>)
    requires ValidMsgType(m.msgType) && |m.words| == m.numWords
    ensures BuildMessage(m).Ok?
    ensures var wire := BuildMessage(m).value + rest;
      |wire| >= 8 && MsgTypeOf(wire[0]) == m.msgType &&
      DecodeBE(wire[1..5]) == m.timestamp && DecodeBE(wire[6..8]) == m.numWords &&
      wire[8..] == BuildWords(m.words) + rest
  {
    var b := BuildMessage(m).value;
    PrefixFields(b, rest);
    MsgTagRoundTrip(m.msgType);
    assert b == BuildHeader(m) + BuildWords(m.words);
    assert b[8..] == BuildWords(m.words);
  }

  /** Appending to a sequence of at least 8 bytes leaves its header slices alone. */
  lemma PrefixFields(b: seq<byte>, rest: seq<byte>)
    requires |b| >= 8
    ensures (b + rest)[0] == b[0] && (b + rest)[1..5] == b[1..5] && (b + rest)[6..8] == b[6..8]
    ensures (b + rest)[8..] == b[8..] + rest
  {
  }

  // ---------------------------------------------------------------------------
  // parse, then look at what was consumed

  /** ContentAt reads only the first ContentSize(t) bytes. */
  lemma ContentAtPrefix(t: WordType, c: seq<byte>, k: nat)
    requires ContentSize(t) <= k <= |c|
    ensures ContentAt(t, c[..k]) == ContentAt(t, c)
  {
    var c' := c[..k];
    match t {
      case Data => assert c'[1..5] == c[1..5] && c'[7..15] == c[7..15];
      case Trig => assert c'[3..7] == c[3..7];
      case Sync => assert c'[2..6] == c[2..6];
      case Write => assert c'[3..7] == c[3..7] && c'[11..15] == c[11..15];
      case Read => assert c'[3..7] == c[3..7] && c'[11..15] == c[11..15];
      case _ =>
    }
  }

  lemma ParseWordPrefix(b: seq<byte>, k: nat)
    requires ParseWord(b).Ok? && k <= |b|
    ensures var (w, rest) := ParseWord(b).value;
      if k < WordSize(w.Type()) then ParseWord(b[..k]).Err?
      else ParseWord(b[..k]) == Ok((w, rest[..k - WordSize(w.Type())]))
  {
    var t := WordTypeOf(b[0]);
    var s := WordSize(t);
    if k >= s {
      var p := b[..k];
      assert p[0] == b[0];
      assert p[1..] == b[1..][..k - 1];
      ContentAtPrefix(t, b[1..], k - 1);
      assert p[s..] == b[s..][..k - s];
    }
  }

  /** The number of bytes n words take from the front of b, read off their
      tag bytes alone; None when they do not fit. */
  function Span(b: seq<byte>, n: nat): Option<nat>
  {
    if n == 0 then Some(0)
    else if |b| == 0 || |b| < WordSize(WordTypeOf(b[0])) then None
    else
      var s := WordSize(WordTypeOf(b[0]));
      match Span(b[s..], n - 1)
      case None => None
      case Some(m) => Some(s + m)
  }

  /** n words parse exactly when their tag bytes say they fit, and then they
      take the bytes Span counts: parse fails only for lack of bytes. */
  predicate ParsedSpan(b: seq<byte>, n: nat)
  {
    Span(b, n) == if ParseWords(b, n).Ok? then Some(WordsSize(ParseWords(b, n).value.0)) else None
  }

  lemma {:induction false} ParseWordsSpan(b: seq<byte>, n: nat)
    ensures ParsedSpan(b, n)
    decreases n
  {
    if n > 0 && ParseWord(b).Ok? {
      ParseWordsSpan(ParseWord(b).value.1, n - 1);
      ParseWordsSpanStep(b, n);
    } else if n == 0 {
      assert ParseWords(b, n) == Ok(([], b));
    } else {
      assert ParseWords(b, n).Err? && Span(b, n).None?;
    }
  }

  lemma ParseWordsSpanStep(b: seq<byte>, n: nat)
    requires n > 0 && ParseWord(b).Ok? && ParsedSpan(ParseWord(b).value.1, n - 1)
    ensures ParsedSpan(b, n)
  {
    var s := WordSize(WordTypeOf(b[0]));
    var r := ParseWord(b).value.1;
    assert r == b[s..];
    if ParseWords(b, n).Ok? {
      ParseWordsStep(b, n);
      var m := WordsSize(ParseWords(b[s..], n - 1).value.0);
      assert WordsSize(ParseWords(b, n).value.0) == s + m;
      SpanCons(b, n, m);
    } else {
      assert ParseWords(r, n - 1).Err?;
      assert Span(r, n - 1).None?;
    }
  }

  lemma SpanCons(b: seq<byte>, n: nat, m: nat)
    requires n > 0 && |b| >= 1 && |b| >= WordSize(WordTypeOf(b[0]))
    requires Span(b[WordSize(WordTypeOf(b[0]))..], n - 1) == Some(m)
    ensures Span(b, n) == Some(WordSize(WordTypeOf(b[0])) + m)
  {
  }

  /** Span of a prefix: n words fit in the first k bytes exactly when they fit
      in b and take at most k bytes. */
  lemma {:induction false} SpanPrefix(b: seq<byte>, n: nat, k: nat)
    requires k <= |b|
    ensures Span(b[..k], n).Some? <==> Span(b, n).Some? && Span(b, n).value <= k
    ensures Span(b[..k], n).Some? ==> Span(b[..k], n) == Span(b, n)
    decreases n
  {
    if n > 0 && k > 0 && |b[..k]| >= WordSize(WordTypeOf(b[0])) {
      var s := WordSize(WordTypeOf(b[0]));
      assert b[..k][0] == b[0];
      assert b[..k][s..] == b[s..][..k - s];
      SpanPrefix(b[s..], n - 1, k - s);
    }
  }

  /** A word list cut short anywhere before its end fails to parse. */
  lemma ParseWordsTruncated(b: seq<byte>, n: nat, k: nat)
    requires ParseWords(b, n).Ok?
    requires k < WordsSize(ParseWords(b, n).value.0)
    ensures ParseWords(b[..k], n).Err?
  {
    ParseWordsSpan(b, n);
    SpanPrefix(b, n, k);
    ParseWordsSpan(b[..k], n);
    assert ParsedSpan(b[..k], n);
  }

  /** A message cut short anywhere before its last byte fails to parse
      (`StreamError`): parse needs every byte the `num_words` words take. */
  lemma ParseMessageTruncated(b: seq<byte>, k: nat)
    requires ParseMessage(b).Ok?
    requires k < 8 + WordsSize(ParseMessage(b).value.0.words)
    ensures ParseMessage(b[..k]).Err?
  {
    if k >= 8 {
      WordsTruncated(b, k);
    }
  }

  /** A header followed by fewer bytes than its words take fails to parse. */
  lemma WordsTruncated(b: seq<byte>, k: nat)
    requires |b| >= 8 && ParseWords(b[8..], DecodeBE(b[6..8])).Ok?
    requires 8 <= k < 8 + WordsSize(ParseWords(b[8..], DecodeBE(b[6..8])).value.0)
    ensures ParseMessage(b[..k]).Err?
  {
    ParseWordsTruncated(b[8..], DecodeBE(b[6..8]), k - 8);
    ParseMessageErr(b, k);
  }

  /** A header followed by words that fail to parse fails to parse. */
  lemma ParseMessageErr(b: seq<byte>, k: nat)
    requires 8 <= k <= |b|
    requires ParseWords(b[8..][..k - 8], DecodeBE(b[6..8])).Err?
    ensures ParseMessage(b[..k]).Err?
  {
    assert b[..k][6..8] == b[6..8];
    assert b[..k][8..] == b[8..][..k - 8];
  }

  // ---------------------------------------------------------------------------
  // parse, then build

  /** All padding bytes of the word at the front of b are zero. */
  predicate WordPaddingZero(t: WordType, b: seq<byte>)
  {
    forall i: nat :: i < WordSize(t) && IsPadding(t, i) ==> i < |b| && b[i] == 0
  }

  /** The n words at the front of b have zero padding. */
  predicate WordsPaddingZero(b: seq<byte>, n: nat)
  {
    n == 0 ||
    (|b| >= 1 && |b| >= WordSize(WordTypeOf(b[0])) &&
     WordPaddingZero(WordTypeOf(b[0]), b) &&
     WordsPaddingZero(b[WordSize(WordTypeOf(b[0]))..], n - 1))
  }

  /** Every padding byte of the message at the front of b is zero. */
  predicate MessagePaddingZero(b: seq<byte>)
  {
    |b| >= 8 && b[5] == 0 && WordsPaddingZero(b[8..], DecodeBE(b[6..8]))
  }

  /** built is content c with every padding byte of a t word set to zero. */
  predicate PaddingZeroed(t: WordType, c: seq<byte>, built: seq<byte>)
    requires |c| >= ContentSize(t)
  {
    |built| == ContentSize(t) &&
    forall i :: 0 <= i < ContentSize(t) ==> built[i] == if IsPadding(t, i + 1) then 0 else c[i]
  }

  /** Building parsed content reproduces every byte except padding, which becomes zero. */
  lemma BuildContentAt(t: WordType, c: seq<byte>)
    requires ValidWordType(t) && |c| >= ContentSize(t)
    ensures PaddingZeroed(t, c, BuildContent(ContentAt(t, c)))
  {
    match t {
      case Data => DataContentAt(c);
      case Trig => TrigContentAt(c);
      case Sync => SyncContentAt(c);
      case Ping => PingContentAt(c);
      case Write => WriteContentAt(c);
      case Read => ReadContentAt(c);
      case Error => ErrorContentAt(c);
      case Unlisted(_) =>
    }
  }

  lemma DataContentAt(c: seq<byte>)
    requires |c| >= 15
    ensures PaddingZeroed(Data, c, BuildContent(ContentAt(Data, c)))
  {
    EncodeDecodeBE(c[1..5]);
    assert BuildContent(ContentAt(Data, c)) == [c[0]] + c[1..5] + Zeros(2) + c[7..15];
  }

  lemma TrigContentAt(c: seq<byte>)
    requires |c| >= 7
    ensures PaddingZeroed(Trig, c, BuildContent(ContentAt(Trig, c)))
  {
    EncodeDecodeBE(c[3..7]);
    assert BuildContent(ContentAt(Trig, c)) == [c[0]] + Zeros(2) + c[3..7];
  }

  lemma SyncContentAt(c: seq<byte>)
    requires |c| >= 6
    ensures PaddingZeroed(Sync, c, BuildContent(ContentAt(Sync, c)))
  {
    EncodeDecodeBE(c[2..6]);
    assert BuildContent(ContentAt(Sync, c)) == [c[0], c[1]] + c[2..6];
  }

  lemma PingContentAt(c: seq<byte>)
    requires |c| >= 15
    ensures PaddingZeroed(Ping, c, BuildContent(ContentAt(Ping, c)))
  {
  }

  lemma ErrorContentAt(c: seq<byte>)
    requires |c| >= 15
    ensures PaddingZeroed(Error, c, BuildContent(ContentAt(Error, c)))
  {
  }

  lemma WriteContentAt(c: seq<byte>)
    requires |c| >= 15
    ensures PaddingZeroed(Write, c, BuildContent(ContentAt(Write, c)))
  {
    var built := BuildContent(ContentAt(Write, c));
    RegistersBuilt(c, built, DecodeBE(c[3..7]), DecodeBE(c[11..15]));
    RegistersLayout(c, built);
  }

  lemma ReadContentAt(c: seq<byte>)
    requires |c| >= 15
    ensures PaddingZeroed(Read, c, BuildContent(ContentAt(Read, c)))
  {
    var built := BuildContent(ContentAt(Read, c));
    RegistersBuilt(c, built, DecodeBE(c[3..7]), DecodeBE(c[11..15]));
    RegistersLayout(c, built);
  }

  /** The two registers of a Write or Read word re-encode to the bytes they were read from. */
  lemma RegistersBuilt(c: seq<byte>, built: seq<byte>, r1: nat, r2: nat)
    requires |c| >= 15 && r1 == DecodeBE(c[3..7]) && r2 == DecodeBE(c[11..15])
    requires built == Zeros(3) + EncodeBE(r1, 4) + Zeros(4) + EncodeBE(r2, 4)
    ensures built == Zeros(3) + c[3..7] + Zeros(4) + c[11..15]
  {
    EncodeDecodeBE(c[3..7]);
    EncodeDecodeBE(c[11..15]);
  }

  /** Byte i of that layout is zero in the padding and c[i] elsewhere. */
  lemma RegistersLayout(c: seq<byte>, built: seq<byte>)
    requires |c| >= 15 && built == Zeros(3) + c[3..7] + Zeros(4) + c[11..15]
    ensures |built| == 15
    ensures forall i :: 0 <= i < 15 ==> built[i] == if i < 3 || 7 <= i < 11 then 0 else c[i]
  {
  }

  lemma ParseThenBuildWord(b: seq<byte>)
    requires ParseWord(b).Ok?
    ensures var w := ParseWord(b).value.0;
      BuildWord(w) == b[..WordSize(w.Type())] <==> WordPaddingZero(w.Type(), b)
  {
    var w := ParseWord(b).value.0;
    var t := w.Type();
    var s := WordSize(t);
    var built := BuildWord(w);
    BuildContentAt(t, b[1..]);
    assert forall i :: 0 < i < s ==> built[i] == if IsPadding(t, i) then 0 else b[i] by {
      forall i | 0 < i < s ensures built[i] == if IsPadding(t, i) then 0 else b[i] {
        assert built[i] == BuildContent(w)[i - 1];
      }
    }
    assert !IsPadding(t, 0);
    assert forall i: nat :: IsPadding(t, i) ==> 0 < i < s;
    if WordPaddingZero(t, b) {
      assert forall i :: 0 <= i < s ==> built[i] == b[..s][i];
    }
  }

  lemma ConcatEquals(x: seq<byte>, y: seq<byte>, u: seq<byte>, v: seq<byte>)
    requires |x| == |u|
    ensures x + y == u + v <==> x == u && y == v
  {
    if x + y == u + v {
      assert (x + y)[..|x|] == x && (u + v)[..|x|] == u;
      assert (x + y)[|x|..] == y && (u + v)[|x|..] == v;
    }
  }

  lemma SliceSplit(b: seq<byte>, s: nat, total: nat)
    requires s <= total <= |b|
    ensures b[..total] == b[..s] + b[s..][..total - s]
  {
    assert forall i :: 0 <= i < total ==> b[..total][i] == (b[..s] + b[s..][..total - s])[i];
  }

  /** x + y is the first |x| + |y| bytes of b exactly when x is b's prefix and y
      the prefix of what follows it. */
  lemma PrefixConcat(x: seq<byte>, y: seq<byte>, b: seq<byte>)
    requires |x| + |y| <= |b|
    ensures x + y == b[..|x| + |y|] <==> x == b[..|x|] && y == b[|x|..][..|y|]
  {
    SliceSplit(b, |x|, |x| + |y|);
    ConcatEquals(x, y, b[..|x|], b[|x|..][..|y|]);
  }

  /** A successful parse of n > 0 words is the first word, then n - 1 words
      parsed from what follows it. */
  lemma ParseWordsStep(b: seq<byte>, n: nat)
    requires n > 0 && ParseWords(b, n).Ok?
    ensures ParseWord(b).Ok?
    ensures var (w, r) := ParseWord(b).value;
      var ws := ParseWords(b, n).value.0;
      r == b[WordSize(WordTypeOf(b[0]))..] && w.Type() == WordTypeOf(b[0]) &&
      ParseWords(r, n - 1).Ok? && ws != [] && ws[0] == w && ws[1..] == ParseWords(r, n - 1).value.0
  {
    var ws := ParseWords(b, n).value.0;
    assert ws[1..] == ParseWords(ParseWord(b).value.1, n - 1).value.0;
  }

  /** A word list is rebuilt as the front of b exactly when its first word is
      rebuilt as b's first bytes and the others as the bytes after them. */
  lemma BuildWordsPrefix(ws: seq<Word>, b: seq<byte>)
    requires ws != [] && WordsSize(ws) <= |b|
    ensures var s := WordSize(ws[0].Type());
      BuildWords(ws) == b[..WordsSize(ws)] <==>
      BuildWord(ws[0]) == b[..s] && BuildWords(ws[1..]) == b[s..][..WordsSize(ws[1..])]
  {
    PrefixConcat(BuildWord(ws[0]), BuildWords(ws[1..]), b);
  }

  /** The claim of ParseThenBuildWords for the n words at the front of b. */
  predicate RebuiltIffPadding(b: seq<byte>, n: nat)
  {
    ParseWords(b, n).Ok? &&
    var ws := ParseWords(b, n).value.0;
    (BuildWords(ws) == b[..WordsSize(ws)] <==> WordsPaddingZero(b, n))
  }

  /** The claim for the words after the first word of b. */
  predicate TailRebuiltIffPadding(b: seq<byte>, n: nat)
    requires n > 0
  {
    ParseWord(b).Ok? && RebuiltIffPadding(ParseWord(b).value.1, n - 1)
  }

  /** The inductive step of ParseThenBuildWords: the claim for the words after
      the first gives it for all n. */
  lemma ParseThenBuildWordsStep(b: seq<byte>, n: nat)
    requires n > 0 && TailRebuiltIffPadding(b, n)
    ensures RebuiltIffPadding(b, n)
  {
    ParseWordsStep(b, n);
    ParseThenBuildWord(b);
    BuildWordsPrefix(ParseWords(b, n).value.0, b);
  }

  lemma {:induction false} ParseThenBuildWords(b: seq<byte>, n: nat)
    requires ParseWords(b, n).Ok?
    ensures RebuiltIffPadding(b, n)
    decreases n
  {
    if n > 0 {
      ParseWordsStep(b, n);
      var r := ParseWord(b).value.1;
      ParseThenBuildWords(r, n - 1);
      assert TailRebuiltIffPadding(b, n);
      ParseThenBuildWordsStep(b, n);
    } else {
      NoWordsRebuilt(b);
    }
  }

  lemma NoWordsRebuilt(b: seq<byte>)
    ensures RebuiltIffPadding(b, 0)
  {
    assert ParseWords(b, 0) == Ok(([], b));
  }

  /** A parsed header is rebuilt byte for byte exactly when its padding byte is zero. */
  lemma HeaderThenBuild(b: seq<byte>, m: Message)
    requires |b| >= 8 && m.msgType == MsgTypeOf(b[0])
    requires m.timestamp == DecodeBE(b[1..5]) && m.numWords == DecodeBE(b[6..8])
    ensures BuildHeader(m) == b[..8] <==> b[5] == 0
  {
    EncodeDecodeBE(b[1..5]);
    EncodeDecodeBE(b[6..8]);
    var head := BuildHeader(m);
    assert b[..8] == [b[0]] + b[1..5] + [b[5]] + b[6..8];
    assert head == [b[0]] + b[1..5] + [0] + b[6..8];
    if head == b[..8] {
      assert head[5] == b[..8][5];
    }
  }

  /** `build(parse(b))` reproduces the consumed bytes exactly when all their
      padding bytes are zero: parse ignores padding, build writes zeros. */
  lemma ParseThenBuild(b: seq<byte>)
    requires ParseMessage(b).Ok?
    ensures var (m, rest) := ParseMessage(b).value;
      BuildMessage(m) == Ok(b[..|b| - |rest|]) <==> MessagePaddingZero(b)
  {
    var (m, rest) := ParseMessage(b).value;
    ParseThenBuildWords(b[8..], m.numWords);
    ParsedThenBuilt(b, m, rest);
  }

  /** ParseThenBuild with the facts it needs about the parse given as requires. */
  lemma ParsedThenBuilt(b: seq<byte>, m: Message, rest: seq<byte>)
    requires |b| >= 8 && m.msgType == MsgTypeOf(b[0])
    requires m.timestamp == DecodeBE(b[1..5]) && m.numWords == DecodeBE(b[6..8]) == |m.words|
    requires |b| - |rest| == 8 + WordsSize(m.words)
    requires BuildWords(m.words) == b[8..][..WordsSize(m.words)] <==> WordsPaddingZero(b[8..], m.numWords)
    ensures BuildMessage(m) == Ok(b[..|b| - |rest|]) <==> MessagePaddingZero(b)
  {
    var body := b[8..];
    var size := WordsSize(m.words);
    HeaderThenBuild(b, m);
    SliceSplit(b, 8, 8 + size);
    ConcatEquals(BuildHeader(m), BuildWords(m.words), b[..8], body[..size]);
    BothHalves(BuildMessage(m), BuildHeader(m), BuildWords(m.words), b[..8], body[..size],
      b[5] == 0, WordsPaddingZero(body, m.numWords));
  }

  /** A result built as h + w equals x + y exactly when both halves match. */
  lemma BothHalves(r: Result<seq<byte>, FormatError>, h: seq<byte>, w: seq<byte>,
                   x: seq<byte>, y: seq<byte>, p: bool, q: bool)
    requires r == Ok(h + w)
    requires h + w == x + y <==> h == x && w == y
    requires h == x <==> p
    requires w == y <==> q
    ensures r == Ok(x + y) <==> p && q
  {
  }

  // ---------------------------------------------------------------------------
  // The examples of format.py:88-108

  /** Two back-to-back 8-byte headers: the first parse consumes exactly 8 bytes. */
  lemma ParseExampleStream()
    ensures var first: seq<byte> := [0x44, 0x00, 0x00, 0x04, 0xd2, 0x00, 0x00, 0x00];
      var second: seq<byte> := [0x44, 0x00, 0x00, 0x04, 0xf2, 0x00, 0x00, 0x00];
      ParseMessage(first + second) == Ok((Message(DataMsg, 1234, 0, []), second)) &&
      ParseMessage(second) == Ok((Message(DataMsg, 1266, 0, []), []))
  {
    var first: seq<byte> := [0x44, 0x00, 0x00, 0x04, 0xd2, 0x00, 0x00, 0x00];
    var second: seq<byte> := [0x44, 0x00, 0x00, 0x04, 0xf2, 0x00, 0x00, 0x00];
    var both := first + second;
    assert both[8..] == second && second[8..] == [];
    assert both[1..5] == [0x00, 0x00, 0x04, 0xd2] && second[1..5] == [0x00, 0x00, 0x04, 0xf2];
    assert both[6..8] == [0x00, 0x00] && second[6..8] == [0x00, 0x00];
    assert DecodeBE([0x00, 0x00]) == 0 by {
      assert DecodeBE([0x00]) == 256 * DecodeBE([]) + 0;
    }
    assert DecodeBE([0x00, 0x00, 0x04]) == 4 by {
      assert [0x00, 0x00, 0x04][..2] == [0x00, 0x00];
    }
    assert DecodeBE([0x00, 0x00, 0x04, 0xd2]) == 1234 by {
      assert [0x00, 0x00, 0x04, 0xd2][..3] == [0x00, 0x00, 0x04];
    }
    assert DecodeBE([0x00, 0x00, 0x04, 0xf2]) == 1266 by {
      assert [0x00, 0x00, 0x04, 0xf2][..3] == [0x00, 0x00, 0x04];
    }
    assert MsgTypeOf(0x44) == DataMsg;
    assert ParseWords(second, 0) == Ok(([], second));
    assert ParseWords([], 0) == Ok(([], []));
  }

  /** The one-word message of format.py:101-108, field by field: the header
      with count 1; then the word's tag, io_channel 3, timestamp 4321, two
      zero bytes, and packet 666666 as eight big-endian bytes at offsets 16..23. */
  lemma BuildExampleDataWord()
    ensures var w := DataWord(3, 4321, EncodeBE(666666, 8));
      var r := BuildMessage(Message(DataMsg, 1234, 1, [w]));
      r.Ok? && |r.value| == 24 &&
      r.value[..8] == [0x44, 0x00, 0x00, 0x04, 0xd2, 0x00, 0x00, 0x01] &&
      r.value[8..10] == [0x44, 0x03] &&
      r.value[10..14] == [0x00, 0x00, 0x10, 0xe1] &&
      r.value[14..16] == [0x00, 0x00] &&
      r.value[16..] == [0x00, 0x00, 0x00, 0x00, 0x00, 0x0a, 0x2c, 0x2a]
  {
    var w := DataWord(3, 4321, EncodeBE(666666, 8));
    var m := Message(DataMsg, 1234, 1, [w]);
    assert BuildWords([w]) == BuildWord(w) by {
      assert [w][1..] == [];
      assert BuildWords([w]) == BuildWord(w) + BuildWords([]);
    }
    ExampleHeaderBytes();
    ExampleWordFields(BuildWord(w));
    var b := BuildMessage(m).value;
    assert b == BuildHeader(m) + BuildWord(w);
    ExampleSlices(b, BuildHeader(m), BuildWord(w));
  }

  lemma ExampleSlices(b: seq<byte>, h: seq<byte>, d: seq<byte>)
    requires b == h + d && |h| == 8 && |d| == 16
    ensures b[..8] == h && b[8..10] == d[..2] && b[10..14] == d[2..6] &&
            b[14..16] == d[6..8] && b[16..] == d[8..]
  {
  }

  lemma ExampleHeaderBytes()
    ensures BuildHeader(Message(DataMsg, 1234, 1, [DataWord(3, 4321, EncodeBE(666666, 8))])) ==
            [0x44, 0x00, 0x00, 0x04, 0xd2, 0x00, 0x00, 0x01]
  {
    EncodeExampleTimestamp();
    assert EncodeBE(1, 2) == [0x00, 0x01] by {
      assert EncodeBE(0, 1) == [0x00];
    }
  }

  lemma ExampleWordFields(d: seq<byte>)
    requires d == BuildWord(DataWord(3, 4321, EncodeBE(666666, 8)))
    ensures d[..2] == [0x44, 0x03] && d[2..6] == [0x00, 0x00, 0x10, 0xe1] &&
            d[6..8] == [0x00, 0x00] && d[8..] == [0x00, 0x00, 0x00, 0x00, 0x00, 0x0a, 0x2c, 0x2a]
  {
    EncodeExampleWordTimestamp();
    EncodeExamplePacket();
    assert d == [0x44, 0x03] + EncodeBE(4321, 4) + Zeros(2) + EncodeBE(666666, 8);
  }

  lemma EncodeExampleWordTimestamp()
    ensures EncodeBE(4321, 4) == [0x00, 0x00, 0x10, 0xe1]
  {
    assert EncodeBE(0, 2) == [0x00, 0x00];
    assert EncodeBE(16, 3) == [0x00, 0x00, 0x10];
  }

  lemma EncodeExamplePacket()
    ensures EncodeBE(666666, 8) == [0x00, 0x00, 0x00, 0x00, 0x00, 0x0a, 0x2c, 0x2a]
  {
    assert EncodeBE(0, 2) == [0x00, 0x00];
    assert EncodeBE(0, 4) == [0x00, 0x00, 0x00, 0x00];
    assert EncodeBE(0, 5) == [0x00, 0x00, 0x00, 0x00, 0x00];
    assert EncodeBE(10, 6) == [0x00, 0x00, 0x00, 0x00, 0x00, 0x0a];
    assert EncodeBE(2604, 7) == [0x00, 0x00, 0x00, 0x00, 0x00, 0x0a, 0x2c];
  }

  /** The message of format.py:97-100: with no words it is the 8-byte header alone. */
  lemma BuildExampleEmpty()
    ensures BuildMessage(Message(DataMsg, 1234, 0, [])) == Ok([0x44, 0x00, 0x00, 0x04, 0xd2, 0x00, 0x00, 0x00])
  {
    var e := Message(DataMsg, 1234, 0, []);
    EncodeExampleTimestamp();
    assert EncodeBE(0, 2) == [0x00, 0x00];
    assert BuildHeader(e) == [0x44, 0x00, 0x00, 0x04, 0xd2, 0x00, 0x00, 0x00];
    assert BuildWords([]) == [];
    assert BuildHeader(e) + [] == BuildHeader(e);
  }

  lemma EncodeExampleTimestamp()
    ensures EncodeBE(1234, 4) == [0x00, 0x00, 0x04, 0xd2]
  {
    assert EncodeBE(0, 2) == [0x00, 0x00];
    assert EncodeBE(4, 3) == [0x00, 0x00, 0x04];
  }
}
