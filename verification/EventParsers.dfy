/** The data-bus message parsers of src/transport/msg_providers/onchain_transport.py and the dispatch
    that tries them in order without looking at the event id. */
module EventParsers {
  import opened AbiCodec
  import opened Bytes
  import opened Messages
  import opened Utf8
  import opened Wrappers

  /** What a guardian encodes, by event. */
  datatype BusData =
    | DepositV1(blockNumber: int, blockHash: Word32, depositRoot: Word32, moduleId: int, nonce: int,
                r: Word32, vs: Word32, version: Word32)
    | UnvetV1(blockNumber: int, blockHash: Word32, moduleId: int, nonce: int, operatorIds: seq<byte>,
              vettedKeys: seq<byte>, r: Word32, vs: Word32, version: Word32)
    | PingV1(blockNumber: int, version: Word32)
    | PauseV2(blockNumber: int, blockHash: Word32, r: Word32, vs: Word32, moduleId: int, version: Word32)
    | PauseV3(blockNumber: int, blockHash: Word32, r: Word32, vs: Word32, version: Word32)

  /** The numbers fit a word; so do the lengths and offsets of the two byte strings. */
  predicate WellTyped(d: BusData) {
    && IsUint256(d.blockNumber)
    && (d.DepositV1? || d.UnvetV1? || d.PauseV2? ==> IsUint256(d.moduleId))
    && (d.DepositV1? || d.UnvetV1? ==> IsUint256(d.nonce))
    && (d.UnvetV1? ==> |d.operatorIds| + |d.vettedKeys| + 1000 < WORD_LIMIT)
  }

  // ------------------------------------------------------------------
  // Encoding
  // ------------------------------------------------------------------

  const UNVET_HEAD: nat := 288

  /** Where the second byte string of the dynamic tuple starts, after one of n bytes. */
  function SecondOffset(n: nat): (offset: nat)
    ensures offset < n + 400
  {
    UNVET_HEAD + 32 + Ceil32(n)
  }

  /** The words of a static tuple, or the head of the dynamic one. */
  function HeadWords(d: BusData): seq<Word32>
    requires WellTyped(d)
  {
    match d
    case DepositV1(n, h, root, m, k, r, vs, v) => [Word(n), h, root, Word(m), Word(k), r, vs, v]
    case UnvetV1(n, h, m, k, ids, keys, r, vs, v) =>
      [Word(n), h, Word(m), Word(k), Word(UNVET_HEAD), Word(SecondOffset(|ids|)), r, vs, v]
    case PingV1(n, v) => [Word(n), v]
    case PauseV2(n, h, r, vs, m, v) => [Word(n), h, r, vs, Word(m), v]
    case PauseV3(n, h, r, vs, v) => [Word(n), h, r, vs, v]
  }

  /** `codec.encode([schema], [tuple])`: only the dynamic tuple is preceded by its offset. */
  function EncodeData(d: BusData): seq<byte>
    requires WellTyped(d)
  {
    if d.UnvetV1? then Word(32) + Flat(HeadWords(d)) + EncodeBytes(d.operatorIds) + EncodeBytes(d.vettedKeys)
    else Flat(HeadWords(d))
  }

  // ------------------------------------------------------------------
  // Messages
  // ------------------------------------------------------------------

  /** `build_message` and its inline forms; None when the version is not UTF-8. */
  function MessageOf(d: BusData, guardian: string): Option<Message> {
    match DecodeVersion(d.version)
    case None => None
    case Some(version) =>
      Some(match d
           case DepositV1(n, h, root, m, k, r, vs, _) =>
             Deposit(BytesToHexString(root), k, n, BytesToHexString(h), guardian, m,
                     Signature(BytesToHexString(r), BytesToHexString(vs)), Version(version))
           case UnvetV1(n, h, m, k, ids, keys, r, vs, _) =>
             Unvet(Some(k), n, BytesToHexString(h), guardian, m, Signature(BytesToHexString(r), BytesToHexString(vs)),
                   BytesToHexString(ids), BytesToHexString(keys), Version(version))
           case PingV1(n, _) => Ping(n, guardian, Version(version))
           case PauseV2(n, _, r, vs, m, _) =>
             Pause(n, guardian, Some(m), Signature(BytesToHexString(r), BytesToHexString(vs)), Version(version))
           case PauseV3(n, _, r, vs, _) =>
             Pause(n, guardian, None, Signature(BytesToHexString(r), BytesToHexString(vs)), Version(version)))
  }

  /** The bytes that the guardian signed. */
  function SignedData(d: BusData, prefix: seq<byte>): seq<byte>
    requires WellTyped(d) && !d.PingV1?
  {
    match d
    case DepositV1(n, h, root, m, k, _, _, _) => AttestData(prefix, n, h, root, m, k)
    case UnvetV1(n, h, m, k, ids, keys, _, _, _) => UnvetData(prefix, n, h, m, k, ids, keys)
    case PauseV2(n, _, _, _, m, _) => PauseData(prefix, n, Some(m))
    case PauseV3(n, _, _, _, _) => PauseData(prefix, n, None)
  }

  lemma DepositSigned(d: BusData, guardian: string, prefix: seq<byte>)
    requires WellTyped(d) && d.DepositV1? && MessageOf(d, guardian).Some?
    ensures SignedBytes(prefix, MessageOf(d, guardian).value) == Ok(Some(SignedData(d, prefix)))
  {
    HashReads(d.blockHash);
    HashReads(d.depositRoot);
  }

  lemma UnvetSigned(d: BusData, guardian: string, prefix: seq<byte>)
    requires WellTyped(d) && d.UnvetV1? && MessageOf(d, guardian).Some?
    ensures SignedBytes(prefix, MessageOf(d, guardian).value) == Ok(Some(SignedData(d, prefix)))
  {
    HashReads(d.blockHash);
    HexStringRoundTrip(d.operatorIds);
    HexStringRoundTrip(d.vettedKeys);
  }

  /** A parsed message is verified over exactly the fields that were encoded. */
  lemma SignedFieldsSurvive(d: BusData, guardian: string, prefix: seq<byte>)
    requires WellTyped(d) && !d.PingV1? && MessageOf(d, guardian).Some?
    ensures var m := MessageOf(d, guardian).value;
            && m.guardianAddress == guardian && m.blockNumber == d.blockNumber
            && FromHexStringToBytes(m.signature.r) == Some(d.r) && FromHexStringToBytes(m.signature.vs) == Some(d.vs)
            && SignedBytes(prefix, m) == Ok(Some(SignedData(d, prefix)))
  {
    HexStringRoundTrip(d.r);
    HexStringRoundTrip(d.vs);
    if d.DepositV1? {
      DepositSigned(d, guardian, prefix);
    } else if d.UnvetV1? {
      UnvetSigned(d, guardian, prefix);
    }
  }

  /** What comes over the data bus is never unreadable and never makes a construction filter throw. */
  lemma BusMessageReadable(d: BusData, guardian: string)
    requires MessageOf(d, guardian).Some? && IsAddressText(guardian)
    ensures var m := MessageOf(d, guardian).value;
            FitsSchema(m) && !Unreadable(m) && !Malformed(m)
  {
    if !d.PingV1? {
      PrintedMatches(d.r);
      PrintedMatches(d.vs);
    }
    if d.DepositV1? {
      PrintedMatches(d.depositRoot);
      PrintedMatches(d.blockHash);
    } else if d.UnvetV1? {
      PrintedMatches(d.blockHash);
      PrintedMatches(d.operatorIds);
      PrintedMatches(d.vettedKeys);
    }
    assert ',' !in MessageOf(d, guardian).value.guardianAddress;
  }

  /** A version text of at most 32 bytes, zero-padded to a word, comes back in the message exactly when
      it does not itself end in NUL. */
  lemma VersionSurvivesIff(d: BusData, guardian: string, s: string)
    requires |Encode(s)| <= 32 && d.version == Encode(s) + Zeros(32 - |Encode(s)|)
    ensures MessageOf(d, guardian).Some? && MessageOf(d, guardian).value.app == Version(s)
            <==> (s == "" || s[|s| - 1] != '\0')
  {
    PaddedVersionIff(s, 32 - |Encode(s)|);
  }

  // ------------------------------------------------------------------
  // Parsing
  // ------------------------------------------------------------------

  datatype Parser = DepositParser | UnvetParser | PingParser | PauseV2Parser | PauseV3Parser

  /** k words from a position on, read one after another. */
  function ReadWords(b: seq<byte>, pos: nat, k: nat): (r: Option<seq<Word32>>)
    ensures r.Some? ==> |r.value| == k && forall i :: 0 <= i < k ==> ReadAt(b, pos + 32 * i) == Some(r.value[i])
    ensures r.Some? <==> pos + 32 * k <= |b|
  {
    if pos + 32 * k <= |b| then Some(seq(k, i requires 0 <= i < k => b[pos + 32 * i..pos + 32 * i + 32])) else None
  }

  /** The values of the static parsers. */
  function StaticData(p: Parser, w: seq<Word32>): Option<BusData> {
    match p
    case DepositParser =>
      if |w| != 8 then None
      else Some(DepositV1(FromBytes(w[0]), w[1], w[2], FromBytes(w[3]), FromBytes(w[4]), w[5], w[6], w[7]))
    case PingParser => if |w| != 2 then None else Some(PingV1(FromBytes(w[0]), w[1]))
    case PauseV2Parser =>
      if |w| != 6 then None else Some(PauseV2(FromBytes(w[0]), w[1], w[2], w[3], FromBytes(w[4]), w[5]))
    case PauseV3Parser => if |w| != 5 then None else Some(PauseV3(FromBytes(w[0]), w[1], w[2], w[3], w[4]))
    case UnvetParser => None
  }

  function WordCount(p: Parser): nat {
    match p
    case DepositParser => 8
    case UnvetParser => 9
    case PingParser => 2
    case PauseV2Parser => 6
    case PauseV3Parser => 5
  }

  /** The byte strings of a tuple that starts at `base`, by their offset in it. */
  function BytesFrom(b: seq<byte>, base: nat): nat -> Option<seq<byte>> {
    (offset: nat) => ReadBytes(b, base + offset)
  }

  /** The values of the dynamic tuple, whose words 4 and 5 are offsets. */
  function UnvetFrom(w: seq<Word32>, read: nat -> Option<seq<byte>>): Option<BusData>
    requires |w| == 9
  {
    match (read(FromBytes(w[4])), read(FromBytes(w[5])))
    case (Some(ids), Some(keys)) =>
      Some(UnvetV1(FromBytes(w[0]), w[1], FromBytes(w[2]), FromBytes(w[3]), ids, keys, w[6], w[7], w[8]))
    case _ => None
  }

  function UnvetDataAt(b: seq<byte>, base: nat): Option<BusData> {
    match ReadWords(b, base, 9)
    case None => None
    case Some(w) => UnvetFrom(w, BytesFrom(b, base))
  }

  /** `codec.decode([schema], data)[0]`; trailing bytes are ignored, too few are an error. */
  function DecodeData(p: Parser, b: seq<byte>): Option<BusData> {
    if p.UnvetParser? then
      match ReadAt(b, 0)
      case None => None
      case Some(offset) => UnvetDataAt(b, FromBytes(offset))
    else
      match ReadWords(b, 0, WordCount(p))
      case None => None
      case Some(w) => StaticData(p, w)
  }

  /** `parser.parse` on the event's data and sender; None is any exception. */
  function Parse(p: Parser, guardian: string, b: seq<byte>): Option<Message> {
    match DecodeData(p, b)
    case None => None
    case Some(d) => MessageOf(d, guardian)
  }

  /** The parsers on one event, by parser. */
  function ParserOn(guardian: string, b: seq<byte>): Parser -> Option<Message> {
    (p: Parser) => Parse(p, guardian, b)
  }

  /** The first parser of the list that does not raise, or the length of the list. */
  function FirstParser(ps: seq<Parser>, parse: Parser -> Option<Message>): (k: nat)
    ensures k <= |ps|
    ensures k < |ps| ==> parse(ps[k]).Some?
    ensures forall j :: 0 <= j < k ==> parse(ps[j]).None?
  {
    if ps == [] || parse(ps[0]).Some? then 0 else 1 + FirstParser(ps[1..], parse)
  }

  /** The loop of `_parse_log`: every parser is tried in turn, its exceptions swallowed. */
  method TryParsers(ps: seq<Parser>, parse: Parser -> Option<Message>) returns (r: Option<Message>)
    ensures var k := FirstParser(ps, parse);
            r == if k < |ps| then parse(ps[k]) else None
  {
    for i := 0 to |ps|
      invariant forall j :: 0 <= j < i ==> parse(ps[j]).None?
    {
      var parsed := parse(ps[i]);
      if parsed.Some? {
        return parsed;
      }
    }
    r := None;
  }

  /** The result of the first parser, in order, that does not raise on the data of an event; or nothing. */
  function Dispatched(ps: seq<Parser>, guardian: string, b: seq<byte>): Option<Message> {
    var k := FirstParser(ps, ParserOn(guardian, b));
    if k < |ps| then Parse(ps[k], guardian, b) else None
  }

  /** `_parse_log` on the data and the sender of an event. */
  method ParseLog(ps: seq<Parser>, guardian: string, b: seq<byte>) returns (r: Option<Message>)
    ensures r == Dispatched(ps, guardian, b)
  {
    r := TryParsers(ps, ParserOn(guardian, b));
  }

  // ------------------------------------------------------------------
  // Decoding undoes encoding
  // ------------------------------------------------------------------

  function OwnParser(d: BusData): Parser {
    match d
    case DepositV1(_, _, _, _, _, _, _, _) => DepositParser
    case UnvetV1(_, _, _, _, _, _, _, _, _) => UnvetParser
    case PingV1(_, _) => PingParser
    case PauseV2(_, _, _, _, _, _) => PauseV2Parser
    case PauseV3(_, _, _, _, _) => PauseV3Parser
  }

  lemma ReadWordsFlat(pre: seq<byte>, ws: seq<Word32>, post: seq<byte>)
    ensures ReadWords(pre + Flat(ws) + post, |pre|, |ws|) == Some(ws)
  {
    var b := pre + Flat(ws) + post;
    FlatLength(ws);
    assert |b| == |pre| + 32 * |ws| + |post|;
    var r := ReadWords(b, |pre|, |ws|);
    assert r.Some? && |r.value| == |ws|;
    forall i | 0 <= i < |ws|
      ensures r.value[i] == ws[i]
    {
      ReadFlat(pre, ws, post, i);
    }
    assert r.value == ws;
  }

  lemma DecodeStatic(d: BusData)
    requires WellTyped(d) && !d.UnvetV1?
    ensures DecodeData(OwnParser(d), EncodeData(d)) == Some(d)
  {
    var ws := HeadWords(d);
    ReadWordsFlat([], ws, []);
    assert [] + Flat(ws) + [] == Flat(ws);
    WordValueOf(d.blockNumber);
    if d.DepositV1? || d.PauseV2? {
      WordValueOf(d.moduleId);
    }
    if d.DepositV1? {
      WordValueOf(d.nonce);
    }
  }

  lemma Layout(off: seq<byte>, head: seq<byte>, first: seq<byte>, second: seq<byte>)
    ensures off + head + first + second == [] + off + (head + first + second)
    ensures off + head + first + second == off + head + (first + second)
    ensures off + head + first + second == (off + head + first) + second + []
  {
  }

  /** The encoding of an unvet message, part by part. */
  ghost predicate IsUnvetEncoding(b: seq<byte>, d: BusData)
    requires WellTyped(d) && d.UnvetV1?
  {
    b == Word(32) + Flat(HeadWords(d)) + EncodeBytes(d.operatorIds) + EncodeBytes(d.vettedKeys)
  }

  /** Where the parts of an encoded unvet message are found. */
  lemma UnvetParts(b: seq<byte>, d: BusData)
    requires WellTyped(d) && d.UnvetV1? && IsUnvetEncoding(b, d)
    ensures ReadAt(b, 0) == Some(Word(32))
    ensures ReadWords(b, 32, 9) == Some(HeadWords(d))
    ensures ReadBytes(b, 32 + UNVET_HEAD) == Some(d.operatorIds)
    ensures ReadBytes(b, 32 + SecondOffset(|d.operatorIds|)) == Some(d.vettedKeys)
  {
    var off, ws: seq<Word32> := Word(32), HeadWords(d);
    var head, first, second := Flat(ws), EncodeBytes(d.operatorIds), EncodeBytes(d.vettedKeys);
    FlatLength(ws);
    Layout(off, head, first, second);
    SliceMiddle([], off, head + first + second, b);
    ReadWordsFlat(off, ws, first + second);
    ReadEncodedBytes(off + head, d.operatorIds, second);
    ReadEncodedBytes(off + head + first, d.vettedKeys, []);
  }

  /** The offsets of an encoded message lead to its two byte strings. */
  lemma UnvetFromWords(d: BusData, read: nat -> Option<seq<byte>>)
    requires WellTyped(d) && d.UnvetV1?
    requires read(UNVET_HEAD) == Some(d.operatorIds) && read(SecondOffset(|d.operatorIds|)) == Some(d.vettedKeys)
    ensures UnvetFrom(HeadWords(d), read) == Some(d)
  {
    WordValueOf(UNVET_HEAD);
    WordValueOf(SecondOffset(|d.operatorIds|));
    WordValueOf(d.blockNumber);
    WordValueOf(d.moduleId);
    WordValueOf(d.nonce);
  }

  lemma TupleStart(b: seq<byte>, offset: nat)
    requires IsUint256(offset) && ReadAt(b, 0) == Some(Word(offset))
    ensures DecodeData(UnvetParser, b) == UnvetDataAt(b, offset)
  {
    WordValueOf(offset);
  }

  lemma UnvetFromEncoded(b: seq<byte>, base: nat, d: BusData)
    requires WellTyped(d) && d.UnvetV1? && IsUint256(base)
    requires ReadAt(b, 0) == Some(Word(base)) && ReadWords(b, base, 9) == Some(HeadWords(d))
    requires BytesFrom(b, base)(UNVET_HEAD) == Some(d.operatorIds)
    requires BytesFrom(b, base)(SecondOffset(|d.operatorIds|)) == Some(d.vettedKeys)
    ensures DecodeData(UnvetParser, b) == Some(d)
  {
    UnvetFromWords(d, BytesFrom(b, base));
    TupleStart(b, base);
  }

  lemma DecodeUnvetEncoding(b: seq<byte>, d: BusData)
    requires WellTyped(d) && d.UnvetV1? && IsUnvetEncoding(b, d)
    ensures DecodeData(UnvetParser, b) == Some(d)
  {
    UnvetParts(b, d);
    UnvetFromEncoded(b, 32, d);
  }

  /** Each parser reads back exactly what was encoded for it. */
  lemma OwnParserReads(d: BusData, guardian: string)
    requires WellTyped(d)
    ensures DecodeData(OwnParser(d), EncodeData(d)) == Some(d)
    ensures Parse(OwnParser(d), guardian, EncodeData(d)) == MessageOf(d, guardian)
  {
    if d.UnvetV1? {
      DecodeUnvetEncoding(EncodeData(d), d);
    } else {
      DecodeStatic(d);
    }
  }

  /** `_decode_event`: the one non-indexed argument of the log, a byte string behind its offset. */
  function EventData(log: seq<byte>): Option<seq<byte>> {
    match ReadAt(log, 0)
    case None => None
    case Some(offset) => ReadBytes(log, FromBytes(offset))
  }

  /** The log of `sendMessage` carries the message bytes unchanged. */
  lemma EventDataSurvives(data: seq<byte>)
    requires |data| < WORD_LIMIT
    ensures EventData(Word(32) + EncodeBytes(data)) == Some(data)
  {
    var offset, tail := Word(32), EncodeBytes(data);
    SliceMiddle([], offset, tail, offset + tail);
    WordValueOf(32);
    assert offset + tail + [] == offset + tail;
    ReadEncodedBytes(offset, data, []);
  }

  // ------------------------------------------------------------------
  // Dispatch
  // ------------------------------------------------------------------

  /** The parser orders of the three bots. */
  const PAUSER := [PauseV2Parser, PauseV3Parser, PingParser]
  const DEPOSITOR := [DepositParser, PingParser]
  const UNVETTER := [UnvetParser, PingParser]

  /** Data shorter than a parser's words makes it raise; for the dynamic one whatever its offset says. */
  lemma TooShort(p: Parser, guardian: string, b: seq<byte>)
    requires |b| < 32 * WordCount(p)
    ensures Parse(p, guardian, b).None?
  {
  }

  lemma EncodedLength(d: BusData)
    requires WellTyped(d)
    ensures !d.UnvetV1? ==> |EncodeData(d)| == 32 * WordCount(OwnParser(d))
  {
    FlatLength(HeadWords(d));
  }

  /** In each bot's order, a parser needs more words than any message kind after it has, and the one
      of varying length comes first. */
  lemma EarlierNeedMore(ps: seq<Parser>, j: nat, own: nat)
    requires ps == PAUSER || ps == DEPOSITOR || ps == UNVETTER
    requires j < own < |ps|
    ensures WordCount(ps[own]) < WordCount(ps[j]) && !ps[own].UnvetParser?
  {
  }

  lemma FirstIs(ps: seq<Parser>, parse: Parser -> Option<Message>, own: nat)
    requires own < |ps| && forall j :: 0 <= j < own ==> parse(ps[j]).None?
    ensures FirstParser(ps, parse) == own <==> parse(ps[own]).Some?
  {
  }

  /** A parser that needs more words than the message has raises on it. */
  lemma EarlierRaises(p: Parser, d: BusData, guardian: string, b: seq<byte>)
    requires WellTyped(d) && !d.UnvetV1? && b == EncodeData(d) && WordCount(OwnParser(d)) < WordCount(p)
    ensures ParserOn(guardian, b)(p).None?
  {
    EncodedLength(d);
    TooShort(p, guardian, b);
  }

  /** In each bot's order, an encoded message of a supported kind is parsed by its own parser exactly
      when its version is UTF-8: every parser before it needs more words than the message has. */
  lemma DispatchIff(ps: seq<Parser>, own: nat, d: BusData, guardian: string)
    requires ps == PAUSER || ps == DEPOSITOR || ps == UNVETTER
    requires WellTyped(d) && own < |ps| && ps[own] == OwnParser(d)
    ensures FirstParser(ps, ParserOn(guardian, EncodeData(d))) == own <==> Decode(d.version).Some?
    ensures Decode(d.version).Some? ==> Parse(ps[own], guardian, EncodeData(d)) == MessageOf(d, guardian)
  {
    var b := EncodeData(d);
    forall j | 0 <= j < own
      ensures ParserOn(guardian, b)(ps[j]).None?
    {
      EarlierNeedMore(ps, j, own);
      EarlierRaises(ps[j], d, guardian, b);
    }
    FirstIs(ps, ParserOn(guardian, b), own);
    OwnParserReads(d, guardian);
    OwnResult(d, guardian, b);
  }

  lemma OwnResult(d: BusData, guardian: string, b: seq<byte>)
    requires Parse(OwnParser(d), guardian, b) == MessageOf(d, guardian)
    ensures ParserOn(guardian, b)(OwnParser(d)).Some? <==> Decode(d.version).Some?
  {
  }

  // ------------------------------------------------------------------
  // Messages whose version is not UTF-8
  // ------------------------------------------------------------------

  /** All words of an encoding that a parser of few words can reach. */
  function LeadingWords(d: BusData, offset: int): seq<Word32>
    requires WellTyped(d) && IsUint256(offset)
  {
    if d.UnvetV1? then [Word(offset)] + HeadWords(d) else HeadWords(d)
  }

  lemma StartsWithWords(d: BusData, offset: int) returns (rest: seq<byte>)
    requires WellTyped(d) && offset == 32
    ensures EncodeData(d) == Flat(LeadingWords(d, offset)) + rest
  {
    if d.UnvetV1? {
      rest := EncodeBytes(d.operatorIds) + EncodeBytes(d.vettedKeys);
      FlatCons(Word(offset), HeadWords(d));
      assert EncodeData(d) == Word(offset) + Flat(HeadWords(d)) + rest;
    } else {
      rest := [];
      assert Flat(HeadWords(d)) + [] == Flat(HeadWords(d));
    }
  }

  /** A static parser reads the first words, whatever follows them. */
  lemma LeadingReads(p: Parser, ws: seq<Word32>, rest: seq<byte>, guardian: string)
    requires !p.UnvetParser? && WordCount(p) <= |ws|
    ensures StaticData(p, ws[..WordCount(p)]).Some?
    ensures Parse(p, guardian, Flat(ws) + rest) == MessageOf(StaticData(p, ws[..WordCount(p)]).value, guardian)
  {
    var k := WordCount(p);
    var b, more := Flat(ws) + rest, Flat(ws[k..]) + rest;
    FlatSplit(ws, k);
    FromStart(Flat(ws[..k]), Flat(ws[k..]), rest);
    ReadWordsFlat([], ws[..k], more);
    DecodeLeading(p, b, ws[..k]);
  }

  lemma FromStart(a: seq<byte>, b: seq<byte>, c: seq<byte>)
    ensures a + b + c == [] + a + (b + c)
  {
  }

  lemma DecodeLeading(p: Parser, b: seq<byte>, ws: seq<Word32>)
    requires !p.UnvetParser? && WordCount(p) == |ws| && ReadWords(b, 0, |ws|) == Some(ws)
    ensures StaticData(p, ws).Some? && DecodeData(p, b) == StaticData(p, ws)
  {
  }

  lemma StaticReads(p: Parser, d: BusData, offset: int, guardian: string)
    requires WellTyped(d) && offset == 32 && !p.UnvetParser? && WordCount(p) <= |LeadingWords(d, offset)|
    ensures StaticData(p, LeadingWords(d, offset)[..WordCount(p)]).Some?
    ensures Parse(p, guardian, EncodeData(d))
            == MessageOf(StaticData(p, LeadingWords(d, offset)[..WordCount(p)]).value, guardian)
  {
    var rest := StartsWithWords(d, offset);
    LeadingReads(p, LeadingWords(d, offset), rest, guardian);
  }

  lemma PingReads(d: BusData, offset: int, guardian: string)
    requires WellTyped(d) && offset == 32
    ensures var ping := if d.UnvetV1? then PingV1(offset, Word(d.blockNumber))
                        else if d.PingV1? then d else PingV1(d.blockNumber, d.blockHash);
            Parse(PingParser, guardian, EncodeData(d)) == MessageOf(ping, guardian)
  {
    StaticReads(PingParser, d, offset, guardian);
    WordValueOf(if d.UnvetV1? then offset else d.blockNumber);
  }

  lemma ShorterPauseReads(d: BusData, offset: int, guardian: string)
    requires WellTyped(d) && d.PauseV2? && offset == 32
    ensures Parse(PauseV3Parser, guardian, EncodeData(d))
            == MessageOf(PauseV3(d.blockNumber, d.blockHash, d.r, d.vs, Word(d.moduleId)), guardian)
  {
    StaticReads(PauseV3Parser, d, offset, guardian);
    WordValueOf(d.blockNumber);
  }

  /** What later parsers make of an encoded message that its own parser refuses. */
  function Fallback(d: BusData, offset: int, guardian: string): Option<Message>
    requires WellTyped(d)
  {
    match d
    case PauseV2(n, h, r, vs, m, _) =>
      if Decode(Word(m)).Some? then MessageOf(PauseV3(n, h, r, vs, Word(m)), guardian)
      else MessageOf(PingV1(n, h), guardian)
    case UnvetV1(n, _, _, _, _, _, _, _, _) => MessageOf(PingV1(offset, Word(n)), guardian)
    case PingV1(_, _) => None
    case DepositV1(n, h, _, _, _, _, _, _) => MessageOf(PingV1(n, h), guardian)
    case PauseV3(n, h, _, _, _) => MessageOf(PingV1(n, h), guardian)
  }

  /** The parsers behind a position decide when those up to it raise. */
  lemma Remaining(ps: seq<Parser>, parse: Parser -> Option<Message>, own: nat)
    requires own < |ps| && forall j :: 0 <= j <= own ==> parse(ps[j]).None?
    ensures var k := FirstParser(ps, parse);
            && (own + 1 == |ps| ==> k == |ps|)
            && (own + 2 == |ps| ==> (if k < |ps| then parse(ps[k]) else None) == parse(ps[own + 1]))
            && (own + 3 == |ps| ==> (if k < |ps| then parse(ps[k]) else None)
                                    == if parse(ps[own + 1]).Some? then parse(ps[own + 1]) else parse(ps[own + 2]))
  {
  }

  /** An encoded message whose version is not UTF-8 is not dropped: a later parser may read its first words as
      another message. A pause with a module id becomes one without, whose version is the module id, whenever
      that id decodes; every other kind becomes a ping whose version is its second word, if that decodes. */
  lemma FallsThrough(ps: seq<Parser>, own: nat, d: BusData, offset: int, guardian: string)
    requires ps == PAUSER || ps == DEPOSITOR || ps == UNVETTER
    requires WellTyped(d) && own < |ps| && ps[own] == OwnParser(d) && Decode(d.version).None? && offset == 32
    ensures Dispatched(ps, guardian, EncodeData(d)) == Fallback(d, offset, guardian)
  {
    RaisesUpToOwn(ps, own, d, guardian);
    Remaining(ps, ParserOn(guardian, EncodeData(d)), own);
    if !d.PingV1? {
      FallbackReads(d, offset, guardian);
    }
  }

  lemma RaisesUpToOwn(ps: seq<Parser>, own: nat, d: BusData, guardian: string)
    requires ps == PAUSER || ps == DEPOSITOR || ps == UNVETTER
    requires WellTyped(d) && own < |ps| && ps[own] == OwnParser(d) && Decode(d.version).None?
    ensures forall j :: 0 <= j <= own ==> ParserOn(guardian, EncodeData(d))(ps[j]).None?
  {
    var b := EncodeData(d);
    forall j | 0 <= j <= own
      ensures ParserOn(guardian, b)(ps[j]).None?
    {
      if j < own {
        EarlierNeedMore(ps, j, own);
        EarlierRaises(ps[j], d, guardian, b);
      } else {
        OwnParserReads(d, guardian);
      }
    }
  }

  lemma FallbackReads(d: BusData, offset: int, guardian: string)
    requires WellTyped(d) && offset == 32 && !d.PingV1?
    ensures var parse := ParserOn(guardian, EncodeData(d));
            Fallback(d, offset, guardian)
            == if d.PauseV2? && parse(PauseV3Parser).Some? then parse(PauseV3Parser) else parse(PingParser)
  {
    PingReads(d, offset, guardian);
    if d.PauseV2? {
      ShorterPauseReads(d, offset, guardian);
    }
  }

  /** Every module id below 128 decodes. */
  lemma SmallIdDecodes(m: int, n: nat)
    requires 0 <= m < 128 && n == 31
    ensures Decode(Word(m)).Some?
  {
    var c := m as char;
    EncodeNuls(n);
    EncodeConcat(Nuls(n), [c]);
    assert [c][1..] == "" && EncodeChar(c) == [m] && Encode([c]) == [m];
    LastByte(m, n);
    var text := Nuls(n) + [c];
    assert Encode(text) == Word(m);
    DecodeEncode(text);
  }

  lemma LastByte(m: byte, n: nat)
    requires n == 31
    ensures Word(m) == Zeros(n) + [m]
  {
    ZerosValue(n);
    var w := Zeros(n) + [m];
    assert w[..n] == Zeros(n) && FromBytes(w) == m;
    ToBytesFromBytes(w);
  }

  lemma {:induction false} ZerosValue(n: nat)
    ensures FromBytes(Zeros(n)) == 0
  {
    if n > 0 {
      ZerosValue(n - 1);
      assert Zeros(n)[..n - 1] == Zeros(n - 1);
    }
  }
}
