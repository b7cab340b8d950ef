/** Guardian messages, what each guardian signature covers, and the two filters all bots share. */
module Messages {
  import opened Bytes
  import opened CompactSignature
  import opened MessageStorage
  import opened Wrappers

  datatype Signature = Signature(r: string, vs: string)

  /** The `app` entry of a message: an object with a version, one without (or no entry at all), or something
      that is not an object. */
  datatype App = Version(text: string) | NoVersion | NotAnObject

  /** The four message kinds. The schemas let a pause message lack its module id and an unvet message lack
      its nonce. */
  datatype Message =
    | Deposit(depositRoot: string, nonce: int, blockNumber: int, blockHash: string, guardianAddress: string,
              stakingModuleId: int, signature: Signature, app: App)
    | Unvet(unvetNonce: Option<int>, blockNumber: int, blockHash: string, guardianAddress: string, stakingModuleId: int,
            signature: Signature, operatorIds: string, vettedKeysByOperator: string, app: App)
    | Pause(blockNumber: int, guardianAddress: string, pausedModule: Option<int>, signature: Signature, app: App)
    | Ping(blockNumber: int, guardianAddress: string, app: App)

  // ------------------------------------------------------------------
  // Addresses
  // ------------------------------------------------------------------

  /** Two to the 160. */
  const ADDRESS_LIMIT: nat := 0x10000000000000000000000000000000000000000

  type Address = n: nat | n < ADDRESS_LIMIT

  /** A prefix and forty hexadecimal digits, each in either case. */
  predicate IsAddressText(a: string) {
    IsHexText(a, 40)
  }

  /** `int(a, 16)` of an address text. */
  function AddressValue(a: string): nat {
    match FromHex(Drop2(a))
    case Some(b) => FromBytes(b)
    case None => 0
  }

  /** The cryptographic functions, of which nothing is known but their types:
      keccak, public key recovery from (hash, v, r, s), and the checksum casing of an address. */
  datatype Crypto = Crypto(
    keccak: seq<byte> -> nat,
    recover: (nat, int, string, nat) -> Option<Address>,
    checksum: Address -> string)

  /** The one assumption on checksum casing: it prints the address it is given. */
  ghost predicate PrintsAddresses(c: Crypto) {
    forall n: Address :: IsAddressText(c.checksum(n)) && AddressValue(c.checksum(n)) == n
  }

  /** A text in checksum casing. */
  ghost predicate IsCanonical(c: Crypto, a: string) {
    exists n: Address :: a == c.checksum(n)
  }

  /** Forty digits stay below the limit. */
  lemma AddressBound(a: string)
    requires IsAddressText(a)
    ensures AddressValue(a) < ADDRESS_LIMIT
  {
    assert forall i :: 0 <= i < 40 ==> a[2..][i] == a[i + 2];
    FromHexDigits(a[2..], 20);
    FromBytesBound(FromHex(a[2..]).value);
    Pow128();
    Pow32();
    PowerProduct(32, 128, 160, 0x100000000, 0x100000000000000000000000000000000);
  }

  /** `Web3.to_checksum_address`; None is its ValueError. */
  function ToChecksum(c: Crypto, a: string): Option<string> {
    if !IsAddressText(a) then None
    else
      AddressBound(a);
      Some(c.checksum(AddressValue(a)))
  }

  /** Checksum casing names each address once, so equal values are equal keys. */
  lemma CanonicalInjective(c: Crypto, a: string, b: string)
    requires PrintsAddresses(c) && IsCanonical(c, a) && IsCanonical(c, b)
    ensures a == b <==> AddressValue(a) == AddressValue(b)
  {
  }

  lemma ChecksumIdempotent(c: Crypto, a: string)
    requires PrintsAddresses(c) && ToChecksum(c, a).Some?
    ensures ToChecksum(c, ToChecksum(c, a).value) == ToChecksum(c, a)
    ensures AddressValue(ToChecksum(c, a).value) == AddressValue(a)
  {
    AddressBound(a);
    assert AddressValue(c.checksum(AddressValue(a))) == AddressValue(a);
  }

  // ------------------------------------------------------------------
  // Intake: the construction filters
  // ------------------------------------------------------------------

  /** `message_metrics_filter` then `to_check_sum_address`: pings are refused,
      the rest has its guardian address overwritten by its checksum form. */
  function Intake(c: Crypto, m: Message): Received<Message> {
    if m.app.NotAnObject? then Throw
    else if m.Ping? then Refuse
    else
      match ToChecksum(c, m.guardianAddress)
      case Some(a) => Accept(m.(guardianAddress := a))
      case None => Throw
  }

  /** What passes the intake is no ping, keeps everything but its address text, and that text becomes the
      checksum form of the same address; nothing but an `app` entry that is not an object and, unless it is a
      ping, a malformed address makes it throw. */
  lemma IntakeMeaning(c: Crypto, m: Message)
    requires PrintsAddresses(c)
    ensures Intake(c, m).Refuse? <==> m.Ping? && !m.app.NotAnObject?
    ensures Intake(c, m).Throw? <==> m.app.NotAnObject? || (!m.Ping? && !IsAddressText(m.guardianAddress))
    ensures Intake(c, m).Accept? ==>
              var a := Intake(c, m).msg.guardianAddress;
              && Intake(c, m).msg == m.(guardianAddress := a)
              && IsCanonical(c, a) && AddressValue(a) == AddressValue(m.guardianAddress)
  {
    if IsAddressText(m.guardianAddress) {
      AddressBound(m.guardianAddress);
      var n: Address := AddressValue(m.guardianAddress);
      assert ToChecksum(c, m.guardianAddress) == Some(c.checksum(n));
      assert AddressValue(c.checksum(n)) == n;
    }
  }

  function IntakeOf(c: Crypto): Message -> Received<Message> {
    m => Intake(c, m)
  }

  // ------------------------------------------------------------------
  // What a signature covers
  // ------------------------------------------------------------------

  /** Two to the 256. */
  const WORD_LIMIT: nat := 0x10000000000000000000000000000000000000000000000000000000000000000

  predicate IsUint256(n: int) {
    0 <= n < WORD_LIMIT
  }

  function Word(n: int): (w: seq<byte>)
    requires IsUint256(n)
    ensures |w| == 32
  {
    ToBytes(n, 32)
  }

  /** The 32 bytes that the hashing library reads. */
  function Hash32(s: string): (h: Option<seq<byte>>)
    ensures h.Some? <==> IsHexText(s, 64)
    ensures h.Some? ==> |h.value| == 32
  {
    if !IsHexText(s, 64) then None
    else
      assert forall i :: 0 <= i < 64 ==> s[2..][i] == s[i + 2];
      FromHexDigits(s[2..], 32);
      FromHex(s[2..])
  }

  lemma HashReads(w: seq<byte>)
    requires |w| == 32
    ensures Hash32(BytesToHexString(w)) == Some(w)
  {
    PrintedIsHexText(w);
    HexStringRoundTrip(w);
  }

  function AttestData(prefix: seq<byte>, blockNumber: int, blockHash: seq<byte>, depositRoot: seq<byte>,
                      moduleId: int, nonce: int): seq<byte>
    requires IsUint256(blockNumber) && IsUint256(moduleId) && IsUint256(nonce)
  {
    prefix + Word(blockNumber) + blockHash + depositRoot + Word(moduleId) + Word(nonce)
  }

  function UnvetData(prefix: seq<byte>, blockNumber: int, blockHash: seq<byte>, moduleId: int, nonce: int,
                     operatorIds: seq<byte>, vettedKeys: seq<byte>): seq<byte>
    requires IsUint256(blockNumber) && IsUint256(moduleId) && IsUint256(nonce)
  {
    prefix + Word(blockNumber) + blockHash + Word(moduleId) + Word(nonce) + operatorIds + vettedKeys
  }

  function PauseData(prefix: seq<byte>, blockNumber: int, moduleId: Option<int>): seq<byte>
    requires IsUint256(blockNumber) && (moduleId.Some? ==> IsUint256(moduleId.value))
  {
    prefix + Word(blockNumber) + if moduleId.Some? then Word(moduleId.value) else []
  }

  /** The tightly packed bytes a message's signature is checked against. `Err` is an
      exception that escapes the filter, `Ok(None)` one that the verifier turns into a refusal. */
  function SignedBytes(prefix: seq<byte>, m: Message): Result<Option<seq<byte>>, StorageError> {
    match m
    case Deposit(root, nonce, number, hash, _, moduleId, _, _) =>
      Ok(match (Hash32(hash), Hash32(root))
         case (Some(h), Some(r)) =>
           if IsUint256(number) && IsUint256(moduleId) && IsUint256(nonce)
           then Some(AttestData(prefix, number, h, r, moduleId, nonce)) else None
         case _ => None)
    case Unvet(nonce, number, hash, _, moduleId, _, ids, keys, _) =>
      (match (nonce, FromHexStringToBytes(ids), FromHexStringToBytes(keys))
       case (Some(n), Some(i), Some(k)) =>
         Ok(match Hash32(hash)
            case Some(h) =>
              if IsUint256(number) && IsUint256(moduleId) && IsUint256(n)
              then Some(UnvetData(prefix, number, h, moduleId, n, i, k)) else None
            case None => None)
       case _ => Err(StorageError.StorageError))
    case Pause(number, _, moduleId, _, _) =>
      Ok(if IsUint256(number) && (moduleId.Some? ==> IsUint256(moduleId.value))
         then Some(PauseData(prefix, number, moduleId)) else None)
    case Ping(_, _, _) => Err(StorageError.StorageError)
  }

  /** `verify_message_with_signature` over already packed bytes. */
  predicate SignatureMatches(c: Crypto, data: seq<byte>, address: string, v: int, r: string, s: nat) {
    match c.recover(c.keccak(data), v, r, s)
    case Some(a) => address == c.checksum(a)
    case None => false
  }

  /** The filter that `get_messages_sign_filter(prefix)` returns. */
  function SignFilter(c: Crypto, prefix: seq<byte>, m: Message): Verdict {
    if m.Ping? then Raise else CheckSigned(c, m, RecoverVs(m.signature.vs), SignedBytes(prefix, m))
  }

  function CheckSigned(c: Crypto, m: Message, vs: Result<(int, nat), CodecError>,
                       data: Result<Option<seq<byte>>, StorageError>): Verdict
    requires !m.Ping?
  {
    if vs.Err? || data.Err? then Raise
    else if data.value.None? then Drop
    else if SignatureMatches(c, data.value.value, m.guardianAddress, vs.value.0, m.signature.r, vs.value.1) then Keep
    else Drop
  }

  /** The address a contract recovers from one compact signature over some data. */
  function SignerOf(c: Crypto, data: seq<byte>, signature: Signature): Option<Address> {
    match RecoverVs(signature.vs)
    case Ok((v, s)) => c.recover(c.keccak(data), v, signature.r, s)
    case Err(_) => None
  }

  /** The address is there and a guardian's. */
  predicate Listed(c: Crypto, guardians: seq<string>, a: Option<Address>) {
    a.Some? && c.checksum(a.value) in guardians
  }

  /** `lambda x: f(x) and g(x)`: the second filter runs only when the first keeps. */
  function Both(f: Verdict, g: Verdict): Verdict {
    if f.Keep? then g else f
  }

  /** The filters all bots share: the construction filters, and the sign filter by prefix. */
  datatype Filters = Filters(intake: Message -> Received<Message>, sign: (seq<byte>, Message) -> Verdict)

  function FiltersOf(c: Crypto): (f: Filters)
    ensures AreFilters(f, c)
  {
    Filters(IntakeOf(c), (prefix, m) => SignFilter(c, prefix, m))
  }

  /** f are the filters with the cryptographic functions of c. */
  ghost predicate AreFilters(f: Filters, c: Crypto) {
    && (forall m {:trigger Intake(c, m)} :: f.intake(m) == Intake(c, m))
    && (forall prefix, m {:trigger SignFilter(c, prefix, m)} :: f.sign(prefix, m) == SignFilter(c, prefix, m))
  }

  /** A message that passed the sign filter carries a checksum address. */
  lemma SignedIsCanonical(c: Crypto, prefix: seq<byte>, m: Message)
    requires SignFilter(c, prefix, m).Keep?
    ensures !m.Ping?
    ensures RecoverVs(m.signature.vs).Ok? && SignedBytes(prefix, m).Ok? && SignedBytes(prefix, m).value.Some?
    ensures var (v, s) := RecoverVs(m.signature.vs).value;
            SignatureMatches(c, SignedBytes(prefix, m).value.value, m.guardianAddress, v, m.signature.r, s)
    ensures IsCanonical(c, m.guardianAddress)
  {
    var vs, data := RecoverVs(m.signature.vs), SignedBytes(prefix, m);
    assert CheckSigned(c, m, vs, data).Keep?;
  }

  /** A contract that hashes the bytes a passed message signs recovers that message's guardian. */
  lemma SignedRecovers(c: Crypto, prefix: seq<byte>, m: Message)
    requires SignFilter(c, prefix, m).Keep?
    ensures !m.Ping? && SignedBytes(prefix, m).Ok? && SignedBytes(prefix, m).value.Some?
    ensures var a := SignerOf(c, SignedBytes(prefix, m).value.value, m.signature);
            a.Some? && m.guardianAddress == c.checksum(a.value)
  {
    SignedIsCanonical(c, prefix, m);
  }

  /** The message as if signed by another guardian. */
  function Under(m: Message, g: string): Message {
    m.(guardianAddress := g)
  }

  /** The sign filter would keep the message under some listed guardian's address. */
  ghost predicate SignedByListed(c: Crypto, prefix: seq<byte>, guardians: seq<string>, m: Message) {
    exists g :: g in guardians && SignFilter(c, prefix, Under(m, g)).Keep?
  }

  lemma SignedUnder(c: Crypto, prefix: seq<byte>, m: Message, g: string)
    requires !m.Ping? && SignedBytes(prefix, m).Ok? && SignedBytes(prefix, m).value.Some?
    ensures SignFilter(c, prefix, Under(m, g)).Keep?
            <==> var a := SignerOf(c, SignedBytes(prefix, m).value.value, m.signature);
                 a.Some? && g == c.checksum(a.value)
  {
    assert SignedBytes(prefix, Under(m, g)) == SignedBytes(prefix, m);
  }

  /** A contract recovers a listed guardian over the signed bytes exactly when the sign filter would keep
      the message under some listed address, whichever address the message itself names. */
  lemma RecoversListedIff(c: Crypto, prefix: seq<byte>, guardians: seq<string>, m: Message)
    requires !m.Ping? && SignedBytes(prefix, m).Ok? && SignedBytes(prefix, m).value.Some?
    ensures Listed(c, guardians, SignerOf(c, SignedBytes(prefix, m).value.value, m.signature))
            <==> SignedByListed(c, prefix, guardians, m)
  {
    var a := SignerOf(c, SignedBytes(prefix, m).value.value, m.signature);
    if a.Some? {
      SignedUnder(c, prefix, m, c.checksum(a.value));
    }
    forall g | g in guardians && SignFilter(c, prefix, Under(m, g)).Keep?
      ensures Listed(c, guardians, a)
    {
      SignedUnder(c, prefix, m, g);
    }
  }

  // ------------------------------------------------------------------
  // What the schemas let through
  // ------------------------------------------------------------------

  /** The text behind the prefix, without a line feed at its end. */
  function PatternDigits(s: string): string {
    var t := Drop2(s);
    if t != "" && t[|t| - 1] == '\n' then t[..|t| - 1] else t
  }

  /** The pattern for byte strings: a comma counts as a digit, the x may be upper case, and a line feed may
      follow. */
  predicate MatchesBytesPattern(s: string) {
    var d := PatternDigits(s);
    HasHexPrefix(s) && forall i :: 0 <= i < |d| ==> DigitValue(d[i]).Some? || d[i] == ','
  }

  /** The patterns for hashes and signature halves, of 64 such digits, and for addresses, of 40. */
  predicate MatchesPattern(s: string, digits: nat) {
    MatchesBytesPattern(s) && |PatternDigits(s)| == digits
  }

  /** What the schemas demand of a message, its address aside. */
  predicate FitsSchema(m: Message) {
    && (!m.Ping? ==> MatchesPattern(m.signature.r, 64) && MatchesPattern(m.signature.vs, 64))
    && (m.Deposit? || m.Unvet? ==> MatchesPattern(m.blockHash, 64))
    && (m.Deposit? ==> MatchesPattern(m.depositRoot, 64))
    && (m.Unvet? ==> MatchesBytesPattern(m.operatorIds) && MatchesBytesPattern(m.vettedKeysByOperator))
  }

  predicate SchemaValid(m: Message) {
    FitsSchema(m) && MatchesPattern(m.guardianAddress, 40)
  }

  /** A byte string with a comma, an odd number of digits or an upper-case X. */
  predicate Undecodable(s: string) {
    ',' in s || |PatternDigits(s)| % 2 == 1 || !("0x" <= s)
  }

  /** A comma in the signature half or, in an unvet message, no nonce or a byte string of that kind. */
  predicate Unreadable(m: Message) {
    && !m.Ping?
    && (',' in m.signature.vs
        || (m.Unvet? && (m.unvetNonce.None? || Undecodable(m.operatorIds) || Undecodable(m.vettedKeysByOperator))))
  }

  /** Behind the prefix, exactly an even number of digits without a comma decodes. */
  lemma PatternReads(s: string)
    requires MatchesBytesPattern(s)
    ensures FromHex(Drop2(s)).Some? <==> ',' !in s && |PatternDigits(s)| % 2 == 0
  {
    var t, d := Drop2(s), PatternDigits(s);
    assert forall i :: 0 <= i < |t| ==> t[i] == s[i + 2];
    if ',' in s {
      var i :| 0 <= i < |s| && s[i] == ',';
      assert t[i - 2] == ',';
      if FromHex(t).Some? {
        FromHexReads(t, i - 2);
      }
    } else {
      assert forall i :: 0 <= i < |t| ==> t[i] in s;
      FromHexPairsUp(t, |d|);
    }
  }

  /** Of the signature halves the schema lets through, exactly those with a comma cannot be read. */
  lemma ReadableIff(vs: string)
    requires MatchesPattern(vs, 64)
    ensures RecoverVs(vs).Ok? <==> ',' !in vs
  {
    PatternReads(vs);
  }

  lemma DecodableIff(s: string)
    requires MatchesBytesPattern(s)
    ensures FromHexStringToBytes(s).None? <==> Undecodable(s)
  {
    PatternReads(s);
    if !("0x" <= s) {
      UpperPrefixFails(s);
    }
  }

  /** On a message that its schema lets through, the sign filter raises exactly when the message is
      unreadable, or a ping, which has no signature, whatever the prefix. */
  lemma SignRaisesIff(c: Crypto, prefix: seq<byte>, m: Message)
    requires FitsSchema(m)
    ensures SignFilter(c, prefix, m).Raise? <==> m.Ping? || Unreadable(m)
  {
    if !m.Ping? {
      ReadableIff(m.signature.vs);
    }
    if m.Unvet? {
      DecodableIff(m.operatorIds);
      DecodableIff(m.vettedKeysByOperator);
    }
  }

  /** Where these digits stand. */
  lemma DigitsAt(s: string, d: string)
    requires |s| >= 2 && d == PatternDigits(s)
    ensures |s| == |d| + 2 || (|s| == |d| + 3 && s[|d| + 2] == '\n')
    ensures forall i :: 2 <= i < |d| + 2 ==> s[i] == d[i - 2]
  {
  }

  /** What matches a pattern is a hexadecimal text exactly when it has no comma and no line feed behind. */
  lemma TextIff(s: string, n: nat)
    requires MatchesPattern(s, n)
    ensures IsHexText(s, n) <==> ',' !in s && |s| == n + 2
  {
    var d := PatternDigits(s);
    DigitsAt(s, d);
    if ',' in s {
      var i :| 0 <= i < |s| && s[i] == ',';
      assert DigitValue(s[i]).None?;
    } else {
      assert forall i :: 2 <= i < n + 2 ==> s[i] == d[i - 2] && s[i] in s;
    }
  }

  /** What Python prints matches, and decodes. */
  lemma PrintedMatches(b: seq<byte>)
    ensures MatchesPattern(BytesToHexString(b), 2 * |b|) && !Undecodable(BytesToHexString(b))
  {
    var s := BytesToHexString(b);
    PrintedIsHexText(b);
    assert forall i :: 0 <= i < |PatternDigits(s)| ==> PatternDigits(s)[i] == s[i + 2];
  }

  /** An `app` entry that is not an object or, in any message but a ping, an address with a comma or a line
      feed behind. */
  predicate Malformed(m: Message) {
    m.app.NotAnObject? || (!m.Ping? && (',' in m.guardianAddress || |m.guardianAddress| != 42))
  }

  /** Of the messages the schemas let through, the construction filters throw exactly on these. */
  lemma IntakeThrowsIff(c: Crypto, m: Message)
    requires SchemaValid(m)
    ensures Intake(c, m).Throw? <==> Malformed(m)
  {
    TextIff(m.guardianAddress, 40);
  }

  /** Such a message takes the whole batch along with which it was fetched: the rest of the run is as if its
      transport had failed, although the queue or the cursor has moved. */
  lemma MalformedLosesBatch(c: Crypto, f: Filters, ops: seq<Op<Message>>, n: nat, i: nat, raw: Message)
    requires AreFilters(f, c) && n < |ops| && ops[n].Refresh? && i < |ops[n].batches|
    requires ops[n].batches[i].Fetched? && raw in ops[n].batches[i].messages && SchemaValid(raw) && Malformed(raw)
    ensures StoreAfter(f.intake, ops)
            == StoreAfter(f.intake, ops[n := Refresh(ops[n].batches[i := FetchFailed], ops[n].act)])
  {
    IntakeThrowsIff(c, raw);
    assert f.intake(raw) == Intake(c, raw);
    LostForTheRun(f.intake, ops, n, i, raw);
  }

  /** What the schema and the construction filters have let through. */
  predicate Admitted(m: Message) {
    !m.Ping? && FitsSchema(m)
  }

  datatype Kind = DepositKind | UnvetKind | PauseKind | PingKind

  function KindOf(m: Message): Kind {
    match m
    case Deposit(_, _, _, _, _, _, _, _) => DepositKind
    case Unvet(_, _, _, _, _, _, _, _, _) => UnvetKind
    case Pause(_, _, _, _, _) => PauseKind
    case Ping(_, _, _) => PingKind
  }

  /** The transports of a bot yield messages that its schema lets through: of the bot's own kind, or pings. */
  ghost predicate YieldValid(kind: Kind, batches: seq<Batch<Message>>) {
    forall i, m :: 0 <= i < |batches| && batches[i].Fetched? && m in batches[i].messages ==>
                     SchemaValid(m) && (KindOf(m) == kind || m.Ping?)
  }

  /** If they do in a whole run, every stored message is of that kind and fits its schema. */
  lemma {:induction false} StoredFits(c: Crypto, f: Filters, kind: Kind, ops: seq<Op<Message>>)
    requires AreFilters(f, c)
    requires forall n :: 0 <= n < |ops| && ops[n].Refresh? ==> YieldValid(kind, ops[n].batches)
    ensures forall m :: m in StoreAfter(f.intake, ops) ==> Admitted(m) && KindOf(m) == kind
    decreases |ops|
  {
    if ops != [] {
      var n := |ops| - 1;
      StoredFits(c, f, kind, ops[..n]);
      StepFits(c, f, kind, StoreAfter(f.intake, ops[..n]), ops[n]);
    }
  }

  lemma StepFits(c: Crypto, f: Filters, kind: Kind, store: seq<Message>, op: Op<Message>)
    requires AreFilters(f, c) && forall m :: m in store ==> Admitted(m) && KindOf(m) == kind
    requires op.Refresh? ==> YieldValid(kind, op.batches)
    ensures forall m :: m in Extended(f.intake, store, op) ==> Admitted(m) && KindOf(m) == kind
    ensures forall m :: m in Step(f.intake, store, op) ==> Admitted(m) && KindOf(m) == kind
  {
    if op.Refresh? {
      ArrivedFits(c, f, kind, op.batches);
      if Rebound(f.intake, store, op).Some? {
        ActualizeKeeps(op.act, Extended(f.intake, store, op));
      }
    }
  }

  lemma ArrivedFits(c: Crypto, f: Filters, kind: Kind, batches: seq<Batch<Message>>)
    requires AreFilters(f, c) && YieldValid(kind, batches)
    ensures forall m :: m in Gather(f.intake, batches).arrived ==> Admitted(m) && KindOf(m) == kind
  {
    forall m | m in Gather(f.intake, batches).arrived
      ensures Admitted(m) && KindOf(m) == kind
    {
      ArrivedIsYielded(f.intake, batches, m);
      var i :| 0 <= i < |batches| && YieldedBy(f.intake, batches, i, m);
      var raw :| raw in batches[i].messages && f.intake(raw) == Accept(m);
      assert SchemaValid(raw) && f.intake(raw) == Intake(c, raw);
    }
  }

  /** Each fault alone leaves a message valid by its schema: a comma in the signature half, */
  lemma CommaIsValid(m: Message, i: nat)
    requires !m.Ping? && SchemaValid(m) && 2 <= i < 66 && i < |m.signature.vs|
    ensures var m' := m.(signature := Signature(m.signature.r, m.signature.vs[i := ',']));
            SchemaValid(m') && Unreadable(m')
  {
    CommaMatches(m.signature.vs, 64, i);
  }

  /** an unvet message without a nonce, */
  lemma NoNonceIsValid(m: Message)
    requires m.Unvet? && SchemaValid(m)
    ensures SchemaValid(m.(unvetNonce := None)) && Unreadable(m.(unvetNonce := None))
  {
  }

  /** or with one odd digit or an upper-case X in a byte string. */
  lemma IdsAreValid(m: Message, ids: string)
    requires m.Unvet? && SchemaValid(m) && (ids == "0x1" || ids == "0X")
    ensures SchemaValid(m.(operatorIds := ids)) && Unreadable(m.(operatorIds := ids))
  {
    assert MatchesBytesPattern(ids) && Undecodable(ids);
  }

  lemma CommaMatches(s: string, n: nat, i: nat)
    requires MatchesPattern(s, n) && 2 <= i < n + 2
    ensures i < |s| && MatchesPattern(s[i := ','], n) && ',' in s[i := ',']
  {
    var d := PatternDigits(s);
    DigitsAt(s, d);
    var t := s[i := ','];
    assert t[i] == ',';
    assert PatternDigits(t) == d[i - 2 := ','];
  }

  // ------------------------------------------------------------------
  // Messages that block a bot
  // ------------------------------------------------------------------

  /** The filter runs the sign filter, then `rest` on what that keeps. */
  ghost predicate SignsThen(f: Filters, prefix: seq<byte>, act: Message -> Verdict, rest: Message -> Verdict) {
    forall m {:trigger act(m)} :: act(m) == Both(f.sign(prefix, m), rest(m))
  }

  /** The second filter raises on a message that the sign filter keeps. */
  predicate RaisesBehind(c: Crypto, prefix: seq<byte>, rest: Message -> Verdict, m: Message) {
    SignFilter(c, prefix, m).Keep? && rest(m).Raise?
  }

  /** A refresh that signs first raises exactly when a transport cannot be read or filtered, a message stored or
      just arrived is unreadable, or its second filter raises on one that is signed. */
  lemma RefreshRaisesIff(c: Crypto, f: Filters, store: seq<Message>, op: Op<Message>, prefix: seq<byte>,
                         rest: Message -> Verdict)
    requires AreFilters(f, c) && op.Refresh? && SignsThen(f, prefix, op.act, rest)
    requires forall m :: m in Extended(f.intake, store, op) ==> Admitted(m)
    ensures Rebound(f.intake, store, op).None?
            <==> || !Gather(f.intake, op.batches).complete
                 || exists m :: m in Extended(f.intake, store, op)
                                && (Unreadable(m) || RaisesBehind(c, prefix, rest, m))
  {
    var all := Extended(f.intake, store, op);
    forall m | m in all
      ensures op.act(m).Raise? <==> Unreadable(m) || RaisesBehind(c, prefix, rest, m)
    {
      SignRaisesIff(c, prefix, m);
      assert f.sign(prefix, m) == SignFilter(c, prefix, m);
    }
    ActualizeRaises(op.act, all);
  }

  /** The operation's filter runs the sign filter first. */
  ghost predicate SignsFirst(f: Filters, op: Op<Message>) {
    op.Refresh? && exists prefix :: SignsWith(f, prefix, op.act)
  }

  ghost predicate SignsWith(f: Filters, prefix: seq<byte>, act: Message -> Verdict) {
    forall m :: f.sign(prefix, m).Raise? ==> act(m).Raise?
  }

  /** The sign filter raises on the message under every prefix. */
  ghost predicate NeverRead(f: Filters, m: Message) {
    forall prefix :: f.sign(prefix, m).Raise?
  }

  lemma NeverReadIff(c: Crypto, f: Filters, m: Message)
    requires AreFilters(f, c) && Admitted(m)
    ensures NeverRead(f, m) <==> Unreadable(m)
  {
    forall prefix
      ensures f.sign(prefix, m).Raise? <==> Unreadable(m)
    {
      SignRaisesIff(c, prefix, m);
      assert f.sign(prefix, m) == SignFilter(c, prefix, m);
    }
    assert NeverRead(f, m) ==> f.sign([], m).Raise?;
  }

  /** Such a message, stored or just arrived, stops a refresh that signs first, and stays. */
  lemma UnreadStops(f: Filters, store: seq<Message>, op: Op<Message>, m: Message)
    requires NeverRead(f, m) && SignsFirst(f, op) && m in Extended(f.intake, store, op)
    ensures op.act(m).Raise? && Rebound(f.intake, store, op).None? && m in Step(f.intake, store, op)
  {
    var prefix :| SignsWith(f, prefix, op.act);
    assert f.sign(prefix, m).Raise?;
    RaisingRefresh(f.intake, store, op, m);
  }

  /** Over a run of such refreshes it stays stored and every refresh raises, from the one that fetched it on. */
  lemma UnreadableBlocks(c: Crypto, f: Filters, ops: seq<Op<Message>>, n: nat, m: Message, j: nat)
    requires AreFilters(f, c)
    requires n <= j < |ops| && forall k :: n <= k < |ops| ==> SignsFirst(f, ops[k])
    requires ops[n].Refresh? && m in Gather(f.intake, ops[n].batches).arrived
    requires Admitted(m) && Unreadable(m)
    ensures !Applied(f.intake, ops, j) && m in StoreAfter(f.intake, ops[..j + 1])
  {
    NeverReadIff(c, f, m);
    forall k | n <= k < |ops|
      ensures ops[k].Refresh? && ops[k].act(m).Raise?
    {
      UnreadStops(f, [m], ops[k], m);
    }
    RaisesForGood(f.intake, ops, n, m, j);
  }

  // ------------------------------------------------------------------
  // Signature coverage
  // ------------------------------------------------------------------

  lemma WordValueOf(n: int)
    requires IsUint256(n)
    ensures FromBytes(Word(n)) == n
  {
    WordFromBytes(n);
  }

  lemma WordInjective(a: int, b: int)
    requires IsUint256(a) && IsUint256(b)
    ensures Word(a) == Word(b) <==> a == b
  {
    WordValueOf(a);
    WordValueOf(b);
  }

  /** Packing splits back at every position the two sides share. */
  lemma ConcatCancel<T>(a: seq<T>, b: seq<T>, a': seq<T>, b': seq<T>)
    requires a + b == a' + b' && (|a| == |a'| || |b| == |b'|)
    ensures a == a' && b == b'
  {
    assert |a| == |a'|;
    assert a == (a + b)[..|a|] && a' == (a' + b')[..|a|];
    assert b == (a + b)[|a|..] && b' == (a' + b')[|a|..];
  }

  /** The i-th 32 bytes. */
  function Slot(data: seq<byte>, i: nat): seq<byte>
    requires 32 * (i + 1) <= |data|
  {
    data[32 * i..32 * (i + 1)]
  }

  lemma SlotOf(pre: seq<byte>, w: seq<byte>, post: seq<byte>, i: nat)
    requires |pre| == 32 * i && |w| == 32
    ensures Slot(pre + w + post, i) == w
  {
  }

  /** Five words and a rest. */
  lemma FiveSlots(a: seq<byte>, b: seq<byte>, c: seq<byte>, d: seq<byte>, e: seq<byte>, rest: seq<byte>,
                  data: seq<byte>)
    requires |a| == |b| == |c| == |d| == |e| == 32 && data == a + b + c + d + e + rest
    ensures |data| == 160 + |rest| && data[160..] == rest
    ensures Slot(data, 0) == a && Slot(data, 1) == b && Slot(data, 2) == c && Slot(data, 3) == d && Slot(data, 4) == e
  {
    assert data == [] + a + (b + c + d + e + rest);
    assert data == a + b + (c + d + e + rest);
    assert data == (a + b) + c + (d + e + rest);
    assert data == (a + b + c) + d + (e + rest);
    SlotOf([], a, b + c + d + e + rest, 0);
    SlotOf(a, b, c + d + e + rest, 1);
    SlotOf(a + b, c, d + e + rest, 2);
    SlotOf(a + b + c, d, e + rest, 3);
    SlotOf(a + b + c + d, e, rest, 4);
  }

  /** A deposit message is signed over the prefix, block number, block hash, deposit root, module id and nonce, in
      this order. */
  lemma AttestLayout(prefix: seq<byte>, m: Message, data: seq<byte>)
    requires |prefix| == 32 && m.Deposit? && SignedBytes(prefix, m) == Ok(Some(data))
    ensures |data| == 192
    ensures Slot(data, 0) == prefix && FromBytes(Slot(data, 1)) == m.blockNumber
    ensures Hash32(m.blockHash) == Some(Slot(data, 2)) && Hash32(m.depositRoot) == Some(Slot(data, 3))
    ensures FromBytes(Slot(data, 4)) == m.stakingModuleId && FromBytes(data[160..]) == m.nonce
  {
    WordValueOf(m.blockNumber);
    WordValueOf(m.stakingModuleId);
    WordValueOf(m.nonce);
    FiveSlots(prefix, Word(m.blockNumber), Hash32(m.blockHash).value, Hash32(m.depositRoot).value,
              Word(m.stakingModuleId), Word(m.nonce), data);
  }

  /** An unvet message over the prefix, block number, block hash, module id and nonce, and then the bytes of the
      operator ids and those of the vetted keys. */
  lemma UnvetLayout(prefix: seq<byte>, m: Message, data: seq<byte>)
    requires |prefix| == 32 && m.Unvet? && SignedBytes(prefix, m) == Ok(Some(data))
    ensures m.unvetNonce.Some? && |data| >= 160
    ensures Slot(data, 0) == prefix && FromBytes(Slot(data, 1)) == m.blockNumber
    ensures Hash32(m.blockHash) == Some(Slot(data, 2))
    ensures FromBytes(Slot(data, 3)) == m.stakingModuleId && FromBytes(Slot(data, 4)) == m.unvetNonce.value
    ensures FromHexStringToBytes(m.operatorIds).Some? && FromHexStringToBytes(m.vettedKeysByOperator).Some?
    ensures data[160..]
            == FromHexStringToBytes(m.operatorIds).value + FromHexStringToBytes(m.vettedKeysByOperator).value
  {
    var ids, keys := FromHexStringToBytes(m.operatorIds).value, FromHexStringToBytes(m.vettedKeysByOperator).value;
    WordValueOf(m.blockNumber);
    WordValueOf(m.stakingModuleId);
    WordValueOf(m.unvetNonce.value);
    var head := prefix + Word(m.blockNumber) + Hash32(m.blockHash).value + Word(m.stakingModuleId)
                + Word(m.unvetNonce.value);
    assert data == head + (ids + keys);
    FiveSlots(prefix, Word(m.blockNumber), Hash32(m.blockHash).value, Word(m.stakingModuleId),
              Word(m.unvetNonce.value), ids + keys, data);
  }

  /** A pause message over the prefix, the block number and the module id, if it has one. */
  lemma PauseLayout(prefix: seq<byte>, m: Message, data: seq<byte>)
    requires |prefix| == 32 && m.Pause? && SignedBytes(prefix, m) == Ok(Some(data))
    ensures |data| == if m.pausedModule.Some? then 96 else 64
    ensures Slot(data, 0) == prefix && FromBytes(Slot(data, 1)) == m.blockNumber
    ensures m.pausedModule.Some? ==> FromBytes(Slot(data, 2)) == m.pausedModule.value
  {
    var number, rest := Word(m.blockNumber), if m.pausedModule.Some? then Word(m.pausedModule.value) else [];
    WordValueOf(m.blockNumber);
    assert data == prefix + number + rest && data == [] + prefix + (number + rest);
    SlotOf([], prefix, number + rest, 0);
    SlotOf(prefix, number, rest, 1);
    if m.pausedModule.Some? {
      WordValueOf(m.pausedModule.value);
      assert data == (prefix + number) + rest + [];
      SlotOf(prefix + number, rest, [], 2);
    }
  }

  /** An attest signature covers every field of a deposit message but its signer and version. */
  lemma AttestDataInjective(p: seq<byte>, n: int, h: seq<byte>, root: seq<byte>, m: int, k: int,
                            p': seq<byte>, n': int, h': seq<byte>, root': seq<byte>, m': int, k': int)
    requires |p| == |p'| == 32 && |h| == |h'| == 32 && |root| == |root'| == 32
    requires IsUint256(n) && IsUint256(m) && IsUint256(k) && IsUint256(n') && IsUint256(m') && IsUint256(k')
    ensures AttestData(p, n, h, root, m, k) == AttestData(p', n', h', root', m', k')
            <==> p == p' && n == n' && h == h' && root == root' && m == m' && k == k'
  {
    if AttestData(p, n, h, root, m, k) == AttestData(p', n', h', root', m', k') {
      ConcatCancel(p + Word(n) + h + root + Word(m), Word(k), p' + Word(n') + h' + root' + Word(m'), Word(k'));
      ConcatCancel(p + Word(n) + h + root, Word(m), p' + Word(n') + h' + root', Word(m'));
      ConcatCancel(p + Word(n) + h, root, p' + Word(n') + h', root');
      ConcatCancel(p + Word(n), h, p' + Word(n'), h');
      ConcatCancel(p, Word(n), p', Word(n'));
      WordInjective(n, n');
      WordInjective(m, m');
      WordInjective(k, k');
    }
  }

  /** An unvet signature covers the numbers and the hash, but of the two byte strings only
      their concatenation: the packed encoding does not record where the first one ends. */
  lemma UnvetDataCovers(p: seq<byte>, n: int, h: seq<byte>, m: int, k: int, ids: seq<byte>, keys: seq<byte>,
                        p': seq<byte>, n': int, h': seq<byte>, m': int, k': int, ids': seq<byte>, keys': seq<byte>)
    requires |p| == |p'| == 32 && |h| == |h'| == 32
    requires IsUint256(n) && IsUint256(m) && IsUint256(k) && IsUint256(n') && IsUint256(m') && IsUint256(k')
    ensures UnvetData(p, n, h, m, k, ids, keys) == UnvetData(p', n', h', m', k', ids', keys')
            <==> p == p' && n == n' && h == h' && m == m' && k == k' && ids + keys == ids' + keys'
  {
    var a, a' := p + Word(n) + h + Word(m) + Word(k), p' + Word(n') + h' + Word(m') + Word(k');
    assert UnvetData(p, n, h, m, k, ids, keys) == a + (ids + keys);
    assert UnvetData(p', n', h', m', k', ids', keys') == a' + (ids' + keys');
    if a + (ids + keys) == a' + (ids' + keys') {
      ConcatCancel(a, ids + keys, a', ids' + keys');
      ConcatCancel(p + Word(n) + h + Word(m), Word(k), p' + Word(n') + h' + Word(m'), Word(k'));
      ConcatCancel(p + Word(n) + h, Word(m), p' + Word(n') + h', Word(m'));
      ConcatCancel(p + Word(n), h, p' + Word(n'), h');
      ConcatCancel(p, Word(n), p', Word(n'));
      WordInjective(n, n');
      WordInjective(m, m');
      WordInjective(k, k');
    }
  }

  /** The two pause encodings never collide: one names a module, the other does not. */
  lemma PauseDataInjective(p: seq<byte>, n: int, m: Option<int>, p': seq<byte>, n': int, m': Option<int>)
    requires |p| == |p'| == 32 && IsUint256(n) && IsUint256(n')
    requires (m.Some? ==> IsUint256(m.value)) && (m'.Some? ==> IsUint256(m'.value))
    ensures PauseData(p, n, m) == PauseData(p', n', m') <==> p == p' && n == n' && m == m'
  {
    if PauseData(p, n, m) == PauseData(p', n', m') {
      assert m.Some? <==> m'.Some? by {
        assert |PauseData(p, n, m)| == if m.Some? then 96 else 64;
        assert |PauseData(p', n', m')| == if m'.Some? then 96 else 64;
      }
      if m.Some? {
        ConcatCancel(p + Word(n), Word(m.value), p' + Word(n'), Word(m'.value));
        WordInjective(m.value, m'.value);
      } else {
        assert PauseData(p, n, m) == p + Word(n) && PauseData(p', n', m') == p' + Word(n');
      }
      ConcatCancel(p, Word(n), p', Word(n'));
      WordInjective(n, n');
    }
  }
}
