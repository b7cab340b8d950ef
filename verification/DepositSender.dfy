/** Building the deposit call from a quorum, src/blockchain/deposit_strategy/deposit_transaction_sender.py,
    and the signature conditions the deposit contract puts on it. */
module DepositSender {
  import opened Bytes
  import opened Messages
  import opened Quorum
  import opened Sorting
  import opened Wrappers

  datatype SenderError = IndexError | ValueError

  /** One `depositBufferedEther` call. */
  datatype DepositCall = DepositCall(blockNumber: int, blockHash: seq<byte>, depositRoot: seq<byte>, moduleId: int,
                                     nonce: int, payload: seq<byte>, signatures: seq<Signature>)

  function ByAddress(): DepositMessage -> int {
    (m: DepositMessage) => AddressValue(m.guardianAddress)
  }

  function SortedMessages(quorum: seq<DepositMessage>): seq<DepositMessage> {
    SortBy(quorum, ByAddress())
  }

  /** `_prepare_signs_for_deposit`. */
  function PrepareSigns(quorum: seq<DepositMessage>): (s: seq<Signature>)
    ensures |s| == |SortedMessages(quorum)|
    ensures forall i :: 0 <= i < |s| ==> s[i] == SortedMessages(quorum)[i].signature
  {
    var sorted := SortedMessages(quorum);
    seq(|sorted|, i requires 0 <= i < |sorted| => sorted[i].signature)
  }

  /** `_prepare_general_tx`: everything but the signatures comes from the first message. */
  function PrepareGeneralTx(quorum: seq<DepositMessage>): Result<DepositCall, SenderError> {
    if quorum == [] then Err(IndexError)
    else
      var m := quorum[0];
      match (FromHexStringToBytes(m.blockHash), FromHexStringToBytes(m.depositRoot))
      case (Some(hash), Some(root)) =>
        Ok(DepositCall(m.blockNumber, hash, root, m.stakingModuleId, m.nonce, [], PrepareSigns(quorum)))
      case _ => Err(ValueError)
  }

  // ------------------------------------------------------------------
  // The contract's side
  // ------------------------------------------------------------------

  /** The numbers of the call fit their argument types. */
  predicate Encodable(call: DepositCall) {
    IsUint256(call.blockNumber) && IsUint256(call.moduleId) && IsUint256(call.nonce)
  }

  /** The message the contract builds from the call's own arguments. */
  function CallData(prefix: seq<byte>, call: DepositCall): seq<byte>
    requires Encodable(call)
  {
    AttestData(prefix, call.blockNumber, call.blockHash, call.depositRoot, call.moduleId, call.nonce)
  }

  /** The address recovered from every signature is a listed guardian, and they strictly ascend. */
  ghost predicate SignaturesAccepted(c: Crypto, prefix: seq<byte>, guardians: seq<string>, call: DepositCall) {
    && Encodable(call)
    && (forall i :: 0 <= i < |call.signatures| ==>
          SignerOf(c, CallData(prefix, call), call.signatures[i]).Some?
          && c.checksum(SignerOf(c, CallData(prefix, call), call.signatures[i]).value) in guardians)
    && (forall i, j :: 0 <= i < j < |call.signatures| ==>
          SignerOf(c, CallData(prefix, call), call.signatures[i]).value
          < SignerOf(c, CallData(prefix, call), call.signatures[j]).value)
  }

  // ------------------------------------------------------------------
  // From stored messages to an accepted call
  // ------------------------------------------------------------------

  /** What the depositor knows of a stored message: its signature was checked against its own
      address and that address is a guardian's. */
  ghost predicate Attested(c: Crypto, prefix: seq<byte>, guardians: seq<string>, m: DepositMessage) {
    SignFilter(c, prefix, m).Keep? && m.guardianAddress in guardians
  }

  /** The payload one message signs. */
  function PayloadOf(m: DepositMessage): (int, Option<seq<byte>>, Option<seq<byte>>, int, int) {
    (m.blockNumber, Hash32(m.blockHash), Hash32(m.depositRoot), m.stakingModuleId, m.nonce)
  }

  /** The payload of a call, in the same terms. */
  function PayloadOfCall(call: DepositCall): (int, Option<seq<byte>>, Option<seq<byte>>, int, int) {
    (call.blockNumber, Some(call.blockHash), Some(call.depositRoot), call.moduleId, call.nonce)
  }

  /** The bytes an attested message signs. */
  lemma AttestedData(c: Crypto, prefix: seq<byte>, guardians: seq<string>, m: DepositMessage)
    requires Attested(c, prefix, guardians, m)
    ensures IsUint256(m.blockNumber) && IsUint256(m.stakingModuleId) && IsUint256(m.nonce)
    ensures Hash32(m.blockHash).Some? && Hash32(m.depositRoot).Some?
    ensures var data := AttestData(prefix, m.blockNumber, Hash32(m.blockHash).value, Hash32(m.depositRoot).value,
                                   m.stakingModuleId, m.nonce);
            && SignedBytes(prefix, m) == Ok(Some(data))
            && SignerOf(c, data, m.signature).Some?
            && m.guardianAddress == c.checksum(SignerOf(c, data, m.signature).value)
  {
    SignedRecovers(c, prefix, m);
  }

  /** The hash and the root of the message start with 0x in lower case, the only prefix that Python strips. */
  predicate LowerPrefixed(m: DepositMessage) {
    "0x" <= m.blockHash && "0x" <= m.depositRoot
  }

  /** What the hashing library reads, Python reads behind a lower-case prefix only. */
  lemma HashBytes(s: string)
    requires Hash32(s).Some?
    ensures FromHexStringToBytes(s) == if "0x" <= s then Hash32(s) else None
  {
    if !("0x" <= s) {
      UpperPrefixFails(s);
    }
  }

  /** A non-empty quorum of attested messages gives a call exactly when its first message is written with
      lower-case prefixes; the call then has that message's payload. */
  lemma CallFromFirst(c: Crypto, prefix: seq<byte>, guardians: seq<string>, quorum: seq<DepositMessage>)
    requires quorum != [] && Attested(c, prefix, guardians, quorum[0])
    ensures PrepareGeneralTx(quorum).Ok? <==> LowerPrefixed(quorum[0])
    ensures PrepareGeneralTx(quorum).Ok? ==>
              var call := PrepareGeneralTx(quorum).value;
              && Encodable(call) && PayloadOfCall(call) == PayloadOf(quorum[0])
              && |call.blockHash| == |call.depositRoot| == 32
              && call.payload == [] && call.signatures == PrepareSigns(quorum)
              && Ok(Some(CallData(prefix, call))) == SignedBytes(prefix, quorum[0])
  {
    AttestedData(c, prefix, guardians, quorum[0]);
    HashBytes(quorum[0].blockHash);
    HashBytes(quorum[0].depositRoot);
  }

  /** A message with the payload of the call is recovered to its own guardian. */
  lemma SignerIsGuardian(c: Crypto, prefix: seq<byte>, guardians: seq<string>, call: DepositCall, m: DepositMessage)
    requires PrintsAddresses(c) && Encodable(call)
    requires Attested(c, prefix, guardians, m) && PayloadOf(m) == PayloadOfCall(call)
    ensures SignerOf(c, CallData(prefix, call), m.signature) == Some(AddressValue(m.guardianAddress))
    ensures c.checksum(AddressValue(m.guardianAddress)) == m.guardianAddress
  {
    AttestedData(c, prefix, guardians, m);
    var a := SignerOf(c, CallData(prefix, call), m.signature).value;
    assert AddressValue(c.checksum(a)) == a;
  }

  /** Different guardians have different address values. */
  lemma DistinctAscending(c: Crypto, prefix: seq<byte>, guardians: seq<string>, quorum: seq<DepositMessage>)
    requires PrintsAddresses(c)
    requires forall m :: m in quorum ==> Attested(c, prefix, guardians, m)
    requires forall i, j :: 0 <= i < j < |quorum| ==> quorum[i].guardianAddress != quorum[j].guardianAddress
    ensures var sorted := SortedMessages(quorum);
            && |sorted| == |quorum|
            && (forall m :: m in sorted <==> m in quorum)
            && forall i, j :: 0 <= i < j < |sorted| ==>
                 AddressValue(sorted[i].guardianAddress) < AddressValue(sorted[j].guardianAddress)
  {
    var key := ByAddress();
    var sorted := SortedMessages(quorum);
    SortIsStable(quorum, key);
    SortLength(quorum, key);
    forall i, j | 0 <= i < j < |sorted|
      ensures key(sorted[i]) < key(sorted[j])
    {
      assert key(sorted[i]) <= key(sorted[j]);
      if key(sorted[i]) == key(sorted[j]) {
        assert sorted[i] in quorum && sorted[j] in quorum;
        SignedIsCanonical(c, prefix, sorted[i]);
        SignedIsCanonical(c, prefix, sorted[j]);
        CanonicalInjective(c, sorted[i].guardianAddress, sorted[j].guardianAddress);
        TwiceInSorted(quorum, sorted, i, j);
        assert false;
      }
    }
  }

  /** A permutation of messages with distinct guardians holds each guardian once. */
  lemma TwiceInSorted(quorum: seq<DepositMessage>, sorted: seq<DepositMessage>, i: nat, j: nat)
    requires multiset(sorted) == multiset(quorum) && i < j < |sorted|
    requires forall i, j :: 0 <= i < j < |quorum| ==> quorum[i].guardianAddress != quorum[j].guardianAddress
    ensures sorted[i].guardianAddress != sorted[j].guardianAddress
  {
    var m, m' := sorted[i], sorted[j];
    assert m in multiset(quorum) && m' in multiset(quorum);
    if m == m' {
      assert sorted == sorted[..j] + [m'] + sorted[j + 1..];
      assert sorted[..j][i] == m;
      assert multiset(sorted)[m] >= 2;
      CopiesAtMostOne(quorum, m);
    }
  }

  lemma {:induction false} CopiesAtMostOne(quorum: seq<DepositMessage>, m: DepositMessage)
    requires forall i, j :: 0 <= i < j < |quorum| ==> quorum[i].guardianAddress != quorum[j].guardianAddress
    ensures multiset(quorum)[m] <= 1
  {
    if quorum != [] {
      CopiesAtMostOne(quorum[1..], m);
      assert quorum == [quorum[0]] + quorum[1..];
      assert forall k :: 0 <= k < |quorum[1..]| ==> quorum[1..][k] == quorum[k + 1];
    }
  }

  /** When every message of the quorum has the first one's payload, the contract recovers exactly
      the quorum's guardians from its call, in strictly ascending order of address. */
  lemma SamePayloadAccepted(c: Crypto, prefix: seq<byte>, guardians: seq<string>, quorum: seq<DepositMessage>)
    requires PrintsAddresses(c) && PrepareGeneralTx(quorum).Ok?
    requires forall m :: m in quorum ==> Attested(c, prefix, guardians, m)
    requires forall i, j :: 0 <= i < j < |quorum| ==> quorum[i].guardianAddress != quorum[j].guardianAddress
    requires forall m :: m in quorum ==> PayloadOf(m) == PayloadOf(quorum[0])
    ensures var call := PrepareGeneralTx(quorum).value;
            && |call.signatures| == |quorum|
            && SignaturesAccepted(c, prefix, guardians, call)
            && (forall m :: m in quorum ==> SignedBytes(prefix, m) == Ok(Some(CallData(prefix, call))))
            && forall i :: 0 <= i < |quorum| ==>
                 SignerOf(c, CallData(prefix, call), call.signatures[i])
                 == Some(AddressValue(SortedMessages(quorum)[i].guardianAddress))
  {
    assert quorum[0] in quorum;
    CallFromFirst(c, prefix, guardians, quorum);
    DistinctAscending(c, prefix, guardians, quorum);
    var call, sorted := PrepareGeneralTx(quorum).value, SortedMessages(quorum);
    forall i | 0 <= i < |sorted|
      ensures SignerOf(c, CallData(prefix, call), call.signatures[i]) == Some(AddressValue(sorted[i].guardianAddress))
      ensures c.checksum(AddressValue(sorted[i].guardianAddress)) in guardians
    {
      assert sorted[i] in quorum;
      SignerIsGuardian(c, prefix, guardians, call, sorted[i]);
    }
    forall m | m in quorum
      ensures SignedBytes(prefix, m) == Ok(Some(CallData(prefix, call)))
    {
      AttestedData(c, prefix, guardians, m);
    }
  }

  /** No signature of the quorum recovers to a listed guardian over the call's data when it was given over
      other data. */
  ghost predicate BindsData(c: Crypto, prefix: seq<byte>, guardians: seq<string>, quorum: seq<DepositMessage>,
                            call: DepositCall)
  {
    Encodable(call) ==>
      forall m :: m in quorum && Listed(c, guardians, SignerOf(c, CallData(prefix, call), m.signature)) ==>
                    SignedBytes(prefix, m) == Ok(Some(CallData(prefix, call)))
  }

  /** Two attested messages sign the same bytes only if their payloads agree. */
  lemma SameDataSamePayload(c: Crypto, prefix: seq<byte>, guardians: seq<string>, call: DepositCall, m: DepositMessage)
    requires |prefix| == 32 && Attested(c, prefix, guardians, m)
    requires Encodable(call) && |call.blockHash| == |call.depositRoot| == 32
    requires SignedBytes(prefix, m) == Ok(Some(CallData(prefix, call)))
    ensures PayloadOf(m) == PayloadOfCall(call)
  {
    AttestedData(c, prefix, guardians, m);
    AttestDataInjective(prefix, m.blockNumber, Hash32(m.blockHash).value, Hash32(m.depositRoot).value,
                        m.stakingModuleId, m.nonce,
                        prefix, call.blockNumber, call.blockHash, call.depositRoot, call.moduleId, call.nonce);
  }

  /** A message whose signature the contract accepts has the payload of the call. */
  lemma AcceptedAgrees(c: Crypto, prefix: seq<byte>, guardians: seq<string>, quorum: seq<DepositMessage>,
                       call: DepositCall, m: DepositMessage)
    requires |prefix| == 32 && BindsData(c, prefix, guardians, quorum, call)
    requires SignaturesAccepted(c, prefix, guardians, call) && |call.blockHash| == |call.depositRoot| == 32
    requires call.signatures == PrepareSigns(quorum) && m in SortedMessages(quorum)
    requires m in quorum && Attested(c, prefix, guardians, m)
    ensures PayloadOf(m) == PayloadOfCall(call)
  {
    var sorted := SortedMessages(quorum);
    var i :| 0 <= i < |sorted| && sorted[i] == m;
    assert call.signatures[i] == m.signature;
    assert Listed(c, guardians, SignerOf(c, CallData(prefix, call), m.signature));
    SameDataSamePayload(c, prefix, guardians, call, m);
  }

  /** Grouping by block hash alone does not compare the other fields. When the quorum's signatures bind
      their data, the contract accepts the call exactly when the whole quorum agrees with its first message. */
  lemma AcceptedIff(c: Crypto, prefix: seq<byte>, guardians: seq<string>, quorum: seq<DepositMessage>)
    requires PrintsAddresses(c) && |prefix| == 32 && PrepareGeneralTx(quorum).Ok?
    requires BindsData(c, prefix, guardians, quorum, PrepareGeneralTx(quorum).value)
    requires forall m :: m in quorum ==> Attested(c, prefix, guardians, m)
    requires forall i, j :: 0 <= i < j < |quorum| ==> quorum[i].guardianAddress != quorum[j].guardianAddress
    ensures SignaturesAccepted(c, prefix, guardians, PrepareGeneralTx(quorum).value)
            <==> forall m :: m in quorum ==> PayloadOf(m) == PayloadOf(quorum[0])
  {
    assert quorum[0] in quorum;
    CallFromFirst(c, prefix, guardians, quorum);
    var call := PrepareGeneralTx(quorum).value;
    DistinctAscending(c, prefix, guardians, quorum);
    if SignaturesAccepted(c, prefix, guardians, call) {
      forall m | m in quorum
        ensures PayloadOf(m) == PayloadOfCall(call)
      {
        AcceptedAgrees(c, prefix, guardians, quorum, call, m);
      }
    } else if forall m :: m in quorum ==> PayloadOf(m) == PayloadOf(quorum[0]) {
      SamePayloadAccepted(c, prefix, guardians, quorum);
    }
  }
}
