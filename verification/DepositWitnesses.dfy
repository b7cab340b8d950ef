/** Inputs on which the depositor builds no call or one that does not meet the deposit contract's conditions:
    the nonce of the votes is ahead of the one read, the votes agree on the block hash alone, or the hash is
    written with an upper-case prefix. */
module DepositWitnesses {
  import opened Bytes
  import opened CompactSignature
  import opened DepositSender
  import opened Depositor
  import opened Messages
  import opened MessageStorage
  import opened Quorum
  import opened WitnessSetting
  import opened Wrappers

  /** The vote of one of the two guardians. */
  function Vote(s: Setting, first: bool, blockNumber: int, nonce: int): DepositMessage {
    Deposit(BytesToHexString(s.root), nonce, blockNumber, BytesToHexString(s.hash),
            Text(s, if first then s.one else s.two), s.moduleId,
            Signature(if first then s.rOne else s.rTwo, s.vs), NoVersion)
  }

  function VoteData(s: Setting, blockNumber: int, nonce: int): seq<byte>
    requires Fits(s) && IsUint256(blockNumber) && IsUint256(nonce)
  {
    AttestData(s.prefix, blockNumber, s.hash, s.root, s.moduleId, nonce)
  }

  lemma VoteSigns(s: Setting, first: bool, x: int, k: int)
    requires Fits(s) && IsUint256(x) && IsUint256(k)
    ensures SignedBytes(s.prefix, Vote(s, first, x, k)) == Ok(Some(VoteData(s, x, k)))
  {
    HashReads(s.hash);
    HashReads(s.root);
  }

  /** Votes on different numbers or nonces are hashed differently. */
  lemma DifferentVotes(s: Setting, x: int, k: int, y: int, l: int)
    requires Fits(s) && IsUint256(x) && IsUint256(k) && IsUint256(y) && IsUint256(l)
    ensures FromBytes(VoteData(s, x, k)) == FromBytes(VoteData(s, y, l)) <==> x == y && k == l
  {
    var a, b := VoteData(s, x, k), VoteData(s, y, l);
    if FromBytes(a) == FromBytes(b) {
      SameWord(a, b);
    }
    AttestDataInjective(s.prefix, x, s.hash, s.root, s.moduleId, k, s.prefix, y, s.hash, s.root, s.moduleId, l);
  }

  /** What the bot reads: the two guardians, and a head behind all votes. */
  function View(s: Setting, nonce: int, minSigns: int): QuorumView {
    QuorumView([], s.prefix, 0, s.root, [Text(s, s.one), Text(s, s.two)], nonce, minSigns)
  }

  /** A vote whose signature recovers to its guardian passes every check. */
  lemma VotePasses(c: Crypto, s: Setting, first: bool, x: int, k: int, nonce: int, minSigns: int)
    requires Fits(s) && IsUint256(x) && IsUint256(k) && x > 0 && k >= nonce
    requires forall n :: c.checksum(n) == Text(s, n)
    requires SignerOf(c, VoteData(s, x, k), Vote(s, first, x, k).signature) == Some(if first then s.one else s.two)
    ensures Checked(c, s.moduleId, View(s, nonce, minSigns), Vote(s, first, x, k))
    ensures ActualizeFilter(View(s, nonce, minSigns), Vote(s, first, x, k)).Keep?
  {
    VoteSigns(s, first, x, k);
    var m, v := Vote(s, first, x, k), View(s, nonce, minSigns);
    assert CheckSigned(c, m, RecoverVs(m.signature.vs), SignedBytes(s.prefix, m)).Keep?;
    assert v.guardians[0] == Text(s, s.one) && v.guardians[1] == Text(s, s.two);
  }

  lemma {:induction false} OfModule(ms: seq<DepositMessage>, moduleId: int, nonce: int)
    requires forall m :: m in ms ==> m.stakingModuleId == moduleId && m.nonce >= nonce
    ensures ModuleMessages(ms, moduleId, nonce) == ms
  {
    if ms != [] {
      assert ms[0] in ms && forall m :: m in ms[1..] ==> m in ms;
      OfModule(ms[1..], moduleId, nonce);
      assert ms == [ms[0]] + ms[1..];
    }
  }

  /** Stored messages that pass every check are grouped as they are. */
  lemma StoredGrouped(c: Crypto, f: Filters, moduleId: int, v: QuorumView, ms: seq<DepositMessage>)
    requires AreFilters(f, c) && v.batches == []
    requires forall m :: m in ms ==> Checked(c, moduleId, v, m) && ActualizeFilter(v, m).Keep?
    ensures FilteredMessages(f, ms, moduleId, v) == ms
    ensures QuorumOf(f, ms, moduleId, v) == Ok(SelectedQuorum(ms, v.minSigns))
  {
    var act := DepositFilter(f, v);
    forall m | m in ms
      ensures act(m).Keep?
    {
      assert Checked(c, moduleId, v, m) && f.sign(v.prefix, m) == SignFilter(c, v.prefix, m);
    }
    KeptAll(act, ms);
    OfModule(ms, moduleId, v.nonce);
    assert Gather(f.intake, v.batches) == Gathered([], true) && ms + [] == ms;
  }

  /** A quorum needs no more than as many guardians under one hash as required. */
  lemma SelectsSome(ms: seq<DepositMessage>, q: int, i: nat) returns (quorum: seq<DepositMessage>)
    requires i < |ms| && |Guardians(ms, ms[i].blockHash)| >= q
    ensures SelectedQuorum(ms, q) == Some(quorum) && quorum != []
  {
    var hash := SelectionMeaning(ms, q);
    quorum := SelectedQuorum(ms, q).value;
  }

  /** A single vote that passes every check is selected when one is required. */
  lemma SingleVote(c: Crypto, f: Filters, moduleId: int, v: QuorumView, m: DepositMessage)
    returns (quorum: seq<DepositMessage>)
    requires AreFilters(f, c) && v.batches == [] && v.minSigns == 1
    requires Checked(c, moduleId, v, m) && ActualizeFilter(v, m).Keep?
    ensures FilteredMessages(f, [m], moduleId, v) == [m]
    ensures QuorumOf(f, [m], moduleId, v) == Ok(Some(quorum)) && quorum != [] && quorum[0] == m
  {
    var store := [m];
    StoredGrouped(c, f, moduleId, v, store);
    assert m in store && m.guardianAddress in Guardians(store, m.blockHash);
    quorum := SelectsSome(store, 1, 0);
    var first := SelectedFirst(store, 1, quorum);
  }

  /** A single vote with a nonce ahead of the one read becomes a call with that nonce. */
  lemma NonceAhead(s: Setting, x: int, k: int, nonce: int)
    returns (c: Crypto, f: Filters, store: seq<DepositMessage>, quorum: seq<DepositMessage>)
    requires Fits(s) && IsUint256(x) && IsUint256(k) && x > 0 && k > nonce
    ensures PrintsAddresses(c) && AreFilters(f, c)
    ensures QuorumOf(f, store, s.moduleId, View(s, nonce, 1)) == Ok(Some(quorum)) && quorum != []
    ensures Consistent(FilteredMessages(f, store, s.moduleId, View(s, nonce, 1)), 0)
    ensures PrepareGeneralTx(quorum).Ok? && PrepareGeneralTx(quorum).value.nonce == k
  {
    var data, m, v := VoteData(s, x, k), Vote(s, true, x, k), View(s, nonce, 1);
    c := TwoSigners(s, data, []);
    f := FiltersOf(c);
    store := [m];
    TwoSignersPrint(s, data, []);
    VotePasses(c, s, true, x, k, nonce, 1);
    quorum := SingleVote(c, f, s.moduleId, v, m);
    CallFromFirst(c, v.prefix, v.guardians, quorum);
  }

  /** Two guardians vote for one block hash under different numbers. */
  function TwoVotes(s: Setting, x: int, y: int, k: int): seq<DepositMessage> {
    [Vote(s, true, x, k), Vote(s, false, y, k)]
  }

  lemma TwoVotesPass(s: Setting, x: int, y: int, k: int, nonce: int, c: Crypto)
    requires Fits(s) && IsUint256(x) && IsUint256(y) && IsUint256(k) && x > 0 && y > 0 && x != y && k >= nonce
    requires c == TwoSigners(s, VoteData(s, x, k), VoteData(s, y, k))
    ensures forall m :: m in TwoVotes(s, x, y, k) ==>
                          Checked(c, s.moduleId, View(s, nonce, 2), m) && ActualizeFilter(View(s, nonce, 2), m).Keep?
  {
    VotePasses(c, s, true, x, k, nonce, 2);
    DifferentVotes(s, x, k, y, k);
    VotePasses(c, s, false, y, k, nonce, 2);
  }

  /** The two addresses are different texts. */
  lemma TwoGuardians(s: Setting, x: int, y: int, k: int)
    requires Fits(s)
    ensures TwoVotes(s, x, y, k)[0].guardianAddress != TwoVotes(s, x, y, k)[1].guardianAddress
  {
    TextDenotes(s, s.one);
    TextDenotes(s, s.two);
  }

  lemma PairSize(a: DepositMessage, b: DepositMessage)
    requires a.blockHash == b.blockHash && a.guardianAddress != b.guardianAddress
    ensures |Guardians([a, b], a.blockHash)| == 2
  {
    var ms, ga, gb := [a, b], a.guardianAddress, b.guardianAddress;
    assert ms[0] in ms && ms[1] in ms;
    assert Guardians(ms, a.blockHash) == {ga, gb};
  }

  /** A quorum of two among two messages holds both. */
  lemma BothSelected(a: DepositMessage, b: DepositMessage, quorum: seq<DepositMessage>)
    requires a.blockHash == b.blockHash && a.guardianAddress != b.guardianAddress
    requires SelectedQuorum([a, b], 2) == Some(quorum)
    ensures forall m :: m in quorum <==> m == a || m == b
    ensures forall i, j :: 0 <= i < j < |quorum| ==> quorum[i].guardianAddress != quorum[j].guardianAddress
  {
    var ms := [a, b];
    var hash := SelectionMeaning(ms, 2);
    LastOfMember(ms, hash, quorum);
    var first := SelectedFirst(ms, 2, quorum);
    assert hash == a.blockHash && ms[0] in ms && ms[1] in ms;
    Included(ms, hash, quorum, a);
    Included(ms, hash, quorum, b);
  }

  lemma Included(ms: seq<DepositMessage>, hash: string, quorum: seq<DepositMessage>, m: DepositMessage)
    requires LastPerGuardian(ms, hash, quorum) && m in ms && m.blockHash == hash
    requires forall x :: x in quorum ==> x in ms
    requires forall x :: x in ms && x.guardianAddress == m.guardianAddress ==> x == m
    ensures m in quorum
  {
    assert m.guardianAddress in Guardians(ms, hash);
    var i :| 0 <= i < |quorum| && quorum[i].guardianAddress == m.guardianAddress;
    assert quorum[i] in quorum;
  }

  /** No signature recovers over the other vote's data. */
  lemma VotesBind(s: Setting, x: int, y: int, k: int, c: Crypto, quorum: seq<DepositMessage>, call: DepositCall)
    requires Fits(s) && IsUint256(x) && IsUint256(y) && IsUint256(k) && x != y
    requires c == TwoSigners(s, VoteData(s, x, k), VoteData(s, y, k))
    requires forall m :: m in quorum ==> m in TwoVotes(s, x, y, k)
    requires Encodable(call)
    requires CallData(s.prefix, call) == VoteData(s, x, k) || CallData(s.prefix, call) == VoteData(s, y, k)
    ensures BindsData(c, s.prefix, [Text(s, s.one), Text(s, s.two)], quorum, call)
  {
    DifferentVotes(s, x, k, y, k);
    VoteSigns(s, true, x, k);
    VoteSigns(s, false, y, k);
  }

  /** The contract refuses the call built from both votes. */
  lemma VotesRefused(s: Setting, x: int, y: int, k: int, c: Crypto, guardians: seq<string>, quorum: seq<DepositMessage>)
    requires Fits(s) && IsUint256(x) && IsUint256(y) && IsUint256(k) && x != y
    requires c == TwoSigners(s, VoteData(s, x, k), VoteData(s, y, k)) && guardians == [Text(s, s.one), Text(s, s.two)]
    requires forall m :: m in quorum <==> m in TwoVotes(s, x, y, k)
    requires quorum != [] && forall m :: m in quorum ==> Attested(c, s.prefix, guardians, m)
    requires forall i, j :: 0 <= i < j < |quorum| ==> quorum[i].guardianAddress != quorum[j].guardianAddress
    ensures PrepareGeneralTx(quorum).Ok? && !forall m :: m in quorum ==> PayloadOf(m) == PayloadOf(quorum[0])
    ensures BindsData(c, s.prefix, guardians, quorum, PrepareGeneralTx(quorum).value)
    ensures !SignaturesAccepted(c, s.prefix, guardians, PrepareGeneralTx(quorum).value)
  {
    var votes := TwoVotes(s, x, y, k);
    assert quorum[0] in quorum && votes[0] in votes && votes[1] in votes;
    CallFromFirst(c, s.prefix, guardians, quorum);
    VoteSigns(s, true, x, k);
    VoteSigns(s, false, y, k);
    VotesBind(s, x, y, k, c, quorum, PrepareGeneralTx(quorum).value);
    assert PayloadOf(votes[0]).0 == x && PayloadOf(votes[1]).0 == y;
    TwoSignersPrint(s, VoteData(s, x, k), VoteData(s, y, k));
    AcceptedIff(c, s.prefix, guardians, quorum);
  }

  /** The bot selects the two votes and builds a call, although they disagree; the contract refuses it. */
  lemma Disagreement(s: Setting, x: int, y: int, k: int, nonce: int)
    returns (c: Crypto, f: Filters, store: seq<DepositMessage>, quorum: seq<DepositMessage>)
    requires Fits(s) && IsUint256(x) && IsUint256(y) && IsUint256(k) && x > 0 && y > 0 && x != y && k >= nonce
    ensures PrintsAddresses(c) && AreFilters(f, c)
    ensures QuorumOf(f, store, s.moduleId, View(s, nonce, 2)) == Ok(Some(quorum)) && quorum != []
    ensures PrepareGeneralTx(quorum).Ok? && !forall m :: m in quorum ==> PayloadOf(m) == PayloadOf(quorum[0])
    ensures var guardians := View(s, nonce, 2).guardians;
            var call := PrepareGeneralTx(quorum).value;
            BindsData(c, s.prefix, guardians, quorum, call) && !SignaturesAccepted(c, s.prefix, guardians, call)
  {
    var v := View(s, nonce, 2);
    c := TwoSigners(s, VoteData(s, x, k), VoteData(s, y, k));
    f := FiltersOf(c);
    store := TwoVotes(s, x, y, k);
    TwoSignersPrint(s, VoteData(s, x, k), VoteData(s, y, k));
    TwoVotesPass(s, x, y, k, nonce, c);
    StoredGrouped(c, f, s.moduleId, v, store);
    TwoGuardians(s, x, y, k);
    PairSize(store[0], store[1]);
    quorum := SelectsSome(store, 2, 0);
    BothSelected(store[0], store[1], quorum);
    VotesRefused(s, x, y, k, c, v.guardians, quorum);
  }

  /** The first guardian's vote with the block hash written with 0X. */
  function UpperVote(s: Setting, x: int, k: int): DepositMessage {
    Deposit(BytesToHexString(s.root), k, x, "0X" + ToHex(s.hash), Text(s, s.one), s.moduleId,
            Signature(s.rOne, s.vs), NoVersion)
  }

  lemma UpperHash(b: seq<byte>)
    requires |b| == 32
    ensures Hash32("0X" + ToHex(b)) == Some(b)
  {
    var s, t := "0X" + ToHex(b), BytesToHexString(b);
    PrintedIsHexText(b);
    FromHexToHex(b);
    assert s[2..] == ToHex(b);
    assert forall i :: 2 <= i < |s| ==> s[i] == t[i];
  }

  lemma UpperVotePasses(c: Crypto, s: Setting, x: int, k: int, nonce: int)
    requires Fits(s) && IsUint256(x) && IsUint256(k) && x > 0 && k >= nonce
    requires forall n :: c.checksum(n) == Text(s, n)
    requires SignerOf(c, VoteData(s, x, k), Vote(s, true, x, k).signature) == Some(s.one)
    ensures Checked(c, s.moduleId, View(s, nonce, 1), UpperVote(s, x, k))
    ensures ActualizeFilter(View(s, nonce, 1), UpperVote(s, x, k)).Keep?
  {
    UpperHash(s.hash);
    VoteSigns(s, true, x, k);
    VotePasses(c, s, true, x, k, nonce, 1);
    var m := UpperVote(s, x, k);
    assert SignedBytes(s.prefix, m) == Ok(Some(VoteData(s, x, k)));
    assert CheckSigned(c, m, RecoverVs(m.signature.vs), SignedBytes(s.prefix, m)).Keep?;
  }

  /** A vote whose block hash is written with 0X passes every check and makes a quorum, and then raises in
      the building of the call. */
  lemma UpperPrefix(s: Setting, x: int, k: int, nonce: int)
    returns (c: Crypto, f: Filters, store: seq<DepositMessage>, quorum: seq<DepositMessage>)
    requires Fits(s) && IsUint256(x) && IsUint256(k) && x > 0 && k >= nonce
    ensures PrintsAddresses(c) && AreFilters(f, c)
    ensures QuorumOf(f, store, s.moduleId, View(s, nonce, 1)) == Ok(Some(quorum)) && quorum != []
    ensures PrepareGeneralTx(quorum).Err?
  {
    var data, m, v := VoteData(s, x, k), UpperVote(s, x, k), View(s, nonce, 1);
    c := TwoSigners(s, data, []);
    f := FiltersOf(c);
    store := [m];
    TwoSignersPrint(s, data, []);
    UpperVotePasses(c, s, x, k, nonce);
    quorum := SingleVote(c, f, s.moduleId, v, m);
    CallFromFirst(c, v.prefix, v.guardians, quorum);
  }
}
