/** The depositor bot of src/bots/depositor.py: quorums, choice of modules, the relay flag and heartbeats. */
module Depositor {
  import opened Bytes
  import opened DepositSender
  import opened HandlerLoop
  import opened Messages
  import opened MessageStorage
  import opened Quorum
  import opened Selection
  import opened Sorting
  import opened Wrappers

  datatype BotError = BotError

  // ------------------------------------------------------------------
  // Quorum of one module
  // ------------------------------------------------------------------

  /** What the chain and the transports answer while a quorum is built. */
  datatype QuorumView = QuorumView(
    batches: seq<Batch<Message>>,
    prefix: seq<byte>,
    head: int,
    depositRoot: seq<byte>,
    guardians: seq<string>,
    nonce: int,
    minSigns: int)

  const ATTEST_WINDOW := 200

  /** The filter of `_get_message_actualize_filter`. */
  function ActualizeFilter(v: QuorumView, m: Message): Verdict {
    if !m.Deposit? then Raise
    else if m.guardianAddress !in v.guardians then Drop
    else if m.blockNumber < v.head - ATTEST_WINDOW then Drop
    else if m.blockNumber > v.head then Keep
    else if m.depositRoot != BytesToHexString(v.depositRoot) then Drop
    else Keep
  }

  function DepositFilter(f: Filters, v: QuorumView): Message -> Verdict {
    (m: Message) => Both(f.sign(v.prefix, m), ActualizeFilter(v, m))
  }

  /** The refresh of `_fetch_actual_messages`. */
  function QuorumOp(f: Filters, v: QuorumView): Op<Message> {
    Refresh(v.batches, DepositFilter(f, v))
  }

  /** The filter of `_get_module_messages_filter`. */
  function ModuleMessages(ms: seq<Message>, moduleId: int, nonce: int): seq<DepositMessage> {
    if ms == [] then []
    else
      (if ms[0].Deposit? && ms[0].stakingModuleId == moduleId && ms[0].nonce >= nonce then [ms[0]] else [])
      + ModuleMessages(ms[1..], moduleId, nonce)
  }

  /** `_get_quorum` on a store that holds `store`. */
  function QuorumOf(f: Filters, store: seq<Message>, moduleId: int, v: QuorumView)
    : Result<Option<seq<DepositMessage>>, BotError>
  {
    match Rebound(f.intake, store, QuorumOp(f, v))
    case None => Err(BotError.BotError)
    case Some(ms) => Ok(SelectedQuorum(ModuleMessages(ms, moduleId, v.nonce), v.minSigns))
  }

  lemma {:induction false} ModuleMessagesMembers(ms: seq<Message>, moduleId: int, nonce: int)
    ensures forall m: Message :: m in ModuleMessages(ms, moduleId, nonce)
                                 <==> m in ms && m.Deposit? && m.stakingModuleId == moduleId && m.nonce >= nonce
  {
    if ms != [] {
      ModuleMessagesMembers(ms[1..], moduleId, nonce);
      assert forall m :: m in ms <==> m == ms[0] || m in ms[1..];
    }
  }

  /** They are in the order of the store and as often as it holds them. */
  lemma {:induction false} ModuleMessagesInOrder(ms: seq<Message>, moduleId: int, nonce: int, keep: Message -> bool)
    returns (at: seq<nat>)
    requires forall m :: keep(m) <==> m.Deposit? && m.stakingModuleId == moduleId && m.nonce >= nonce
    ensures Selects(ms, ModuleMessages(ms, moduleId, nonce), keep, at)
  {
    if ms == [] {
      at := [];
    } else {
      at := ModuleMessagesInOrder(ms[1..], moduleId, nonce, keep);
      at := SelectsCons(ms, ModuleMessages(ms[1..], moduleId, nonce), keep, at);
    }
  }

  /** Stored messages with one block hash and module agree on what they attest; for blocks the
      depositor already knows, its own filter has settled the deposit root. */
  ghost predicate Consistent(ms: seq<DepositMessage>, head: int) {
    forall a, b {:trigger Agree(a, b, head)} :: a in ms && b in ms ==> Agree(a, b, head)
  }

  predicate Agree(a: DepositMessage, b: DepositMessage, head: int) {
    a.blockHash == b.blockHash && a.stakingModuleId == b.stakingModuleId ==>
      && a.blockNumber == b.blockNumber && a.nonce == b.nonce
      && (a.blockNumber > head ==> a.depositRoot == b.depositRoot)
  }

  /** What the filters have established for one message. */
  ghost predicate Checked(c: Crypto, moduleId: int, v: QuorumView, m: DepositMessage) {
    && Attested(c, v.prefix, v.guardians, m)
    && m.stakingModuleId == moduleId && m.nonce >= v.nonce
    && m.blockNumber >= v.head - 200
    && (m.blockNumber <= v.head ==> m.depositRoot == BytesToHexString(v.depositRoot))
  }

  ghost predicate AllChecked(c: Crypto, moduleId: int, v: QuorumView, ms: seq<DepositMessage>) {
    forall m {:trigger Checked(c, moduleId, v, m)} :: m in ms ==> Checked(c, moduleId, v, m)
  }

  /** The messages that enter the grouping are exactly those stored or just received that pass every check. */
  lemma QuorumMembers(c: Crypto, f: Filters, store: seq<Message>, moduleId: int, v: QuorumView,
                      filtered: seq<DepositMessage>)
    requires AreFilters(f, c) && Rebound(f.intake, store, QuorumOp(f, v)).Some?
    requires filtered == ModuleMessages(Rebound(f.intake, store, QuorumOp(f, v)).value, moduleId, v.nonce)
    ensures forall m: Message :: m in filtered
                                 <==> && m in store + Gather(f.intake, v.batches).arrived
                                      && m.Deposit? && Checked(c, moduleId, v, m)
  {
    var op := QuorumOp(f, v);
    var ms := Rebound(f.intake, store, op).value;
    ActualizeKeeps(op.act, Extended(f.intake, store, op));
    ModuleMessagesMembers(ms, moduleId, v.nonce);
    assert forall m: Message :: f.sign(v.prefix, m) == SignFilter(c, v.prefix, m);
  }

  /** What a refresh for these answers makes of a store: signed deposit messages of listed guardians for blocks recent
      enough, with the root read unless the block is past the head; or, when it raises, all that arrived behind it. */
  ghost predicate Refreshed(c: Crypto, f: Filters, store: seq<Message>, v: QuorumView, after: seq<Message>) {
    var all := store + Gather(f.intake, v.batches).arrived;
    if Rebound(f.intake, store, QuorumOp(f, v)).None? then after == all
    else forall m: Message :: m in after <==>
                                && m in all && m.Deposit? && Attested(c, v.prefix, v.guardians, m)
                                && m.blockNumber >= v.head - 200
                                && (m.blockNumber <= v.head ==> m.depositRoot == BytesToHexString(v.depositRoot))
  }

  lemma RefreshKeeps(c: Crypto, f: Filters, store: seq<Message>, v: QuorumView)
    requires AreFilters(f, c)
    ensures Refreshed(c, f, store, v, Step(f.intake, store, QuorumOp(f, v)))
  {
    var op := QuorumOp(f, v);
    if Rebound(f.intake, store, op).Some? {
      ActualizeKeeps(op.act, Extended(f.intake, store, op));
      assert forall m: Message :: f.sign(v.prefix, m) == SignFilter(c, v.prefix, m);
    }
  }

  lemma QuorumSignsFirst(f: Filters, v: QuorumView)
    ensures SignsFirst(f, QuorumOp(f, v))
  {
    assert SignsWith(f, v.prefix, DepositFilter(f, v));
  }

  lemma LastOfMember(ms: seq<DepositMessage>, hash: string, chosen: seq<DepositMessage>)
    requires LastPerGuardian(ms, hash, chosen)
    ensures forall m :: m in chosen ==> m in ms && m.blockHash == hash
  {
    forall i | 0 <= i < |chosen|
      ensures chosen[i] in ms && chosen[i].blockHash == hash
    {
      LastOfIff(ms, hash, chosen[i].guardianAddress);
    }
  }

  /** The quorum is a selection of consistent checked messages, so all of it has one payload. */
  lemma QuorumAgrees(c: Crypto, moduleId: int, v: QuorumView, filtered: seq<DepositMessage>,
                     hash: string, quorum: seq<DepositMessage>)
    requires quorum != [] && LastPerGuardian(filtered, hash, quorum)
    requires Consistent(filtered, v.head) && AllChecked(c, moduleId, v, filtered)
    ensures forall m :: m in quorum ==> Checked(c, moduleId, v, m) && PayloadOf(m) == PayloadOf(quorum[0])
  {
    LastOfMember(filtered, hash, quorum);
    var first := quorum[0];
    assert first in quorum;
    forall m | m in quorum
      ensures Checked(c, moduleId, v, m) && PayloadOf(m) == PayloadOf(first)
    {
      assert Agree(m, first, v.head);
      assert Checked(c, moduleId, v, m) && Checked(c, moduleId, v, first);
    }
  }

  /** What the call for a quorum must be: exactly the payload each included guardian signed; signatures
      that recover to distinct listed guardians in strictly ascending address order, at least the
      required number; and for a block not past the head the deposit root read in the same cycle. */
  ghost predicate FaithfulCall(c: Crypto, moduleId: int, v: QuorumView, quorum: seq<DepositMessage>,
                               call: DepositCall)
  {
    && |call.signatures| == |quorum| >= v.minSigns
    && SignaturesAccepted(c, v.prefix, v.guardians, call)
    && (forall m :: m in quorum ==> SignedBytes(v.prefix, m) == Ok(Some(CallData(v.prefix, call))))
    && call.moduleId == moduleId && call.nonce >= v.nonce
    && (call.blockNumber <= v.head ==> call.depositRoot == v.depositRoot)
  }

  /** A quorum selected from checked and consistent messages gives a call exactly when its first message is
      written with lower-case prefixes, and then a faithful one. */
  lemma SelectionToTransaction(c: Crypto, moduleId: int, v: QuorumView, filtered: seq<DepositMessage>,
                               quorum: seq<DepositMessage>)
    requires PrintsAddresses(c)
    requires SelectedQuorum(filtered, v.minSigns) == Some(quorum)
    requires Consistent(filtered, v.head) && AllChecked(c, moduleId, v, filtered)
    ensures quorum != [] && (PrepareGeneralTx(quorum).Ok? <==> LowerPrefixed(quorum[0]))
    ensures PrepareGeneralTx(quorum).Ok? ==> FaithfulCall(c, moduleId, v, quorum, PrepareGeneralTx(quorum).value)
  {
    var hash := SelectionMeaning(filtered, v.minSigns);
    QuorumAgrees(c, moduleId, v, filtered, hash, quorum);
    assert quorum[0] in quorum;
    CallFromFirst(c, v.prefix, v.guardians, quorum);
    if PrepareGeneralTx(quorum).Ok? {
      SamePayloadAccepted(c, v.prefix, v.guardians, quorum);
      HexStringRoundTrip(v.depositRoot);
    }
  }

  /** The messages `_get_quorum` groups. */
  function FilteredMessages(f: Filters, store: seq<Message>, moduleId: int, v: QuorumView): seq<DepositMessage> {
    match Rebound(f.intake, store, QuorumOp(f, v))
    case None => []
    case Some(ms) => ModuleMessages(ms, moduleId, v.nonce)
  }

  /** From stored messages to the transaction: the same of whatever quorum `_get_quorum` returns from
      consistent messages. */
  lemma QuorumToTransaction(c: Crypto, f: Filters, store: seq<Message>, moduleId: int, v: QuorumView,
                            quorum: seq<DepositMessage>)
    requires PrintsAddresses(c) && AreFilters(f, c)
    requires QuorumOf(f, store, moduleId, v) == Ok(Some(quorum))
    requires Consistent(FilteredMessages(f, store, moduleId, v), v.head)
    ensures quorum != [] && (PrepareGeneralTx(quorum).Ok? <==> LowerPrefixed(quorum[0]))
    ensures PrepareGeneralTx(quorum).Ok? ==> FaithfulCall(c, moduleId, v, quorum, PrepareGeneralTx(quorum).value)
  {
    var filtered := FilteredMessages(f, store, moduleId, v);
    QuorumMembers(c, f, store, moduleId, v, filtered);
    SelectionToTransaction(c, moduleId, v, filtered, quorum);
  }

  /** Where the quorum's first message comes from. */
  lemma SelectedFirst(ms: seq<DepositMessage>, q: int, quorum: seq<DepositMessage>) returns (first: DepositMessage)
    requires SelectedQuorum(ms, q) == Some(quorum)
    ensures quorum != [] && quorum[0] in ms && first in ms && first.blockHash == quorum[0].blockHash
    ensures var i := FirstIndex(ms, quorum[0].blockHash); i < |ms| && first == ms[i]
  {
    var hash := SelectionMeaning(ms, q);
    QuorumHash(ms, q, hash, quorum);
    first := ms[FirstIndex(ms, hash)];
  }

  lemma QuorumHash(ms: seq<DepositMessage>, q: int, hash: string, chosen: seq<DepositMessage>)
    requires IsQuorum(ms, q, hash, chosen) && chosen != []
    ensures chosen[0] in ms && chosen[0].blockHash == hash && FirstIndex(ms, hash) < |ms|
  {
    LastOfIff(ms, hash, chosen[0].guardianAddress);
    assert LastOf(ms, hash, chosen[0].guardianAddress) == Some(chosen[0]);
  }

  /** The last vote for a block hash of the guardian who was the first to vote for it. */
  function DecidingVote(ms: seq<DepositMessage>, hash: string): Option<DepositMessage> {
    var first := FirstIndex(ms, hash);
    if first == |ms| then None else LastOf(ms, hash, ms[first].guardianAddress)
  }

  /** The call carries the payload of that vote, whatever the other messages of the quorum say. */
  lemma CallIsDecidingVote(c: Crypto, moduleId: int, v: QuorumView, filtered: seq<DepositMessage>,
                           quorum: seq<DepositMessage>)
    requires SelectedQuorum(filtered, v.minSigns) == Some(quorum) && AllChecked(c, moduleId, v, filtered)
    ensures quorum != [] && DecidingVote(filtered, quorum[0].blockHash) == Some(quorum[0])
    ensures PrepareGeneralTx(quorum).Ok? ==>
              PayloadOfCall(PrepareGeneralTx(quorum).value) == PayloadOf(quorum[0])
  {
    var hash := SelectionMeaning(filtered, v.minSigns);
    QuorumHash(filtered, v.minSigns, hash, quorum);
    FirstOfQuorum(filtered, v.minSigns, hash, quorum);
    assert Checked(c, moduleId, v, quorum[0]);
    CallFromFirst(c, v.prefix, v.guardians, quorum);
  }

  /** So the call carries the nonce read in the same cycle exactly when that vote does; the deposit contract
      refuses it otherwise. */
  lemma NonceIff(c: Crypto, moduleId: int, v: QuorumView, filtered: seq<DepositMessage>, quorum: seq<DepositMessage>)
    requires SelectedQuorum(filtered, v.minSigns) == Some(quorum) && AllChecked(c, moduleId, v, filtered)
    ensures quorum != [] && DecidingVote(filtered, quorum[0].blockHash).Some?
    ensures PrepareGeneralTx(quorum).Ok? ==>
              (PrepareGeneralTx(quorum).value.nonce == v.nonce
               <==> DecidingVote(filtered, quorum[0].blockHash).value.nonce == v.nonce)
  {
    CallIsDecidingVote(c, moduleId, v, filtered, quorum);
  }

  // ------------------------------------------------------------------
  // Choice of modules
  // ------------------------------------------------------------------

  datatype Digest = Digest(moduleId: int, exited: int, deposited: int)

  function ActiveValidators(): Digest -> int {
    (d: Digest) => d.deposited - d.exited
  }

  /** What a health check of one module reads. */
  datatype HealthView = HealthView(now: real, canDeposit: bool, keysAmount: int)

  predicate Healthy(h: HealthView, lastBeat: real, retention: real) {
    h.canDeposit && h.now - lastBeat <= retention && h.keysAmount >= 1
  }

  /** The position of the first healthy module, or the length. */
  function FirstHealthy(modules: seq<(int, bool)>): (k: nat)
    ensures k <= |modules|
    ensures k < |modules| ==> modules[k].1
    ensures forall j :: 0 <= j < k ==> !modules[j].1
  {
    if modules == [] || modules[0].1 then 0 else 1 + FirstHealthy(modules[1..])
  }

  function Ids(modules: seq<(int, bool)>): (ids: seq<int>)
    ensures |ids| == |modules|
    ensures forall i :: 0 <= i < |modules| ==> ids[i] == modules[i].0
  {
    seq(|modules|, i requires 0 <= i < |modules| => modules[i].0)
  }

  /** The modules up to and with the first healthy one; none when none is healthy. */
  function UntilHealthy(modules: seq<(int, bool)>): seq<int> {
    var k := FirstHealthy(modules);
    if k < |modules| then Ids(modules)[..k + 1] else []
  }

  /** `_take_until_first_healthy_module`. The result is a prefix that ends with a healthy module
      and holds no other; it is empty exactly when no module is healthy. */
  method TakeUntilFirstHealthy(modules: seq<(int, bool)>) returns (ids: seq<int>)
    ensures ids == UntilHealthy(modules)
    ensures ids == [] <==> forall i :: 0 <= i < |modules| ==> !modules[i].1
    ensures ids != [] ==>
              && |ids| <= |modules| && ids == Ids(modules)[..|ids|]
              && modules[|ids| - 1].1
              && forall i :: 0 <= i < |ids| - 1 ==> !modules[i].1
  {
    ids := [];
    for i := 0 to |modules|
      invariant ids == Ids(modules)[..i]
      invariant forall j :: 0 <= j < i ==> !modules[j].1
    {
      ids := ids + [modules[i].0];
      if modules[i].1 {
        return;
      }
    }
    ids := [];
  }

  function Allowed(ids: seq<int>, whitelist: set<int>): (r: seq<int>)
    ensures forall x :: x in r <==> x in ids && x in whitelist
  {
    if ids == [] then []
    else (if ids[0] in whitelist then [ids[0]] else []) + Allowed(ids[1..], whitelist)
  }

  // ------------------------------------------------------------------
  // The relay flag
  // ------------------------------------------------------------------

  /** One completed send: whether it used the relay, and whether it succeeded. */
  datatype Send = Send(relay: bool, success: bool)

  /** `_flashbots_works` after these sends. */
  function RelayAfter(sends: seq<Send>): bool {
    if sends == [] then true
    else var s := sends[|sends| - 1]; !s.relay || s.success
  }

  /** Each send used the flag the earlier ones left. */
  ghost predicate IsRun(sends: seq<Send>) {
    forall i :: 0 <= i < |sends| ==> sends[i].relay == RelayAfter(sends[..i])
  }

  lemma RunSnoc(sends: seq<Send>, s: Send)
    requires IsRun(sends) && s.relay == RelayAfter(sends)
    ensures IsRun(sends + [s]) && RelayAfter(sends + [s]) == (!s.relay || s.success)
  {
    var all := sends + [s];
    assert all[..|sends|] == sends;
    forall i | 0 <= i < |all|
      ensures all[i].relay == RelayAfter(all[..i])
    {
      if i < |sends| {
        assert all[..i] == sends[..i];
      }
    }
  }

  function CountOff(sends: seq<Send>): nat {
    if sends == [] then 0 else (if sends[|sends| - 1].relay then 0 else 1) + CountOff(sends[..|sends| - 1])
  }

  function CountFailedOn(sends: seq<Send>): nat {
    if sends == [] then 0
    else
      (if sends[|sends| - 1].relay && !sends[|sends| - 1].success then 1 else 0) + CountFailedOn(sends[..|sends| - 1])
  }

  /** A send without the relay follows each failed one with it, and nothing else. */
  lemma RelayAlternates(sends: seq<Send>, i: nat)
    requires IsRun(sends) && i + 1 < |sends|
    ensures !sends[i + 1].relay <==> sends[i].relay && !sends[i].success
  {
    assert sends[..i + 1][|sends[..i + 1]| - 1] == sends[i];
  }

  /** So the sends without the relay are as many as the failed ones with it, less one pending. */
  lemma {:induction false} RelayCounts(sends: seq<Send>)
    requires IsRun(sends)
    ensures CountFailedOn(sends) == CountOff(sends) + if RelayAfter(sends) then 0 else 1
    decreases |sends|
  {
    if sends != [] {
      var init := sends[..|sends| - 1];
      assert forall i :: 0 <= i < |init| ==> init[..i] == sends[..i];
      RelayCounts(init);
      assert sends[|init|].relay == RelayAfter(init);
    }
  }

  // ------------------------------------------------------------------
  // Heartbeats
  // ------------------------------------------------------------------

  /** A quorum seen for a module. */
  datatype Beat = Beat(time: real, moduleId: int)

  function LastBeat(beats: seq<Beat>, moduleId: int, start: real): real
    decreases |beats|
  {
    if beats == [] then start
    else if beats[|beats| - 1].moduleId == moduleId then beats[|beats| - 1].time
    else LastBeat(beats[..|beats| - 1], moduleId, start)
  }

  lemma LastBeatSnoc(beats: seq<Beat>, b: Beat, moduleId: int, start: real)
    ensures LastBeat(beats + [b], moduleId, start) ==
            if b.moduleId == moduleId then b.time else LastBeat(beats, moduleId, start)
  {
    assert (beats + [b])[..|beats|] == beats;
  }

  /** The clock does not go back, and construction came first. */
  ghost predicate Monotone(beats: seq<Beat>, start: real) {
    && (forall i :: 0 <= i < |beats| ==> start <= beats[i].time)
    && (forall i, j :: 0 <= i < j < |beats| ==> beats[i].time <= beats[j].time)
  }

  /** Under a monotone clock the heartbeat is the latest of construction and all quorums seen. */
  lemma {:induction false} HeartbeatIsLatest(beats: seq<Beat>, moduleId: int, start: real)
    requires Monotone(beats, start)
    ensures var t := LastBeat(beats, moduleId, start);
            && t >= start
            && (forall b :: b in beats && b.moduleId == moduleId ==> b.time <= t)
            && (t == start || Beat(t, moduleId) in beats)
    decreases |beats|
  {
    if beats != [] {
      var init, last := beats[..|beats| - 1], beats[|beats| - 1];
      HeartbeatIsLatest(init, moduleId, start);
      assert beats == init + [last];
      assert last in beats;
      forall b | b in beats && b.moduleId == moduleId
        ensures b.time <= LastBeat(beats, moduleId, start)
      {
        assert b in init || b == last;
        var i :| 0 <= i < |beats| && beats[i] == b;
      }
    }
  }

  // ------------------------------------------------------------------
  // The bot
  // ------------------------------------------------------------------

  datatype SendOutcome = SendSucceeds | SendFails | SendRaises

  /** What one deposit attempt meets; None is an answer that raises. */
  datatype AttemptView = AttemptView(canDeposit: Option<bool>, quorum: QuorumView, gasIsOk: Option<bool>,
                                     amountIsOk: Option<bool>, send: SendOutcome)

  /** What gathering the quorum of one module meets: the gas price is read first, for metrics only. */
  datatype GatherView = GatherView(gasIsRead: bool, quorum: QuorumView)

  /** What one cycle meets: the router's module ids (None when the balances checked first or the ids cannot be
      read), `gather(i)` for the i-th allowed module, the digests (None when they or the health of a module
      cannot be read), `health` by module id, `attempts(i)` for the i-th module tried. */
  datatype CycleView = CycleView(
    routerIds: Option<seq<int>>,
    gather: nat -> GatherView,
    now: real,
    digests: Option<seq<Digest>>,
    health: int -> HealthView,
    attempts: nat -> AttemptView)

  /** The modules to gather quorums for. */
  function AllowedIds(v: CycleView, whitelist: set<int>): seq<int> {
    if v.routerIds.None? then [] else Allowed(v.routerIds.value, whitelist)
  }

  lemma {:induction false} AllowedSelects(ids: seq<int>, whitelist: set<int>, keep: int -> bool) returns (at: seq<nat>)
    requires forall id :: keep(id) <==> id in whitelist
    ensures Selects(ids, Allowed(ids, whitelist), keep, at)
  {
    if ids == [] {
      at := [];
    } else {
      at := AllowedSelects(ids[1..], whitelist, keep);
      at := SelectsCons(ids, Allowed(ids[1..], whitelist), keep, at);
    }
  }

  /** They are those of the whitelist in the order of the router's answer and as often as it names them, and none
      without one. */
  lemma AllowedInOrder(v: CycleView, whitelist: set<int>, keep: int -> bool) returns (at: seq<nat>)
    requires forall id :: keep(id) <==> id in whitelist
    ensures match v.routerIds
            case None => AllowedIds(v, whitelist) == []
            case Some(ids) => Selects(ids, AllowedIds(v, whitelist), keep, at)
  {
    at := [];
    if v.routerIds.Some? {
      at := AllowedSelects(v.routerIds.value, whitelist, keep);
    }
  }

  /** The router answers with digests of modules it was asked for. */
  ghost predicate DigestsOfAllowed(v: CycleView, whitelist: set<int>) {
    v.digests.Some? ==> forall d :: d in v.digests.value ==> d.moduleId in AllowedIds(v, whitelist)
  }

  /** The messages stored and the quorums seen. */
  datatype Pulse = Pulse(store: seq<Message>, beats: seq<Beat>)

  function BeatOf(quorum: Result<Option<seq<DepositMessage>>, BotError>, id: int, now: real): seq<Beat> {
    if quorum.Ok? && quorum.value.Some? then [Beat(now, id)] else []
  }

  /** One turn of the gathering loop, and whether it raises. */
  function GatherNext(f: Filters, g: Pulse, id: int, v: GatherView, now: real): (Pulse, bool) {
    if !v.gasIsRead then (g, true)
    else
      var quorum := QuorumOf(f, g.store, id, v.quorum);
      (Pulse(Step(f.intake, g.store, QuorumOp(f, v.quorum)), g.beats + BeatOf(quorum, id, now)), quorum.Err?)
  }

  function GathererOf(f: Filters, gather: nat -> GatherView, now: real): Handler<Pulse, int> {
    (g: Pulse, id: int, k: nat) => GatherNext(f, g, id, gather(k), now)
  }

  ghost predicate IsGatherer(handle: Handler<Pulse, int>, f: Filters, gather: nat -> GatherView, now: real) {
    forall g, id, k {:trigger GatherNext(f, g, id, gather(k), now)} ::
      handle(g, id, k) == GatherNext(f, g, id, gather(k), now)
  }

  /** New heartbeats carry the one time read before the loop, and name modules of the list. */
  ghost predicate BeatsAt(before: seq<Beat>, all: seq<Beat>, now: real, ids: seq<int>) {
    before <= all && forall k :: |before| <= k < |all| ==> all[k].time == now && all[k].moduleId in ids
  }

  lemma GatherStep(f: Filters, ids: seq<int>, id: int, v: GatherView, now: real, before: seq<Beat>, g: Pulse)
    requires id in ids && BeatsAt(before, g.beats, now, ids)
    ensures BeatsAt(before, GatherNext(f, g, id, v, now).0.beats, now, ids)
  {
  }

  lemma {:induction false} GatherAppends(handle: Handler<Pulse, int>, f: Filters, ids: seq<int>,
                                         gather: nat -> GatherView, now: real, k: nat, before: seq<Beat>, g: Pulse)
    requires IsGatherer(handle, f, gather, now) && k <= |ids| && BeatsAt(before, g.beats, now, ids)
    ensures BeatsAt(before, RunFrom(handle, ids, k, g).state.beats, now, ids)
    decreases |ids| - k
  {
    if k < |ids| {
      var (g', stops) := handle(g, ids[k], k);
      GatherStep(f, ids, ids[k], gather(k), now, before, g);
      if !stops {
        GatherAppends(handle, f, ids, gather, now, k + 1, before, g');
      }
    }
  }

  /** A turn leaves the refreshed store, unless the gas price cannot be read. */
  lemma GatherStores(c: Crypto, f: Filters, g: Pulse, id: int, v: GatherView, now: real)
    requires AreFilters(f, c)
    ensures !v.gasIsRead ==> GatherNext(f, g, id, v, now).0.store == g.store
    ensures v.gasIsRead ==> Refreshed(c, f, g.store, v.quorum, GatherNext(f, g, id, v, now).0.store)
    ensures GatherNext(f, g, id, v, now).1 <==> v.gasIsRead ==> QuorumOf(f, g.store, id, v.quorum).Err?
  {
    RefreshKeeps(c, f, g.store, v.quorum);
  }

  /** The k-th turn reads its gas price and then finds a quorum for its module in the store that the earlier turns
      leave. */
  predicate SeesQuorum(handle: Handler<Pulse, int>, f: Filters, ids: seq<int>, gather: nat -> GatherView, g: Pulse,
                       k: nat)
    requires k < |ids|
  {
    var quorum := QuorumOf(f, After(handle, ids, g, k).store, ids[k], gather(k).quorum);
    gather(k).gasIsRead && quorum.Ok? && quorum.value.Some?
  }

  /** The heartbeat of each turn. */
  function BeatGiven(handle: Handler<Pulse, int>, f: Filters, ids: seq<int>, gather: nat -> GatherView, now: real,
                     g: Pulse): nat -> Option<Beat>
  {
    (k: nat) => if k < |ids| && SeesQuorum(handle, f, ids, gather, g, k) then Some(Beat(now, ids[k])) else None
  }

  function BeatsIn(): Pulse -> seq<Beat> {
    (g: Pulse) => g.beats
  }

  lemma BeatAdded(handle: Handler<Pulse, int>, f: Filters, ids: seq<int>, gather: nat -> GatherView, now: real,
                  g: Pulse, k: nat, gives: nat -> Option<Beat>)
    requires IsGatherer(handle, f, gather, now) && k < |ids|
    requires gives(k) == BeatGiven(handle, f, ids, gather, now, g)(k)
    ensures Adds(handle, ids, g, BeatsIn(), gives, k)
  {
    var before := After(handle, ids, g, k);
    assert handle(before, ids[k], k) == GatherNext(f, before, ids[k], gather(k), now);
  }

  /** These turns are those that see a quorum, and `all` holds a new heartbeat for each. */
  ghost predicate AreSeen(handle: Handler<Pulse, int>, f: Filters, ids: seq<int>, gather: nat -> GatherView, now: real,
                          g: Pulse, n: nat, turns: seq<nat>, all: seq<Beat>)
    requires n <= |ids|
  {
    && (forall i, j :: 0 <= i < j < |turns| ==> turns[i] < turns[j])
    && (forall k: nat :: k in turns <==> k < n && SeesQuorum(handle, f, ids, gather, g, k))
    && g.beats <= all && |all| == |g.beats| + |turns|
    && forall i :: 0 <= i < |turns| ==> turns[i] < |ids| && all[|g.beats| + i] == Beat(now, ids[turns[i]])
  }

  lemma GivenAreSeen(handle: Handler<Pulse, int>, f: Filters, ids: seq<int>, gather: nat -> GatherView, now: real,
                     g: Pulse, n: nat, turns: seq<nat>, gives: nat -> Option<Beat>)
    requires n <= |ids| && gives == BeatGiven(handle, f, ids, gather, now, g) && AreTurns(gives, n, turns)
    requires forall i :: 0 <= i < |turns| ==> gives(turns[i]).Some?
    ensures AreSeen(handle, f, ids, gather, now, g, n, turns, g.beats + Given(gives, turns))
  {
    assert forall i :: 0 <= i < |turns| ==> turns[i] in turns;
  }

  /** The first n turns of the gathering loop leave a heartbeat for each of them that sees a quorum, in order, and
      no other. */
  lemma BeatsInOrder(handle: Handler<Pulse, int>, f: Filters, ids: seq<int>, gather: nat -> GatherView, now: real,
                     g: Pulse, n: nat) returns (turns: seq<nat>)
    requires IsGatherer(handle, f, gather, now) && n <= |ids|
    ensures AreSeen(handle, f, ids, gather, now, g, n, turns, After(handle, ids, g, n).beats)
  {
    var list, gives := BeatsIn(), BeatGiven(handle, f, ids, gather, now, g);
    forall k: nat | k < n
      ensures Adds(handle, ids, g, list, gives, k)
    {
      BeatAdded(handle, f, ids, gather, now, g, k, gives);
    }
    turns := GivenInOrder(handle, ids, g, n, list, gives);
    GivenAreSeen(handle, f, ids, gather, now, g, n, turns, gives);
  }

  /** The modules in order of active validators, each with its health. */
  function Healthiness(sorted: seq<Digest>, beats: map<int, real>, health: int -> HealthView, retention: real)
    : (r: seq<(int, bool)>)
    requires forall d :: d in sorted ==> d.moduleId in beats
    ensures |r| == |sorted|
    ensures forall i :: 0 <= i < |sorted| ==>
              r[i] == (sorted[i].moduleId, Healthy(health(sorted[i].moduleId), beats[sorted[i].moduleId], retention))
  {
    if sorted == [] then []
    else
      var id := sorted[0].moduleId;
      assert sorted[0] in sorted;
      [(id, Healthy(health(id), beats[id], retention))] + Healthiness(sorted[1..], beats, health, retention)
  }

  /** The last heartbeat of each module of the whitelist. */
  function HeartBeats(whitelist: set<int>, start: real, beats: seq<Beat>): map<int, real> {
    map id | id in whitelist :: LastBeat(beats, id, start)
  }

  /** The choice of modules for these heartbeats: sorted by active validators, cut after the first
      healthy one. */
  function ChosenModules(digests: seq<Digest>, health: int -> HealthView, beats: map<int, real>, retention: real)
    : seq<int>
    requires forall d :: d in digests ==> d.moduleId in beats
  {
    var sorted := SortBy(digests, ActiveValidators());
    SortLength(digests, ActiveValidators());
    assert forall d :: d in sorted ==> d in digests;
    UntilHealthy(Healthiness(sorted, beats, health, retention))
  }

  lemma UntilHealthyMeaning(modules: seq<(int, bool)>)
    ensures var tried := UntilHealthy(modules);
            && |tried| <= |modules|
            && (tried == [] <==> forall i :: 0 <= i < |modules| ==> !modules[i].1)
            && forall i :: 0 <= i < |tried| ==> tried[i] == modules[i].0 && (modules[i].1 <==> i == |tried| - 1)
  {
    var k := FirstHealthy(modules);
    assert k < |modules| ==> UntilHealthy(modules)[k] == Ids(modules)[k];
  }

  /** Deposits to the module are allowed, it has keys to deposit, and its last quorum is fresh. */
  predicate HealthyModule(health: int -> HealthView, beats: map<int, real>, retention: real, id: int)
    requires id in beats
  {
    && health(id).canDeposit && health(id).keysAmount >= 1
    && health(id).now - beats[id] <= retention
  }

  /** The modules tried are the first ones in this order, up to and with the first healthy one. */
  ghost predicate TriesUpTo(tried: seq<int>, sorted: seq<Digest>, health: int -> HealthView, beats: map<int, real>,
                            retention: real)
    requires forall d :: d in sorted ==> d.moduleId in beats
  {
    && |tried| <= |sorted|
    && forall i :: 0 <= i < |tried| ==>
         && sorted[i] in sorted && tried[i] == sorted[i].moduleId
         && (HealthyModule(health, beats, retention, tried[i]) <==> i == |tried| - 1)
  }

  lemma SortedChoice(sorted: seq<Digest>, health: int -> HealthView, beats: map<int, real>, retention: real)
    requires forall d :: d in sorted ==> d.moduleId in beats
    ensures var tried := UntilHealthy(Healthiness(sorted, beats, health, retention));
            && (tried == [] <==> forall d :: d in sorted ==> !HealthyModule(health, beats, retention, d.moduleId))
            && TriesUpTo(tried, sorted, health, beats, retention)
  {
    var modules := Healthiness(sorted, beats, health, retention);
    UntilHealthyMeaning(modules);
    assert forall i :: 0 <= i < |sorted| ==>
                         sorted[i] in sorted
                         && modules[i].1 == HealthyModule(health, beats, retention, sorted[i].moduleId);
  }

  /** The one digest has at most as many active validators as the other: those deposited less those exited. */
  predicate NotMore(d: Digest, e: Digest) {
    d.deposited - d.exited <= e.deposited - e.exited
  }

  /** The last of them has the fewest active validators of all healthy ones. */
  lemma FewestOfHealthy(tried: seq<int>, sorted: seq<Digest>, health: int -> HealthView, beats: map<int, real>,
                        retention: real, d: Digest)
    requires forall d :: d in sorted ==> d.moduleId in beats
    requires SortedBy(sorted, ActiveValidators()) && TriesUpTo(tried, sorted, health, beats, retention)
    requires tried != [] && d in sorted && HealthyModule(health, beats, retention, d.moduleId)
    ensures NotMore(sorted[|tried| - 1], d)
  {
    var i :| 0 <= i < |sorted| && sorted[i] == d;
    assert i < |tried| ==> tried[i] == d.moduleId;
  }

  /** The choice is empty exactly when no module of the router's answer is healthy. Otherwise it is the start
      of the digests in the order of active validators, its last module is healthy and no earlier one is, and
      no healthy module has fewer active validators than that one. */
  lemma ChoiceMeaning(digests: seq<Digest>, health: int -> HealthView, beats: map<int, real>, retention: real)
    requires forall d :: d in digests ==> d.moduleId in beats
    ensures var tried := ChosenModules(digests, health, beats, retention);
            var sorted := SortBy(digests, ActiveValidators());
            && (forall d :: d in sorted <==> d in digests)
            && (forall i, j :: 0 <= i < j < |sorted| ==> NotMore(sorted[i], sorted[j]))
            && (tried == [] <==> forall d :: d in digests ==> !HealthyModule(health, beats, retention, d.moduleId))
            && TriesUpTo(tried, sorted, health, beats, retention)
            && (tried != [] ==>
                  forall d :: d in digests && HealthyModule(health, beats, retention, d.moduleId) ==>
                            NotMore(sorted[|tried| - 1], d))
  {
    var key := ActiveValidators();
    var sorted := SortBy(digests, key);
    var tried := ChosenModules(digests, health, beats, retention);
    SortLength(digests, key);
    SortIsStable(digests, key);
    assert forall d :: d in sorted <==> d in digests;
    SortedChoice(sorted, health, beats, retention);
    if tried != [] {
      forall d | d in digests && HealthyModule(health, beats, retention, d.moduleId)
        ensures NotMore(sorted[|tried| - 1], d)
      {
        FewestOfHealthy(tried, sorted, health, beats, retention, d);
      }
    }
  }

  // ------------------------------------------------------------------
  // Attempts
  // ------------------------------------------------------------------

  /** What one attempt comes to: its result, the call built and the send completed, if any. */
  datatype Attempt = Attempt(result: Result<bool, BotError>, calls: seq<DepositCall>, made: seq<Send>)

  /** `_deposit_to_module` on a store that holds `store`, with the relay flag `relay`. */
  function Attempted(f: Filters, store: seq<Message>, relay: bool, moduleId: int, a: AttemptView): Attempt {
    if a.canDeposit.None? then Attempt(Err(BotError.BotError), [], [])
    else
      var quorum := QuorumOf(f, store, moduleId, a.quorum);
      if quorum.Err? || a.gasIsOk.None? || a.amountIsOk.None? then Attempt(Err(BotError.BotError), [], [])
      else if !a.canDeposit.value || quorum.value.None? || !a.gasIsOk.value || !a.amountIsOk.value
      then Attempt(Ok(false), [], [])
      else Submitted(PrepareGeneralTx(quorum.value.value), relay, a.send)
  }

  function Submitted(tx: Result<DepositCall, SenderError>, relay: bool, send: SendOutcome): Attempt {
    if tx.Err? then Attempt(Err(BotError.BotError), [], [])
    else if send.SendRaises? then Attempt(Err(BotError.BotError), [tx.value], [])
    else Attempt(Ok(send.SendSucceeds?), [tx.value], [Send(relay, send.SendSucceeds?)])
  }

  /** The stored messages after the attempt: its first read may raise before the refresh. */
  function StoreAfterAttempt(f: Filters, store: seq<Message>, a: AttemptView): seq<Message> {
    if a.canDeposit.None? then store else Step(f.intake, store, QuorumOp(f, a.quorum))
  }

  /** An attempt leaves the refreshed store, unless its first read raises. */
  lemma AttemptStores(c: Crypto, f: Filters, store: seq<Message>, a: AttemptView)
    requires AreFilters(f, c)
    ensures a.canDeposit.None? ==> StoreAfterAttempt(f, store, a) == store
    ensures a.canDeposit.Some? ==> Refreshed(c, f, store, a.quorum, StoreAfterAttempt(f, store, a))
  {
    RefreshKeeps(c, f, store, a.quorum);
  }

  /** An attempt completes at most one send, and succeeds exactly when that send does. */
  lemma AttemptFacts(f: Filters, store: seq<Message>, relay: bool, moduleId: int, a: AttemptView)
    ensures var t := Attempted(f, store, relay, moduleId, a);
            && |t.made| <= 1 && (forall s :: s in t.made ==> s.relay == relay)
            && (t.result == Ok(true) <==> LastSucceeds(t.made))
  {
    var quorum := QuorumOf(f, store, moduleId, a.quorum);
    if quorum.Ok? && quorum.value.Some? {
      SubmittedFacts(PrepareGeneralTx(quorum.value.value), relay, a.send);
    }
  }

  lemma SubmittedFacts(tx: Result<DepositCall, SenderError>, relay: bool, send: SendOutcome)
    ensures var t := Submitted(tx, relay, send);
            && |t.made| <= 1 && (forall s :: s in t.made ==> s.relay == relay)
            && (t.result == Ok(true) <==> LastSucceeds(t.made))
  {
  }

  /** The call is what the sender builds from the quorum for the module in this store. */
  predicate BuiltFrom(f: Filters, store: seq<Message>, moduleId: int, v: QuorumView, call: DepositCall) {
    var quorum := QuorumOf(f, store, moduleId, v);
    quorum.Ok? && quorum.value.Some? && PrepareGeneralTx(quorum.value.value) == Ok(call)
  }

  /** Its calls are at most one, the one built from the quorum of the store it meets. */
  lemma AttemptCalls(f: Filters, store: seq<Message>, relay: bool, moduleId: int, a: AttemptView)
    ensures forall call :: call in Attempted(f, store, relay, moduleId, a).calls ==>
                             BuiltFrom(f, store, moduleId, a.quorum, call)
  {
  }

  /** Deposits are allowed, gas price and amount are fine, and this call is built from the quorum. */
  predicate Ready(f: Filters, store: seq<Message>, moduleId: int, a: AttemptView, call: DepositCall) {
    && a.canDeposit == Some(true) && a.gasIsOk == Some(true) && a.amountIsOk == Some(true)
    && BuiltFrom(f, store, moduleId, a.quorum, call)
  }

  /** Every answer is there, and one of them, or a missing quorum, speaks against a deposit. */
  predicate Declined(f: Filters, store: seq<Message>, moduleId: int, a: AttemptView) {
    var quorum := QuorumOf(f, store, moduleId, a.quorum);
    && a.canDeposit.Some? && a.gasIsOk.Some? && a.amountIsOk.Some? && quorum.Ok?
    && (a.canDeposit == Some(false) || a.gasIsOk == Some(false) || a.amountIsOk == Some(false) || quorum.value.None?)
  }

  /** When an attempt builds a call, what it sends, and what its result means: True is a successful send, False a
      failed one or a declined deposit; everything else raises. */
  lemma AttemptMeaning(f: Filters, store: seq<Message>, relay: bool, moduleId: int, a: AttemptView)
    ensures var t := Attempted(f, store, relay, moduleId, a);
            && |t.calls| <= 1 && (forall call :: call in t.calls <==> Ready(f, store, moduleId, a, call))
            && t.made == (if t.calls != [] && !a.send.SendRaises? then [Send(relay, a.send.SendSucceeds?)] else [])
            && (t.result == Ok(true) <==> t.calls != [] && a.send.SendSucceeds?)
            && (t.result == Ok(false)
                <==> (t.calls != [] && a.send.SendFails?) || Declined(f, store, moduleId, a))
  {
    var quorum := QuorumOf(f, store, moduleId, a.quorum);
    assert a.canDeposit.Some? && !a.canDeposit.value ==> a.canDeposit == Some(false);
    assert a.gasIsOk.Some? && !a.gasIsOk.value ==> a.gasIsOk == Some(false);
    assert a.amountIsOk.Some? && !a.amountIsOk.value ==> a.amountIsOk == Some(false);
    if quorum.Ok? && quorum.value.Some? && PrepareGeneralTx(quorum.value.value).Ok? {
      var call := PrepareGeneralTx(quorum.value.value).value;
      assert BuiltFrom(f, store, moduleId, a.quorum, call);
    }
  }

  /** Among the messages that pass every check some block hash has the required number of guardians, or none. */
  lemma QuorumFoundIff(f: Filters, store: seq<Message>, moduleId: int, v: QuorumView)
    requires Rebound(f.intake, store, QuorumOp(f, v)).Some?
    ensures QuorumOf(f, store, moduleId, v).Ok?
    ensures QuorumOf(f, store, moduleId, v).value.None?
            <==> NoQuorum(FilteredMessages(f, store, moduleId, v), v.minSigns)
  {
    var hash := SelectionMeaning(FilteredMessages(f, store, moduleId, v), v.minSigns);
  }

  predicate LastSucceeds(sends: seq<Send>) {
    sends != [] && sends[|sends| - 1].success
  }

  /** At most the last of these sends succeeded. */
  ghost predicate OnlyLastSucceeds(sends: seq<Send>) {
    forall i :: 0 <= i < |sends| - 1 ==> !sends[i].success
  }

  /** What a bot has kept: its stored messages, its completed sends and the quorums it has seen. */
  datatype BotState = BotState(store: seq<Message>, sends: seq<Send>, beats: seq<Beat>)

  /** The loop of `execute` so far: the state, the calls built, and the result of the last attempt. */
  datatype Tries = Tries(state: BotState, calls: seq<DepositCall>, result: Result<bool, BotError>)

  /** One more attempt; it stops the loop unless it returns False. */
  function TryNext(f: Filters, t: Tries, id: int, a: AttemptView): (Tries, bool) {
    var s := t.state;
    var done := Attempted(f, s.store, RelayAfter(s.sends), id, a);
    (Tries(BotState(StoreAfterAttempt(f, s.store, a), s.sends + done.made, s.beats), t.calls + done.calls, done.result),
     done.result != Ok(false))
  }

  function AttempterOf(f: Filters, attempts: nat -> AttemptView): Handler<Tries, int> {
    (t: Tries, id: int, k: nat) => TryNext(f, t, id, attempts(k))
  }

  ghost predicate IsAttempter(handle: Handler<Tries, int>, f: Filters, attempts: nat -> AttemptView) {
    forall t, id, k {:trigger TryNext(f, t, id, attempts(k))} :: handle(t, id, k) == TryNext(f, t, id, attempts(k))
  }

  /** The loop of `execute` over the chosen modules, from some state on, with the answers its attempts meet. */
  datatype TryLoop = TryLoop(filters: Filters, start: BotState, modules: seq<int>, attempts: nat -> AttemptView,
                             handle: Handler<Tries, int>)

  ghost predicate IsTryLoop(l: TryLoop) {
    IsAttempter(l.handle, l.filters, l.attempts)
  }

  function TryLoopOf(f: Filters, s: BotState, modules: seq<int>, attempts: nat -> AttemptView): (l: TryLoop)
    ensures IsTryLoop(l)
  {
    TryLoop(f, s, modules, attempts, AttempterOf(f, attempts))
  }

  /** The whole loop. */
  function TryAll(l: TryLoop): Run<Tries> {
    RunFrom(l.handle, l.modules, 0, Tries(l.start, [], Ok(false)))
  }

  /** The state before the k-th attempt. */
  function StateAt(l: TryLoop, k: nat): Tries
    requires k <= |l.modules|
  {
    After(l.handle, l.modules, Tries(l.start, [], Ok(false)), k)
  }

  /** The k-th attempt, on the stored messages and the relay flag that the earlier ones leave. */
  function AttemptAt(l: TryLoop, k: nat): Attempt
    requires k < |l.modules|
  {
    var before := StateAt(l, k).state;
    Attempted(l.filters, before.store, RelayAfter(before.sends), l.modules[k], l.attempts(k))
  }

  /** The k-th attempt ends the loop. */
  predicate Ends(l: TryLoop, k: nat)
    requires k < |l.modules|
  {
    StopsAt(l.handle, l.modules, Tries(l.start, [], Ok(false)), k)
  }

  lemma AttemptStep(l: TryLoop, k: nat)
    requires IsTryLoop(l) && k < |l.modules|
    ensures var before, after, a := StateAt(l, k), StateAt(l, k + 1), AttemptAt(l, k);
            && after.state.sends == before.state.sends + a.made && after.calls == before.calls + a.calls
            && after.result == a.result && after.state.beats == before.state.beats
            && (Ends(l, k) <==> a.result != Ok(false))
  {
    var before := StateAt(l, k);
    assert l.handle(before, l.modules[k], k) == TryNext(l.filters, before, l.modules[k], l.attempts(k));
  }

  /** The end of the loop. */
  lemma TryAllEnds(l: TryLoop)
    ensures var r := TryAll(l);
            var n := Started(r);
            && n <= |l.modules| && r.state == StateAt(l, n)
            && (n < |l.modules| ==> n > 0 && Ends(l, n - 1))
  {
    RunEnds(l.handle, l.modules, Tries(l.start, [], Ok(false)));
  }

  lemma GoesOn(l: TryLoop, k: nat)
    requires k + 1 < Started(TryAll(l))
    ensures k < |l.modules| && !Ends(l, k)
  {
    RunEnds(l.handle, l.modules, Tries(l.start, [], Ok(false)));
  }

  /** An attempt that ends the loop did not return False; its result is that of the loop so far. */
  lemma AttemptEnds(l: TryLoop, k: nat)
    requires IsTryLoop(l) && k < |l.modules|
    ensures Ends(l, k) <==> AttemptAt(l, k).result != Ok(false)
    ensures StateAt(l, k + 1).result == AttemptAt(l, k).result
  {
    AttemptStep(l, k);
  }

  /** Every attempt but the last returned False. */
  lemma EarlierFail(l: TryLoop, k: nat)
    requires IsTryLoop(l) && k + 1 < Started(TryAll(l))
    ensures k < |l.modules| && AttemptAt(l, k).result == Ok(false)
  {
    GoesOn(l, k);
    AttemptEnds(l, k);
  }

  lemma EndsOnResult(l: TryLoop, k: nat)
    requires IsTryLoop(l) && k < |l.modules| && Ends(l, k)
    ensures StateAt(l, k + 1).result != Ok(false)
  {
    AttemptEnds(l, k);
  }

  lemma StopsOnResult(l: TryLoop)
    requires IsTryLoop(l) && Started(TryAll(l)) < |l.modules|
    ensures TryAll(l).state.result != Ok(false)
  {
    TryAllEnds(l);
    EndsOnResult(l, Started(TryAll(l)) - 1);
  }

  lemma LastResult(l: TryLoop, n: nat)
    requires IsTryLoop(l) && n <= |l.modules|
    ensures StateAt(l, n).result == if n == 0 then Ok(false) else AttemptAt(l, n - 1).result
  {
    if n == 0 {
      assert StateAt(l, 0) == Tries(l.start, [], Ok(false));
    } else {
      var k := n - 1;
      AttemptEnds(l, k);
      assert StateAt(l, n).result == AttemptAt(l, k).result;
    }
  }

  /** The modules are tried in the chosen order until an attempt succeeds or raises: every attempt but the
      last returned False, the last one's result is that of the run, and none is left out before it. */
  lemma TriesInOrder(l: TryLoop)
    requires IsTryLoop(l)
    ensures var r := TryAll(l);
            var n := Started(r);
            && n <= |l.modules| && r.state == StateAt(l, n)
            && (forall k: nat :: k + 1 < n ==> AttemptAt(l, k).result == Ok(false))
            && r.state.result == (if n == 0 then Ok(false) else AttemptAt(l, n - 1).result)
            && (n < |l.modules| ==> r.state.result != Ok(false))
  {
    var n := Started(TryAll(l));
    TryAllEnds(l);
    LastResult(l, n);
    if n < |l.modules| {
      StopsOnResult(l);
    }
    forall k: nat | k + 1 < n
      ensures AttemptAt(l, k).result == Ok(false)
    {
      EarlierFail(l, k);
    }
  }

  /** The sends that these attempts complete. */
  function MadeBy(done: seq<Attempt>): seq<Send>
    decreases |done|
  {
    if done == [] then [] else MadeBy(done[..|done| - 1]) + done[|done| - 1].made
  }

  /** An attempt completes at most one send, and succeeds exactly when that does. */
  predicate SendsOnce(a: Attempt) {
    |a.made| <= 1 && (a.result == Ok(true) <==> LastSucceeds(a.made))
  }

  /** When all attempts but the last returned False, at most the last of their sends succeeded. */
  lemma {:induction false} LastOnly(done: seq<Attempt>)
    requires forall k :: 0 <= k < |done| ==> SendsOnce(done[k])
    requires forall k :: 0 <= k < |done| - 1 ==> done[k].result == Ok(false)
    ensures OnlyLastSucceeds(MadeBy(done)) && |MadeBy(done)| <= |done|
    ensures LastSucceeds(MadeBy(done)) <==> done != [] && done[|done| - 1].result == Ok(true)
    decreases |done|
  {
    if done != [] {
      var init, last := done[..|done| - 1], done[|done| - 1];
      LastOnly(init);
      assert init != [] ==> init[|init| - 1].result == Ok(false);
      AppendSend(MadeBy(init), last.made);
    }
  }

  lemma AppendSend(made: seq<Send>, more: seq<Send>)
    requires OnlyLastSucceeds(made) && !LastSucceeds(made) && |more| <= 1
    ensures OnlyLastSucceeds(made + more) && |made + more| <= |made| + 1
    ensures LastSucceeds(made + more) <==> LastSucceeds(more)
  {
    assert forall k :: 0 <= k < |made| ==> !made[k].success;
  }

  /** These are the first attempts of the loop. */
  ghost predicate AreFirst(l: TryLoop, done: seq<Attempt>) {
    |done| <= |l.modules| && forall j: nat {:trigger AttemptAt(l, j)} :: j < |done| ==> done[j] == AttemptAt(l, j)
  }

  lemma {:induction false} SendsAt(l: TryLoop, done: seq<Attempt>)
    requires IsTryLoop(l) && AreFirst(l, done)
    ensures StateAt(l, |done|).state.sends == l.start.sends + MadeBy(done)
    ensures StateAt(l, |done|).state.beats == l.start.beats
    decreases |done|
  {
    if done != [] {
      var k := |done| - 1;
      SendsAt(l, done[..k]);
      AttemptStep(l, k);
      ConcatAssoc(l.start.sends, MadeBy(done[..k]), done[k].made);
    }
  }

  lemma FirstAttempts(l: TryLoop, k: nat) returns (done: seq<Attempt>)
    requires k <= |l.modules|
    ensures |done| == k && AreFirst(l, done) && forall j :: 0 <= j < k ==> SendsOnce(done[j])
  {
    done := seq(k, j requires 0 <= j < k => AttemptAt(l, j));
    forall j | 0 <= j < k
      ensures SendsOnce(done[j])
    {
      var at := StateAt(l, j).state;
      AttemptFacts(l.filters, at.store, RelayAfter(at.sends), l.modules[j], l.attempts(j));
    }
  }

  lemma ResultOfLast(l: TryLoop, done: seq<Attempt>)
    requires IsTryLoop(l) && AreFirst(l, done)
    ensures done != [] ==> StateAt(l, |done|).result == done[|done| - 1].result
  {
    if done != [] {
      var k := |done| - 1;
      assert done[k] == AttemptAt(l, k);
      AttemptEnds(l, k);
    }
  }

  /** All these attempts but the last returned False. */
  lemma AttemptsFail(l: TryLoop, done: seq<Attempt>)
    requires IsTryLoop(l) && AreFirst(l, done) && |done| == Started(TryAll(l))
    ensures forall k :: 0 <= k < |done| - 1 ==> done[k].result == Ok(false)
  {
    forall k | 0 <= k < |done| - 1
      ensures done[k].result == Ok(false)
    {
      EarlierFail(l, k);
    }
  }

  /** At most the last completed send of an execution succeeds, and it does exactly when the loop returns
      True; trying modules adds no heartbeat. */
  lemma OneSuccess(l: TryLoop) returns (made: seq<Send>)
    requires IsTryLoop(l)
    ensures var t := TryAll(l).state;
            && t.state.sends == l.start.sends + made && |made| <= |l.modules| && OnlyLastSucceeds(made)
            && (t.result == Ok(true) <==> LastSucceeds(made)) && t.state.beats == l.start.beats
  {
    TryAllEnds(l);
    var done := FirstAttempts(l, Started(TryAll(l)));
    AttemptsFail(l, done);
    ResultOfLast(l, done);
    SendsAt(l, done);
    LastOnly(done);
    made := MadeBy(done);
  }

  /** The k-th attempt is ready to send this call, on the stored messages that the earlier ones leave. */
  predicate ReadyAt(l: TryLoop, k: nat, call: DepositCall)
    requires k < |l.modules|
  {
    Ready(l.filters, StateAt(l, k).state.store, l.modules[k], l.attempts(k), call)
  }

  /** The call of each turn. */
  function CallGiven(l: TryLoop): nat -> Option<DepositCall> {
    (k: nat) => if k < |l.modules| && AttemptAt(l, k).calls != [] then Some(AttemptAt(l, k).calls[0]) else None
  }

  function CallsIn(): Tries -> seq<DepositCall> {
    (t: Tries) => t.calls
  }

  lemma CallGivenIff(l: TryLoop, k: nat, call: DepositCall)
    requires k < |l.modules|
    ensures CallGiven(l)(k) == Some(call) <==> ReadyAt(l, k, call)
  {
    var at := StateAt(l, k).state;
    AttemptMeaning(l.filters, at.store, RelayAfter(at.sends), l.modules[k], l.attempts(k));
    assert call in AttemptAt(l, k).calls <==> AttemptAt(l, k).calls == [call];
  }

  lemma CallAdded(l: TryLoop, k: nat, gives: nat -> Option<DepositCall>)
    requires IsTryLoop(l) && k < |l.modules| && gives(k) == CallGiven(l)(k)
    ensures Adds(l.handle, l.modules, Tries(l.start, [], Ok(false)), CallsIn(), gives, k)
  {
    var at := StateAt(l, k).state;
    AttemptStep(l, k);
    AttemptMeaning(l.filters, at.store, RelayAfter(at.sends), l.modules[k], l.attempts(k));
  }

  /** Which call each attempt is ready to send. */
  function ReadyCalls(l: TryLoop): (nat, DepositCall) -> bool {
    (k: nat, call: DepositCall) => k < |l.modules| && ReadyAt(l, k, call)
  }

  /** These are the turns before the n-th that are ready to send a call, and these calls are theirs. */
  ghost predicate AreSent(ready: (nat, DepositCall) -> bool, n: nat, turns: seq<nat>, calls: seq<DepositCall>) {
    && (forall i, j :: 0 <= i < j < |turns| ==> turns[i] < turns[j])
    && (forall k: nat :: k in turns <==> k < n && exists call :: ready(k, call))
    && |calls| == |turns|
    && forall i :: 0 <= i < |turns| ==> ready(turns[i], calls[i])
  }

  lemma GivenAreSent(ready: (nat, DepositCall) -> bool, n: nat, turns: seq<nat>, gives: nat -> Option<DepositCall>,
                     calls: seq<DepositCall>)
    requires AreTurns(gives, n, turns) && forall i :: 0 <= i < |turns| ==> gives(turns[i]).Some?
    requires forall k: nat, call :: k < n ==> (gives(k) == Some(call) <==> ready(k, call))
    requires calls == [] + Given(gives, turns)
    ensures AreSent(ready, n, turns, calls)
  {
    forall k: nat | k < n
      ensures gives(k).Some? <==> exists call :: ready(k, call)
    {
      assert gives(k).Some? ==> ready(k, gives(k).value);
    }
    forall i | 0 <= i < |turns|
      ensures ready(turns[i], calls[i])
    {
      assert turns[i] in turns && gives(turns[i]) == Some(calls[i]);
    }
  }

  /** The calls of the loop are those of the started attempts that were ready: one for each, in their order. So a
      module that is reached with all checks passed gets its call. */
  lemma CallsInOrder(l: TryLoop) returns (turns: seq<nat>)
    requires IsTryLoop(l)
    ensures Started(TryAll(l)) <= |l.modules|
    ensures AreSent(ReadyCalls(l), Started(TryAll(l)), turns, TryAll(l).state.calls)
  {
    var p, list, gives, n := Tries(l.start, [], Ok(false)), CallsIn(), CallGiven(l), Started(TryAll(l));
    TryAllEnds(l);
    forall k: nat | k < n
      ensures Adds(l.handle, l.modules, p, list, gives, k)
    {
      CallAdded(l, k, gives);
    }
    turns := GivenInOrder(l.handle, l.modules, p, n, list, gives);
    var ready := ReadyCalls(l);
    forall k: nat, call | k < n
      ensures gives(k) == Some(call) <==> ready(k, call)
    {
      CallGivenIff(l, k, call);
    }
    GivenAreSent(ready, n, turns, gives, TryAll(l).state.calls);
  }

  /** When all turns but the last of n went on, and the last did not unless it was the last of all, a turn is one of
      them exactly when all earlier ones went on. */
  lemma ReachedBehind(wentOn: nat -> bool, n: nat, all: nat, k: nat)
    requires k < all && forall j: nat :: j + 1 < n ==> wentOn(j)
    requires n < all ==> n > 0 && !wentOn(n - 1)
    ensures k < n <==> forall j: nat :: j < k ==> wentOn(j)
  {
    if k < n {
      forall j: nat | j < k
        ensures wentOn(j)
      {
        assert j + 1 < n;
      }
    }
  }

  /** Which attempts returned False. */
  function WentOn(l: TryLoop): nat -> bool {
    (j: nat) => j < |l.modules| && AttemptAt(l, j).result == Ok(false)
  }

  lemma WentOnIff(l: TryLoop, j: nat)
    requires IsTryLoop(l) && j < |l.modules|
    ensures WentOn(l)(j) <==> AttemptAt(l, j).result == Ok(false)
    ensures WentOn(l)(j) <==> !Ends(l, j)
  {
    AttemptEnds(l, j);
  }

  lemma ReachedByEnds(l: TryLoop, k: nat, wentOn: nat -> bool)
    requires IsTryLoop(l) && k < |l.modules| && forall j: nat :: j < |l.modules| ==> (wentOn(j) <==> !Ends(l, j))
    ensures k < Started(TryAll(l)) <==> forall j: nat :: j < k ==> wentOn(j)
  {
    var n := Started(TryAll(l));
    TryAllEnds(l);
    forall j: nat | j + 1 < n
      ensures wentOn(j)
    {
      GoesOn(l, j);
    }
    ReachedBehind(wentOn, n, |l.modules|, k);
  }

  /** A module is reached exactly when the attempts on all earlier ones returned False. */
  lemma ReachedIff(l: TryLoop, k: nat)
    requires IsTryLoop(l) && k < |l.modules|
    ensures k < Started(TryAll(l)) <==> forall j: nat :: j < k ==> AttemptAt(l, j).result == Ok(false)
  {
    var wentOn := WentOn(l);
    forall j: nat | j < |l.modules|
      ensures wentOn(j) <==> !Ends(l, j)
      ensures wentOn(j) <==> AttemptAt(l, j).result == Ok(false)
    {
      WentOnIff(l, j);
    }
    ReachedByEnds(l, k, wentOn);
  }

  /** The call was built by the k-th attempt, from the store it met. */
  ghost predicate FromAttempt(l: TryLoop, k: nat, call: DepositCall)
    requires k < |l.modules|
  {
    BuiltFrom(l.filters, StateAt(l, k).state.store, l.modules[k], l.attempts(k).quorum, call)
  }

  lemma {:induction false} CallsFromAttempts(l: TryLoop, n: nat, call: DepositCall) returns (k: nat)
    requires IsTryLoop(l) && n <= |l.modules| && call in StateAt(l, n).calls
    ensures k < n && FromAttempt(l, k, call)
    decreases n
  {
    assert n > 0;
    k := n - 1;
    CallsStep(l, k, call);
    if call in StateAt(l, k).calls {
      k := CallsFromAttempts(l, k, call);
    }
  }

  /** A call built by the end of an attempt was built before it or from the quorum of that attempt. */
  lemma CallsStep(l: TryLoop, k: nat, call: DepositCall)
    requires IsTryLoop(l) && k < |l.modules| && call in StateAt(l, k + 1).calls
    ensures call in StateAt(l, k).calls || FromAttempt(l, k, call)
  {
    AttemptStep(l, k);
    var before := StateAt(l, k).state;
    AttemptCalls(l.filters, before.store, RelayAfter(before.sends), l.modules[k], l.attempts(k));
  }

  /** The messages that the k-th attempt groups agree under each block hash. */
  ghost predicate ConsistentAt(l: TryLoop, k: nat)
    requires k < |l.modules|
  {
    Consistent(FilteredMessages(l.filters, StateAt(l, k).state.store, l.modules[k], l.attempts(k).quorum),
               l.attempts(k).quorum.head)
  }

  /** The call is a faithful one for the module and the answers of the k-th attempt. */
  ghost predicate FaithfulAt(c: Crypto, l: TryLoop, k: nat, call: DepositCall)
    requires k < |l.modules|
  {
    exists quorum :: FaithfulCall(c, l.modules[k], l.attempts(k).quorum, quorum, call)
  }

  /** Every call of the loop was built by one of its attempts, from the messages stored at that moment,
      and it is faithful when those agree under each block hash. */
  lemma CallsFaithful(c: Crypto, l: TryLoop, call: DepositCall)
    requires PrintsAddresses(c) && AreFilters(l.filters, c) && IsTryLoop(l) && call in TryAll(l).state.calls
    ensures exists k :: 0 <= k < |l.modules| && FromAttempt(l, k, call)
                        && (ConsistentAt(l, k) ==> FaithfulAt(c, l, k, call))
  {
    TriesInOrder(l);
    var k := CallsFromAttempts(l, Started(TryAll(l)), call);
    if ConsistentAt(l, k) {
      AttemptFaithful(c, l, k, call);
    }
  }

  lemma AttemptFaithful(c: Crypto, l: TryLoop, k: nat, call: DepositCall)
    requires PrintsAddresses(c) && AreFilters(l.filters, c) && k < |l.modules|
    requires FromAttempt(l, k, call) && ConsistentAt(l, k)
    ensures FaithfulAt(c, l, k, call)
  {
    BuiltFaithful(c, l.filters, StateAt(l, k).state.store, l.modules[k], l.attempts(k).quorum, call);
  }

  lemma BuiltFaithful(c: Crypto, f: Filters, store: seq<Message>, moduleId: int, v: QuorumView, call: DepositCall)
    requires PrintsAddresses(c) && AreFilters(f, c) && BuiltFrom(f, store, moduleId, v, call)
    requires Consistent(FilteredMessages(f, store, moduleId, v), v.head)
    ensures exists quorum :: FaithfulCall(c, moduleId, v, quorum, call)
  {
    var quorum := QuorumOf(f, store, moduleId, v).value.value;
    QuorumToTransaction(c, f, store, moduleId, v, quorum);
    assert FaithfulCall(c, moduleId, v, quorum, call);
  }

  // ------------------------------------------------------------------
  // One execution
  // ------------------------------------------------------------------

  /** What stays the same over the bot's life: its filters, the whitelist, its start and the retention. */
  datatype Config = Config(filters: Filters, whitelist: set<int>, start: real, retention: real)

  /** The gathering loop of an execution. */
  function GatherAll(g: Config, s: BotState, v: CycleView): Run<Pulse> {
    RunFrom(GathererOf(g.filters, v.gather, v.now), AllowedIds(v, g.whitelist), 0, Pulse(s.store, s.beats))
  }

  /** The modules chosen once the quorums are gathered; None when something raised before. */
  function Preferred(g: Config, s: BotState, v: CycleView): Option<seq<int>>
    requires DigestsOfAllowed(v, g.whitelist)
  {
    var r := GatherAll(g, s, v);
    if v.routerIds.None? || r.stopped || v.digests.None? then None
    else Some(ChosenModules(v.digests.value, v.health, HeartBeats(g.whitelist, g.start, r.state.beats), g.retention))
  }

  /** The k-th gathering turn reads its gas price and builds its quorum, found or not, without an exception. */
  predicate Gathers(handle: Handler<Pulse, int>, f: Filters, ids: seq<int>, gather: nat -> GatherView, p: Pulse, k: nat)
    requires k < |ids|
  {
    gather(k).gasIsRead && QuorumOf(f, After(handle, ids, p, k).store, ids[k], gather(k).quorum).Ok?
  }

  lemma GatherStops(handle: Handler<Pulse, int>, f: Filters, ids: seq<int>, gather: nat -> GatherView, now: real,
                    p: Pulse)
    requires IsGatherer(handle, f, gather, now)
    ensures RunFrom(handle, ids, 0, p).stopped <==>
              exists k: nat :: k < |ids| && !Gathers(handle, f, ids, gather, p, k)
  {
    var r := RunFrom(handle, ids, 0, p);
    RunMeaning(handle, ids, p, r);
    forall k: nat | k < |ids|
      ensures StopsAt(handle, ids, p, k) <==> !Gathers(handle, f, ids, gather, p, k)
    {
      var q := After(handle, ids, p, k);
      assert handle(q, ids[k], k) == GatherNext(f, q, ids[k], gather(k), now);
    }
    assert r.stopped ==> !Gathers(handle, f, ids, gather, p, r.passed);
  }

  /** Modules are chosen, or found to be none, exactly when the ids and the digests can be read and every allowed
      module's turn gathers. */
  lemma PreferredIff(g: Config, s: BotState, v: CycleView)
    requires DigestsOfAllowed(v, g.whitelist)
    ensures var handle, ids := GathererOf(g.filters, v.gather, v.now), AllowedIds(v, g.whitelist);
            Preferred(g, s, v).Some? <==>
              && v.routerIds.Some? && v.digests.Some?
              && forall k: nat :: k < |ids| ==> Gathers(handle, g.filters, ids, v.gather, Pulse(s.store, s.beats), k)
  {
    GatherStops(GathererOf(g.filters, v.gather, v.now), g.filters, AllowedIds(v, g.whitelist), v.gather, v.now,
                Pulse(s.store, s.beats));
  }

  /** What an execution comes to. */
  datatype Outcome = Outcome(state: BotState, calls: seq<DepositCall>, result: Result<bool, BotError>)

  /** The state once the quorums are gathered. */
  function GatheredState(g: Config, s: BotState, v: CycleView): BotState {
    var pulse := GatherAll(g, s, v).state;
    BotState(pulse.store, s.sends, pulse.beats)
  }

  /** The loop over the chosen modules. */
  function ChosenLoop(g: Config, s: BotState, v: CycleView): (l: TryLoop)
    requires DigestsOfAllowed(v, g.whitelist) && Preferred(g, s, v).Some?
    ensures IsTryLoop(l)
  {
    TryLoopOf(g.filters, GatheredState(g, s, v), Preferred(g, s, v).value, v.attempts)
  }

  /** `execute`: gather, choose, then try the chosen modules; no module is a reason for a long sleep. */
  function ExecutionOf(g: Config, s: BotState, v: CycleView): Outcome
    requires DigestsOfAllowed(v, g.whitelist)
  {
    if Preferred(g, s, v).None? then Outcome(GatheredState(g, s, v), [], Err(BotError.BotError))
    else if Preferred(g, s, v).value == [] then Outcome(GatheredState(g, s, v), [], Ok(true))
    else
      var t := TryAll(ChosenLoop(g, s, v)).state;
      Outcome(t.state, t.calls, t.result)
  }

  /** An execution asks for a retry at the next block exactly when a module was chosen, so a healthy one
      existed, and no attempt succeeded; at most its last completed send succeeds; its heartbeats are new
      quorums of allowed modules, all at the one time read before gathering. */
  lemma ExecutionMeaning(g: Config, s: BotState, v: CycleView) returns (made: seq<Send>)
    requires DigestsOfAllowed(v, g.whitelist)
    ensures var o := ExecutionOf(g, s, v);
            && o.state.sends == s.sends + made && OnlyLastSucceeds(made)
            && BeatsAt(s.beats, o.state.beats, v.now, AllowedIds(v, g.whitelist))
            && (o.result.Ok? ==> Preferred(g, s, v).Some?
                                 && (!o.result.value <==> Preferred(g, s, v).value != [] && !LastSucceeds(made)))
  {
    GatherAppends(GathererOf(g.filters, v.gather, v.now), g.filters, AllowedIds(v, g.whitelist), v.gather, v.now, 0,
                  s.beats, Pulse(s.store, s.beats));
    made := [];
    if Preferred(g, s, v).Some? && Preferred(g, s, v).value != [] {
      made := OneSuccess(ChosenLoop(g, s, v));
    }
  }

  /** Every call of an execution was built by one of its attempts on the chosen modules, in their order, and is
      faithful when the messages that attempt groups agree under each block hash. */
  lemma ExecutionCalls(c: Crypto, g: Config, s: BotState, v: CycleView, call: DepositCall)
    requires PrintsAddresses(c) && AreFilters(g.filters, c) && DigestsOfAllowed(v, g.whitelist)
    requires call in ExecutionOf(g, s, v).calls
    ensures Preferred(g, s, v).Some?
    ensures var l := ChosenLoop(g, s, v);
            exists k :: 0 <= k < |l.modules| && FromAttempt(l, k, call)
                        && (ConsistentAt(l, k) ==> FaithfulAt(c, l, k, call))
  {
    CallsFaithful(c, ChosenLoop(g, s, v), call);
  }

  /** An execution that raises before the choice returns an error, one that chooses no module True, and any other what
      its last attempt does. */
  lemma ExecutionResult(g: Config, s: BotState, v: CycleView)
    requires DigestsOfAllowed(v, g.whitelist)
    ensures match Preferred(g, s, v)
            case None => ExecutionOf(g, s, v).result.Err?
            case Some(tried) =>
              var l := ChosenLoop(g, s, v);
              var n := Started(TryAll(l));
              && (tried == [] <==> n == 0) && n <= |l.modules| == |tried|
              && ExecutionOf(g, s, v).result == if n == 0 then Ok(true) else AttemptAt(l, n - 1).result
  {
    if Preferred(g, s, v).Some? {
      TriesInOrder(ChosenLoop(g, s, v));
      TryAllEnds(ChosenLoop(g, s, v));
    }
  }

  /** The calls of an execution are those of its attempts that were ready, one for each, in the order of the chosen
      modules; it has none when something raised before the choice. */
  lemma ExecutionSends(g: Config, s: BotState, v: CycleView) returns (turns: seq<nat>)
    requires DigestsOfAllowed(v, g.whitelist)
    ensures Preferred(g, s, v).None? ==> ExecutionOf(g, s, v).calls == []
    ensures Preferred(g, s, v).Some? ==>
              var l := ChosenLoop(g, s, v);
              AreSent(ReadyCalls(l), Started(TryAll(l)), turns, ExecutionOf(g, s, v).calls)
  {
    turns := [];
    if Preferred(g, s, v).Some? {
      turns := CallsInOrder(ChosenLoop(g, s, v));
    }
  }

  /** Trying modules adds no heartbeat: those of an execution are the ones it gathers. */
  lemma ExecutionBeats(g: Config, s: BotState, v: CycleView)
    requires DigestsOfAllowed(v, g.whitelist)
    ensures ExecutionOf(g, s, v).state.beats == GatherAll(g, s, v).state.beats
  {
    if Preferred(g, s, v).Some? && Preferred(g, s, v).value != [] {
      var made := OneSuccess(ChosenLoop(g, s, v));
    }
  }

  // ------------------------------------------------------------------
  // Messages that block the bot
  // ------------------------------------------------------------------

  /** On messages its schema admits, building a quorum raises exactly when a transport cannot be read or
      filtered, or a message stored or just arrived is unreadable. */
  lemma QuorumRaisesIff(c: Crypto, f: Filters, store: seq<Message>, moduleId: int, v: QuorumView)
    requires AreFilters(f, c)
    requires forall m :: m in Extended(f.intake, store, QuorumOp(f, v)) ==> m.Deposit? && Admitted(m)
    ensures QuorumOf(f, store, moduleId, v).Err?
            <==> || !Gather(f.intake, v.batches).complete
                 || exists m :: m in Extended(f.intake, store, QuorumOp(f, v)) && Unreadable(m)
  {
    var rest := (m: Message) => ActualizeFilter(v, m);
    var op := QuorumOp(f, v);
    assert SignsThen(f, v.prefix, op.act, rest);
    RefreshRaisesIff(c, f, store, op, v.prefix, rest);
  }

  /** A message blocks every quorum that meets it, whatever is stored beside it and whatever chain and
      transports answer, exactly when it is unreadable. */
  lemma BlocksIff(c: Crypto, f: Filters, m: Message)
    requires AreFilters(f, c) && m.Deposit? && Admitted(m)
    ensures (forall store, id, v :: m in store ==> QuorumOf(f, store, id, v).Err?) <==> Unreadable(m)
  {
    NeverReadIff(c, f, m);
    if Unreadable(m) {
      forall store, id, v | m in store
        ensures QuorumOf(f, store, id, v).Err?
      {
        QuorumSignsFirst(f, v);
        UnreadStops(f, store, QuorumOp(f, v), m);
      }
    } else {
      var v := QuorumView([], [], 0, [], [], 0, 1);
      assert Extended(f.intake, [m], QuorumOp(f, v)) == [m];
      QuorumRaisesIff(c, f, [m], 0, v);
      assert m in [m] && QuorumOf(f, [m], 0, v).Ok?;
    }
  }

  /** With a message stored that cannot be read, an execution sends nothing, sees no quorum and keeps the
      message; it raises whenever some module is allowed. */
  lemma ExecutionBlocked(g: Config, s: BotState, v: CycleView, m: Message)
    requires DigestsOfAllowed(v, g.whitelist) && NeverRead(g.filters, m) && m in s.store
    ensures var o := ExecutionOf(g, s, v);
            && o.calls == [] && o.state.sends == s.sends && o.state.beats == s.beats && m in o.state.store
            && (AllowedIds(v, g.whitelist) != [] ==> o.result.Err?)
  {
    if AllowedIds(v, g.whitelist) == [] {
      NoneAllowed(g, s, v);
    } else {
      NoneGathered(g, s, v, m);
    }
  }

  lemma NoneAllowed(g: Config, s: BotState, v: CycleView)
    requires DigestsOfAllowed(v, g.whitelist) && AllowedIds(v, g.whitelist) == []
    ensures GatherAll(g, s, v).state == Pulse(s.store, s.beats)
    ensures Preferred(g, s, v).None? || Preferred(g, s, v).value == []
  {
    if v.digests.Some? {
      var digests := v.digests.value;
      assert |digests| > 0 ==> digests[0] in digests;
      SortLength(digests, ActiveValidators());
    }
  }

  lemma NoneGathered(g: Config, s: BotState, v: CycleView, m: Message)
    requires DigestsOfAllowed(v, g.whitelist) && AllowedIds(v, g.whitelist) != []
    requires NeverRead(g.filters, m) && m in s.store
    ensures Preferred(g, s, v).None?
    ensures GatherAll(g, s, v).state.beats == s.beats && m in GatherAll(g, s, v).state.store
  {
    var ids, pulse := AllowedIds(v, g.whitelist), Pulse(s.store, s.beats);
    GatherBlocked(g.filters, pulse, ids[0], v.gather(0), v.now, m);
    assert GathererOf(g.filters, v.gather, v.now)(pulse, ids[0], 0)
           == GatherNext(g.filters, pulse, ids[0], v.gather(0), v.now);
  }

  lemma GatherBlocked(f: Filters, g: Pulse, id: int, v: GatherView, now: real, m: Message)
    requires NeverRead(f, m) && m in g.store
    ensures var (g', stops) := GatherNext(f, g, id, v, now);
            stops && g'.beats == g.beats && m in g'.store
  {
    QuorumSignsFirst(f, v.quorum);
    UnreadStops(f, g.store, QuorumOp(f, v.quorum), m);
  }

  // ------------------------------------------------------------------
  // The bot
  // ------------------------------------------------------------------

  class DepositorBot {
    const config: Config
    const storage: Storage<Message>
    var flashbotsWorks: bool
    var moduleLastHeartBeat: map<int, real>
    /** Every completed send, and every quorum seen, so far. */
    ghost var sends: seq<Send>
    ghost var beats: seq<Beat>

    /** The flag and the heartbeats are those of the whole run. */
    ghost predicate Valid()
      reads this, storage, storage.messages
    {
      && storage.Valid() && storage.intake == config.filters.intake
      && IsRun(sends) && flashbotsWorks == RelayAfter(sends)
      && moduleLastHeartBeat == HeartBeats(config.whitelist, config.start, beats)
    }

    ghost function State(): BotState
      reads this, storage, storage.messages
    {
      BotState(storage.messages.items, sends, beats)
    }

    constructor (crypto: Crypto, whitelist: set<int>, now: real, retention: real)
      ensures Valid() && fresh(storage) && fresh(storage.messages)
      ensures State() == BotState([], [], []) && flashbotsWorks && storage.history == []
      ensures config == Config(FiltersOf(crypto), whitelist, now, retention)
    {
      config := Config(FiltersOf(crypto), whitelist, now, retention);
      storage := new Storage(FiltersOf(crypto).intake);
      flashbotsWorks := true;
      moduleLastHeartBeat := map id | id in whitelist :: now;
      sends, beats := [], [];
    }

    /** `_get_quorum`: refresh the store, filter, group and select. */
    method GetQuorum(moduleId: int, v: QuorumView) returns (r: Result<Option<seq<DepositMessage>>, BotError>)
      requires Valid()
      modifies storage, storage.messages
      ensures Valid() && (storage.messages == old(storage.messages) || fresh(storage.messages))
      ensures r == QuorumOf(config.filters, old(storage.messages.items), moduleId, v)
      ensures storage.history == old(storage.history) + [QuorumOp(config.filters, v)]
      ensures storage.messages.items ==
              Step(config.filters.intake, old(storage.messages.items), QuorumOp(config.filters, v))
      ensures r.Ok? && r.value.Some? ==> r.value.value != []
    {
      var fetched := storage.GetMessagesAndActualize(v.batches, DepositFilter(config.filters, v));
      if fetched.Err? {
        return Err(BotError.BotError);
      }
      var filtered := ModuleMessages(fetched.value.items, moduleId, v.nonce);
      var selected := SelectQuorum(filtered, v.minSigns);
      ghost var hash := SelectionMeaning(filtered, v.minSigns);
      r := Ok(selected);
    }

    /** Record a quorum seen for a module of the whitelist. */
    method Beats(id: int, now: real)
      requires Valid() && id in config.whitelist
      modifies this`moduleLastHeartBeat, this`beats
      ensures Valid() && beats == old(beats) + [Beat(now, id)]
    {
      forall x | x in config.whitelist
        ensures LastBeat(beats + [Beat(now, id)], x, config.start) == if x == id then now else moduleLastHeartBeat[x]
      {
        LastBeatSnoc(beats, Beat(now, id), x, config.start);
      }
      moduleLastHeartBeat := moduleLastHeartBeat[id := now];
      beats := beats + [Beat(now, id)];
    }

    /** One turn of the gathering loop. */
    method GatherQuorum(id: int, k: nat, gather: nat -> GatherView, now: real, ghost handle: Handler<Pulse, int>)
      returns (failed: bool)
      requires Valid() && id in config.whitelist && IsGatherer(handle, config.filters, gather, now)
      modifies this`moduleLastHeartBeat, this`beats, storage, storage.messages
      ensures Valid() && (storage.messages == old(storage.messages) || fresh(storage.messages))
      ensures var (g, raises) := handle(Pulse(old(storage.messages.items), old(beats)), id, k);
              storage.messages.items == g.store && beats == g.beats && failed == raises
    {
      ghost var g := Pulse(storage.messages.items, beats);
      assert handle(g, id, k) == GatherNext(config.filters, g, id, gather(k), now);
      if !gather(k).gasIsRead {
        return true;
      }
      var quorum := GetQuorum(id, gather(k).quorum);
      if quorum.Ok? && quorum.value.Some? {
        Beats(id, now);
      }
      failed := quorum.Err?;
      assert beats == g.beats + BeatOf(quorum, id, now);
    }

    /** The gathering loop of `_get_preferred_to_deposit_modules`: a heartbeat for each module that
        has a quorum, all at the one time read before the loop. An exception stops it. */
    method GatherQuorums(ids: seq<int>, gather: nat -> GatherView, now: real, ghost handle: Handler<Pulse, int>)
      returns (completed: bool)
      requires Valid() && IsGatherer(handle, config.filters, gather, now)
      requires forall id :: id in ids ==> id in config.whitelist
      modifies this`moduleLastHeartBeat, this`beats, storage, storage.messages
      ensures Valid() && (storage.messages == old(storage.messages) || fresh(storage.messages))
      ensures var r := RunFrom(handle, ids, 0, Pulse(old(storage.messages.items), old(beats)));
              Pulse(storage.messages.items, beats) == r.state && completed == !r.stopped
    {
      ghost var r := RunFrom(handle, ids, 0, Pulse(storage.messages.items, beats));
      for i := 0 to |ids|
        invariant Valid() && (storage.messages == old(storage.messages) || fresh(storage.messages))
        invariant RunFrom(handle, ids, i, Pulse(storage.messages.items, beats)) == r
      {
        var failed := GatherQuorum(ids[i], i, gather, now, handle);
        if failed {
          return false;
        }
      }
      completed := true;
    }

    /** `_get_preferred_to_deposit_modules`. */
    method GetPreferredModules(v: CycleView) returns (r: Result<seq<int>, BotError>)
      requires Valid() && DigestsOfAllowed(v, config.whitelist)
      modifies this`moduleLastHeartBeat, this`beats, storage, storage.messages
      ensures Valid() && (storage.messages == old(storage.messages) || fresh(storage.messages))
      ensures Pulse(storage.messages.items, beats) == GatherAll(config, old(State()), v).state
      ensures r == match Preferred(config, old(State()), v)
                   case None => Err(BotError.BotError)
                   case Some(tried) => Ok(tried)
    {
      if v.routerIds.None? {
        return Err(BotError.BotError);
      }
      var ids := Allowed(v.routerIds.value, config.whitelist);
      var completed := GatherQuorums(ids, v.gather, v.now, GathererOf(config.filters, v.gather, v.now));
      if !completed || v.digests.None? {
        return Err(BotError.BotError);
      }
      var digests := v.digests.value;
      var sorted := SortBy(digests, ActiveValidators());
      SortLength(digests, ActiveValidators());
      assert forall d :: d in sorted ==> d in digests && d.moduleId in moduleLastHeartBeat;
      var modulesHealthiness := Healthiness(sorted, moduleLastHeartBeat, v.health, config.retention);
      var modules := TakeUntilFirstHealthy(modulesHealthiness);
      assert modules == ChosenModules(digests, v.health, moduleLastHeartBeat, config.retention);
      r := Ok(modules);
    }

    /** `_deposit_to_module`: when all checks pass, build the call and send it over the relay as the
        flag says; a completed send then updates the flag. */
    method DepositToModule(moduleId: int, a: AttemptView) returns (r: Result<bool, BotError>, calls: seq<DepositCall>)
      requires Valid()
      modifies this`flashbotsWorks, this`sends, storage, storage.messages
      ensures Valid() && (storage.messages == old(storage.messages) || fresh(storage.messages))
      ensures var t := Attempted(config.filters, old(storage.messages.items), RelayAfter(old(sends)), moduleId, a);
              r == t.result && calls == t.calls && sends == old(sends) + t.made
      ensures storage.messages.items == StoreAfterAttempt(config.filters, old(storage.messages.items), a)
    {
      calls := [];
      if a.canDeposit.None? {
        return Err(BotError.BotError), [];
      }
      var quorum := GetQuorum(moduleId, a.quorum);
      if quorum.Err? || a.gasIsOk.None? || a.amountIsOk.None? {
        return Err(BotError.BotError), [];
      }
      if !a.canDeposit.value || quorum.value.None? || !a.gasIsOk.value || !a.amountIsOk.value {
        return Ok(false), [];
      }
      var tx := PrepareGeneralTx(quorum.value.value);
      if tx.Err? {
        return Err(BotError.BotError), [];
      }
      calls := [tx.value];
      if a.send.SendRaises? {
        return Err(BotError.BotError), calls;
      }
      var success := a.send.SendSucceeds?;
      RecordSend(success);
      r := Ok(success);
    }

    method RecordSend(success: bool)
      requires Valid()
      modifies this`flashbotsWorks, this`sends
      ensures Valid() && sends == old(sends) + [Send(old(flashbotsWorks), success)]
    {
      RunSnoc(sends, Send(flashbotsWorks, success));
      sends := sends + [Send(flashbotsWorks, success)];
      flashbotsWorks := !flashbotsWorks || success;
    }

    /** One turn of the loop of `execute`; t is what the loop has done before. */
    method TryModule(id: int, k: nat, attempts: nat -> AttemptView, ghost handle: Handler<Tries, int>, ghost t: Tries)
      returns (r: Result<bool, BotError>, calls: seq<DepositCall>)
      requires Valid() && State() == t.state && IsAttempter(handle, config.filters, attempts)
      modifies this`flashbotsWorks, this`sends, storage, storage.messages
      ensures Valid() && (storage.messages == old(storage.messages) || fresh(storage.messages))
      ensures handle(t, id, k) == (Tries(State(), t.calls + calls, r), r != Ok(false))
    {
      assert handle(t, id, k) == TryNext(config.filters, t, id, attempts(k));
      r, calls := DepositToModule(id, attempts(k));
    }

    /** The loop of `execute`: modules are tried in order until one attempt succeeds. */
    method TryModules(modules: seq<int>, attempts: nat -> AttemptView, ghost handle: Handler<Tries, int>)
      returns (r: Result<bool, BotError>, calls: seq<DepositCall>)
      requires Valid() && IsAttempter(handle, config.filters, attempts)
      modifies this`flashbotsWorks, this`sends, storage, storage.messages
      ensures Valid()
      ensures Tries(State(), calls, r) == RunFrom(handle, modules, 0, Tries(old(State()), [], Ok(false))).state
    {
      calls, r := [], Ok(false);
      ghost var run := RunFrom(handle, modules, 0, Tries(State(), [], Ok(false)));
      for i := 0 to |modules|
        invariant Valid() && (storage.messages == old(storage.messages) || fresh(storage.messages))
        invariant RunFrom(handle, modules, i, Tries(State(), calls, r)) == run
      {
        ghost var t := Tries(State(), calls, r);
        var built;
        r, built := TryModule(modules[i], i, attempts, handle, t);
        calls := calls + built;
        if r != Ok(false) {
          return;
        }
      }
    }

    /** `execute`: False asks for a retry at the next block. */
    method Execute(v: CycleView) returns (r: Result<bool, BotError>, calls: seq<DepositCall>)
      requires Valid() && DigestsOfAllowed(v, config.whitelist)
      modifies this, storage, storage.messages
      ensures Valid() && Outcome(State(), calls, r) == ExecutionOf(config, old(State()), v)
    {
      var modules := GetPreferredModules(v);
      if modules.Err? {
        return Err(BotError.BotError), [];
      }
      if modules.value == [] {
        // No modules expected. Long sleep.
        return Ok(true), [];
      }
      r, calls := TryModules(modules.value, v.attempts, AttempterOf(config.filters, v.attempts));
    }
  }
}
