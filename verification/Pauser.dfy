/** The pauser bot of src/bots/pauser.py: the same loop over the store's own list,
    whose body refreshes or clears the store only in some branches. */
module Pauser {
  import opened Bytes
  import opened HandlerLoop
  import opened Messages
  import opened MessageStorage
  import opened Wrappers

  datatype BotError = BotError

  /** What the chain and the transports answer while messages are received: the transports last. */
  datatype ReceiveView = ReceiveView(
    batches: seq<Batch<Message>>,
    prefix: seq<byte>,
    head: int,
    validityBlocks: int,
    guardians: seq<string>)

  /** What they answer while one message is handled. `halted` tells whether the deposits or the
      module are paused already. None is an answer that raises: a read of that state, or of the prefix
      needed next, that fails, or a check or send that does. */
  datatype HandlerView = HandlerView(
    halted: Option<bool>,
    batches: seq<Batch<Message>>,
    prefix: seq<byte>,
    check: Option<bool>,
    send: Option<bool>)

  /** A `pauseDeposits` call of either contract version. */
  datatype PauseCall =
    | PauseModule(blockNumber: int, moduleId: int, signature: Signature)
    | PauseAll(blockNumber: int, signature: Signature)

  // ------------------------------------------------------------------
  // Filters and the handling of one message, on values
  // ------------------------------------------------------------------

  function ActualizeFilter(v: ReceiveView, m: Message): Verdict {
    if m.guardianAddress !in v.guardians then Drop
    else if m.blockNumber > v.head - v.validityBlocks then Keep
    else Drop
  }

  function ReceiveFilter(f: Filters, v: ReceiveView): Message -> Verdict {
    (m: Message) => Both(f.sign(v.prefix, m), ActualizeFilter(v, m))
  }

  /** The filter that drops the messages of a paused module; a message without the field is a KeyError. */
  function OtherModuleFilter(f: Filters, prefix: seq<byte>, moduleId: int): Message -> Verdict {
    (m: Message) =>
      Both(f.sign(prefix, m),
           if !m.Pause? || m.pausedModule.None? then Raise
           else if m.pausedModule.value != moduleId then Keep
           else Drop)
  }

  /** The messages the running contract version can act on: the old one takes
      messages without a module id, the new one those with it. */
  predicate Supported(legacy: bool, m: Message) {
    m.Pause? && (legacy <==> m.pausedModule.None?)
  }

  /** The message finds its target paused already. */
  predicate FindsHalted(legacy: bool, m: Message, v: HandlerView) {
    Supported(legacy, m) && v.halted == Some(true)
  }

  /** The store operation that handling a message performs, if any. */
  function HandlerOp(f: Filters, legacy: bool, m: Message, v: HandlerView): seq<Op<Message>> {
    if !FindsHalted(legacy, m, v) then []
    else if legacy then [Clear]
    else [Refresh(v.batches, OtherModuleFilter(f, v.prefix, m.pausedModule.value))]
  }

  /** The call that handling a message sends, if any: the old contract is not checked first. */
  function CallOf(legacy: bool, m: Message, v: HandlerView): seq<PauseCall> {
    if !Supported(legacy, m) || v.halted != Some(false) then []
    else if legacy then [PauseAll(m.blockNumber, m.signature)]
    else if v.check == Some(true) then [PauseModule(m.blockNumber, m.pausedModule.value, m.signature)]
    else []
  }

  /** What a handler returns when its refresh, if any, does not raise. */
  function ResultOf(legacy: bool, m: Message, v: HandlerView): Result<bool, BotError> {
    if !m.Pause? then Err(BotError.BotError)
    else if !Supported(legacy, m) then Ok(true)
    else if v.halted.None? then Err(BotError.BotError)
    else if v.halted.value then Ok(false)
    else if !legacy && v.check.None? then Err(BotError.BotError)
    else if CallOf(legacy, m, v) == [] then Ok(false)
    else if v.send.Some? then Ok(v.send.value)
    else Err(BotError.BotError)
  }

  /** The stored messages, and the store operations started and calls sent so far. */
  datatype Progress = Progress(store: seq<Message>, ops: seq<Op<Message>>, calls: seq<PauseCall>)

  /** `_send_pause_message` with `_send_pause` and `_send_pause_v2`: the progress it makes, and whether it raises. */
  function Handle(f: Filters, legacy: bool, p: Progress, m: Message, v: HandlerView): (Progress, bool) {
    var ops := HandlerOp(f, legacy, m, v);
    if ops == [] then (p.(calls := p.calls + CallOf(legacy, m, v)), ResultOf(legacy, m, v).Err?)
    else
      (Progress(Step(f.intake, p.store, ops[0]), p.ops + ops, p.calls), Rebound(f.intake, p.store, ops[0]).None?)
  }

  /** The handlers of one execution. */
  function HandlerOf(f: Filters, legacy: bool, views: nat -> HandlerView): Handler<Progress, Message> {
    (p: Progress, m: Message, k: nat) => Handle(f, legacy, p, m, views(k))
  }

  /** `handle` is these handlers. */
  ghost predicate Implements(handle: Handler<Progress, Message>, f: Filters, legacy: bool, views: nat -> HandlerView) {
    forall p, m, k {:trigger Handle(f, legacy, p, m, views(k))} ::
      handle(p, m, k) == Handle(f, legacy, p, m, views(k))
  }

  /** The target is not paused yet; under the new contract the message names a module and the check of its
      transaction succeeds, under the old one it names none, and there is no check. */
  predicate Pauses(legacy: bool, m: Message, v: HandlerView) {
    && m.Pause? && v.halted == Some(false)
    && if legacy then m.pausedModule.None? else m.pausedModule.Some? && v.check == Some(true)
  }

  /** The call that names exactly the fields of the message. */
  function CallFor(m: Message): PauseCall
    requires m.Pause?
  {
    match m.pausedModule
    case None => PauseAll(m.blockNumber, m.signature)
    case Some(id) => PauseModule(m.blockNumber, id, m.signature)
  }

  /** When a call is sent, and what each result means: True is a successful send, or a message of the other
      contract version; False a target paused already, a failed check or a failed send; everything else raises. */
  lemma SendMeaning(legacy: bool, m: Message, v: HandlerView)
    ensures CallOf(legacy, m, v) == if Pauses(legacy, m, v) then [CallFor(m)] else []
    ensures ResultOf(legacy, m, v) == Ok(true)
            <==> m.Pause? && (legacy != m.pausedModule.None? || (Pauses(legacy, m, v) && v.send == Some(true)))
    ensures ResultOf(legacy, m, v) == Ok(false)
            <==> && m.Pause? && legacy == m.pausedModule.None?
                 && (|| v.halted == Some(true)
                     || (Pauses(legacy, m, v) && v.send == Some(false))
                     || (!legacy && v.halted == Some(false) && v.check == Some(false)))
  {
    assert v.halted.Some? && !v.halted.value ==> v.halted == Some(false);
    assert v.check.Some? && !v.check.value ==> v.check == Some(false);
  }

  /** The message is one of the running contract's kind, and its target is paused already. */
  predicate TargetPaused(legacy: bool, m: Message, v: HandlerView) {
    m.Pause? && legacy == m.pausedModule.None? && v.halted == Some(true)
  }

  /** What one handler does: for a target that is paused already it clears the store under the old contract and
      refreshes it under the new one; otherwise it leaves the store alone and sends its call, if any. It raises
      exactly when the refresh or, without one, the submission does. */
  lemma HandleMeaning(f: Filters, legacy: bool, p: Progress, m: Message, v: HandlerView)
    ensures var (p', stops) := Handle(f, legacy, p, m, v);
            && p'.calls == p.calls + (if Pauses(legacy, m, v) then [CallFor(m)] else [])
            && (!TargetPaused(legacy, m, v) ==> p'.store == p.store && p'.ops == p.ops
                                                && (stops <==> ResultOf(legacy, m, v).Err?))
            && (TargetPaused(legacy, m, v) && legacy ==> !stops && p'.store == [] && p'.ops == p.ops + [Clear])
            && (TargetPaused(legacy, m, v) && !legacy ==>
                  var op := Refresh(v.batches, OtherModuleFilter(f, v.prefix, m.pausedModule.value));
                  p'.ops == p.ops + [op] && p'.store == Step(f.intake, p.store, op)
                  && (stops <==> Rebound(f.intake, p.store, op).None?))
  {
    SendMeaning(legacy, m, v);
    assert p.calls + [] == p.calls;
  }

  /** After a refresh for a paused module the store holds exactly the signed messages, stored or just
      received, that pause another module. */
  lemma HandlerKeeps(f: Filters, store: seq<Message>, m: Message, v: HandlerView)
    requires FindsHalted(false, m, v)
    requires Rebound(f.intake, store, HandlerOp(f, false, m, v)[0]).Some?
    ensures forall x :: x in Rebound(f.intake, store, HandlerOp(f, false, m, v)[0]).value
                        <==> && x in store + Gather(f.intake, v.batches).arrived && x.Pause? && x.pausedModule.Some?
                             && x.pausedModule != m.pausedModule && f.sign(v.prefix, x).Keep?
  {
    var op := HandlerOp(f, false, m, v)[0];
    ActualizeKeeps(op.act, Extended(f.intake, store, op));
    var other := OtherModuleFilter(f, v.prefix, m.pausedModule.value);
    assert op.act == other;
    assert forall x :: other(x).Keep? <==> f.sign(v.prefix, x).Keep? && x.Pause? && x.pausedModule.Some?
                                           && x.pausedModule != m.pausedModule;
  }

  /** A signed message is sent with exactly the fields its guardian signed for the running contract
      version, so the contract recovers that guardian; and only while its target is not paused. */
  lemma CallIsSigned(c: Crypto, prefix: seq<byte>, legacy: bool, m: Message, v: HandlerView)
    requires SignFilter(c, prefix, m).Keep? && CallOf(legacy, m, v) != []
    ensures v.halted == Some(false)
    ensures var call := CallOf(legacy, m, v)[0];
            && CallOf(legacy, m, v) == [call] && call.PauseAll? == legacy && IsUint256(call.blockNumber)
            && (call.PauseModule? ==> IsUint256(call.moduleId))
            && var data := PauseData(prefix, call.blockNumber, if call.PauseAll? then None else Some(call.moduleId));
               SignerOf(c, data, call.signature).Some?
               && m.guardianAddress == c.checksum(SignerOf(c, data, call.signature).value)
  {
    SignedRecovers(c, prefix, m);
  }

  /** k is the first received message whose handler refreshes the store, or their number. */
  ghost predicate IsFirst(legacy: bool, received: seq<Message>, views: nat -> HandlerView, k: nat) {
    && k <= |received|
    && (k < |received| ==> !legacy && FindsHalted(legacy, received[k], views(k)))
    && forall j :: 0 <= j < k ==> legacy || !FindsHalted(legacy, received[j], views(j))
  }

  function FirstRefresh(legacy: bool, received: seq<Message>, views: nat -> HandlerView, from: nat): (k: nat)
    requires from <= |received|
    ensures from <= k <= |received|
    ensures k < |received| ==> !legacy && FindsHalted(legacy, received[k], views(k))
    ensures forall j :: from <= j < k ==> legacy || !FindsHalted(legacy, received[j], views(j))
    decreases |received| - from
  {
    if from == |received| then from
    else if !legacy && FindsHalted(legacy, received[from], views(from)) then from
    else FirstRefresh(legacy, received, views, from + 1)
  }

  /** The messages one execution handles when nothing raises. */
  function HandledList(f: Filters, legacy: bool, received: seq<Message>, views: nat -> HandlerView): seq<Message> {
    var k := FirstRefresh(legacy, received, views, 0);
    received + if k < |received| then Gather(f.intake, views(k).batches).arrived else []
  }

  /** The refresh of this handler appends `more`. */
  ghost predicate Appends(f: Filters, v: HandlerView, more: seq<Message>) {
    forall b {:trigger Gather(f.intake, b)} :: b == v.batches ==> Gather(f.intake, b).arrived == more
  }

  /** The list grows exactly in the handler of the first message that finds its module paused: behind the
      received messages exactly what the construction filters make of its batch is handled. */
  lemma GrowsAt(f: Filters, legacy: bool, received: seq<Message>, views: nat -> HandlerView, x: Message)
    ensures received <= HandledList(f, legacy, received, views)
    ensures x in HandledList(f, legacy, received, views)[|received|..]
            <==> exists k :: 0 <= k < |received| && IsFirst(legacy, received, views, k)
                             && Yielded(f.intake, views(k).batches, x)
  {
    var k := FirstRefresh(legacy, received, views, 0);
    if k < |received| {
      ArrivedIsYielded(f.intake, views(k).batches, x);
      assert IsFirst(legacy, received, views, k);
    }
    assert forall j :: 0 <= j < |received| && IsFirst(legacy, received, views, j) ==> j == k;
  }

  /** Under the old contract the store is only ever cleared, so the list handed out never grows. */
  lemma LegacyHandlesReceived(f: Filters, received: seq<Message>, views: nat -> HandlerView)
    ensures HandledList(f, true, received, views) == received
  {
    assert FirstRefresh(true, received, views, 0) == |received|;
  }

  /** The contract recovers a listed guardian from the call. */
  predicate CallListed(c: Crypto, prefix: seq<byte>, guardians: seq<string>, call: PauseCall) {
    && IsUint256(call.blockNumber) && (call.PauseModule? ==> IsUint256(call.moduleId))
    && var data := PauseData(prefix, call.blockNumber, if call.PauseAll? then None else Some(call.moduleId));
       Listed(c, guardians, SignerOf(c, data, call.signature))
  }

  /** It does exactly when the sign filter would keep the message under some listed address. */
  lemma CallListedIff(c: Crypto, prefix: seq<byte>, guardians: seq<string>, legacy: bool, m: Message, v: HandlerView)
    requires CallOf(legacy, m, v) != []
    ensures CallListed(c, prefix, guardians, CallOf(legacy, m, v)[0]) <==> SignedByListed(c, prefix, guardians, m)
  {
    if SignedBytes(prefix, m).value.Some? {
      RecoversListedIff(c, prefix, guardians, m);
    } else {
      assert forall g :: SignedBytes(prefix, Under(m, g)) == SignedBytes(prefix, m);
    }
  }

  // ------------------------------------------------------------------
  // One execution
  // ------------------------------------------------------------------

  /** The refresh that an execution starts with. */
  function ReceiveOp(f: Filters, receive: ReceiveView): Op<Message> {
    Refresh(receive.batches, ReceiveFilter(f, receive))
  }

  /** The messages received from a store, when nothing raises. */
  function Receiving(f: Filters, store: seq<Message>, receive: ReceiveView): Option<seq<Message>> {
    Rebound(f.intake, store, ReceiveOp(f, receive))
  }

  /** What one execution meets: whether the contract has its old version, the answers to the reads that
      receiving needs (None when one of them raises, before the transports are read), and what the k-th
      handler sees. */
  datatype Cycle = Cycle(legacy: bool, receive: Option<ReceiveView>, views: nat -> HandlerView)

  /** What an execution comes to: the store, the store operations and the calls it leaves, the number of
      handlers that return, and its result. */
  datatype Outcome = Outcome(progress: Progress, handled: nat, result: Result<bool, BotError>)

  /** The handlers on the received messages and what the first refreshing one appends to them. */
  function Handling(f: Filters, legacy: bool, received: seq<Message>, views: nat -> HandlerView): Run<Progress> {
    RunFrom(HandlerOf(f, legacy, views), HandledList(f, legacy, received, views), 0, Progress(received, [], []))
  }

  /** `execute` from the receive refresh on. */
  function FetchedOutcome(f: Filters, legacy: bool, store: seq<Message>, receive: ReceiveView,
                          views: nat -> HandlerView): Outcome
  {
    var op := ReceiveOp(f, receive);
    match Receiving(f, store, receive)
    case None => Outcome(Progress(Step(f.intake, store, op), [op], []), 0, Err(BotError.BotError))
    case Some(received) =>
      var run := Handling(f, legacy, received, views);
      Outcome(Progress(run.state.store, [op] + run.state.ops, run.state.calls), run.passed,
              if run.stopped then Err(BotError.BotError) else Ok(true))
  }

  /** `execute` on a store. */
  function ExecutionOf(f: Filters, store: seq<Message>, e: Cycle): Outcome {
    if e.receive.Some? then FetchedOutcome(f, e.legacy, store, e.receive.value, e.views)
    else Outcome(Progress(store, [], []), 0, Err(BotError.BotError))
  }

  lemma ReceivedIsSigned(c: Crypto, f: Filters, store: seq<Message>, receive: ReceiveView, m: Message)
    requires AreFilters(f, c) && Receiving(f, store, receive).Some? && m in Receiving(f, store, receive).value
    ensures SignFilter(c, receive.prefix, m).Keep? && SignedByListed(c, receive.prefix, receive.guardians, m)
  {
    var op := ReceiveOp(f, receive);
    ActualizeKeeps(op.act, Extended(f.intake, store, op));
    assert op.act(m).Keep? && f.sign(receive.prefix, m) == SignFilter(c, receive.prefix, m);
    assert Under(m, m.guardianAddress) == m;
  }

  /** Its author signed the message, is a listed guardian, and the message is not too old. */
  predicate Vouched(c: Crypto, v: ReceiveView, m: Message) {
    && SignFilter(c, v.prefix, m).Keep? && m.guardianAddress in v.guardians
    && m.blockNumber > v.head - v.validityBlocks
  }

  /** Exactly the vouched messages, stored or just arrived, are received. So all handled ones are vouched for
      exactly when the handler that makes the list grow, if there is one, is yielded no other. */
  lemma AllVouchedIff(c: Crypto, f: Filters, legacy: bool, store: seq<Message>, receive: ReceiveView,
                      views: nat -> HandlerView)
    requires AreFilters(f, c) && Receiving(f, store, receive).Some?
    ensures var received := Receiving(f, store, receive).value;
            && (forall m :: m in received <==> m in Extended(f.intake, store, ReceiveOp(f, receive))
                                               && Vouched(c, receive, m))
            && ((forall m :: m in HandledList(f, legacy, received, views) ==> Vouched(c, receive, m))
                <==> forall k, m :: 0 <= k < |received| && IsFirst(legacy, received, views, k) ==>
                                      Yielded(f.intake, views(k).batches, m) ==> Vouched(c, receive, m))
  {
    ReceivedVouched(c, f, store, receive);
    var received := Receiving(f, store, receive).value;
    var full := HandledList(f, legacy, received, views);
    forall m
      ensures m in full <==> m in received || m in full[|received|..]
      ensures m in full[|received|..] <==> exists k :: 0 <= k < |received| && IsFirst(legacy, received, views, k)
                                                       && Yielded(f.intake, views(k).batches, m)
    {
      GrowsAt(f, legacy, received, views, m);
      assert full == received + full[|received|..];
    }
  }

  lemma ReceivedVouched(c: Crypto, f: Filters, store: seq<Message>, receive: ReceiveView)
    requires AreFilters(f, c) && Receiving(f, store, receive).Some?
    ensures forall m :: m in Receiving(f, store, receive).value
                        <==> m in Extended(f.intake, store, ReceiveOp(f, receive)) && Vouched(c, receive, m)
  {
    var op := ReceiveOp(f, receive);
    ActualizeKeeps(op.act, Extended(f.intake, store, op));
    forall m
      ensures op.act(m).Keep? <==> Vouched(c, receive, m)
    {
      assert f.sign(receive.prefix, m) == SignFilter(c, receive.prefix, m);
    }
  }

  /** The handler of the k-th message brings a call about only by sending it. */
  lemma SentBy(handle: Handler<Progress, Message>, f: Filters, legacy: bool, views: nat -> HandlerView, p: Progress,
               m: Message, k: nat, call: PauseCall)
    requires Implements(handle, f, legacy, views) && call !in p.calls && call in handle(p, m, k).0.calls
    ensures call in CallOf(legacy, m, views(k))
  {
    assert handle(p, m, k) == Handle(f, legacy, p, m, views(k));
  }

  /** Every call comes from a handler that was started. */
  lemma CallOrigin(handle: Handler<Progress, Message>, f: Filters, legacy: bool, views: nat -> HandlerView,
                   ms: seq<Message>, p: Progress, call: PauseCall) returns (k: nat)
    requires Implements(handle, f, legacy, views) && p.calls == [] && call in RunFrom(handle, ms, 0, p).state.calls
    ensures k < |ms| && k < Started(RunFrom(handle, ms, 0, p)) && call in CallOf(legacy, ms[k], views(k))
  {
    RunEnds(handle, ms, p);
    var holds := (q: Progress) => call in q.calls;
    k := BroughtBy(handle, ms, p, Started(RunFrom(handle, ms, 0, p)), holds);
    SentBy(handle, f, legacy, views, After(handle, ms, p, k), ms[k], k, call);
  }

  /** Every call that an execution sends is the one that the handler of some message sends. The call for a
      received message recovers to a listed guardian and is not too old; the call for an appended one recovers so
      exactly when a listed guardian signed that message, which nothing has checked. */
  lemma CallsListed(c: Crypto, f: Filters, legacy: bool, store: seq<Message>, receive: ReceiveView,
                    views: nat -> HandlerView, call: PauseCall) returns (k: nat)
    requires AreFilters(f, c) && Receiving(f, store, receive).Some?
    requires call in FetchedOutcome(f, legacy, store, receive, views).progress.calls
    ensures var received := Receiving(f, store, receive).value;
            var full := HandledList(f, legacy, received, views);
            && k < |full| && k < Started(Handling(f, legacy, received, views))
            && call in CallOf(legacy, full[k], views(k))
            && (CallListed(c, receive.prefix, receive.guardians, call)
                <==> k < |received| || SignedByListed(c, receive.prefix, receive.guardians, full[k]))
            && (k < |received| ==> call.blockNumber > receive.head - receive.validityBlocks)
  {
    var received := Receiving(f, store, receive).value;
    var full := HandledList(f, legacy, received, views);
    k := CallOrigin(HandlerOf(f, legacy, views), f, legacy, views, full, Progress(received, [], []), call);
    CallListedIff(c, receive.prefix, receive.guardians, legacy, full[k], views(k));
    if k < |received| {
      assert full[k] == received[k];
      ReceivedIsSigned(c, f, store, receive, received[k]);
      ReceivedVouched(c, f, store, receive);
      assert Vouched(c, receive, received[k]);
    }
  }

  /** The call of each turn. */
  function CallGiven(legacy: bool, views: nat -> HandlerView, ms: seq<Message>): nat -> Option<PauseCall> {
    (k: nat) => if k < |ms| && Pauses(legacy, ms[k], views(k)) then Some(CallFor(ms[k])) else None
  }

  function CallsIn(): Progress -> seq<PauseCall> {
    (q: Progress) => q.calls
  }

  lemma CallAdded(handle: Handler<Progress, Message>, f: Filters, legacy: bool, views: nat -> HandlerView,
                  ms: seq<Message>, p: Progress, k: nat, gives: nat -> Option<PauseCall>)
    requires Implements(handle, f, legacy, views) && k < |ms| && gives(k) == CallGiven(legacy, views, ms)(k)
    ensures Adds(handle, ms, p, CallsIn(), gives, k)
  {
    var q := After(handle, ms, p, k);
    assert handle(q, ms[k], k) == Handle(f, legacy, q, ms[k], views(k));
    HandleMeaning(f, legacy, q, ms[k], views(k));
  }

  /** These turns are those that send, and these calls are theirs. */
  ghost predicate AreSent(legacy: bool, views: nat -> HandlerView, ms: seq<Message>, n: nat, turns: seq<nat>,
                          calls: seq<PauseCall>)
    requires n <= |ms|
  {
    && (forall i, j :: 0 <= i < j < |turns| ==> turns[i] < turns[j])
    && (forall k: nat :: k in turns <==> k < n && Pauses(legacy, ms[k], views(k)))
    && |calls| == |turns|
    && forall i :: 0 <= i < |turns| ==>
         turns[i] < |ms| && Pauses(legacy, ms[turns[i]], views(turns[i])) && calls[i] == CallFor(ms[turns[i]])
  }

  lemma GivenAreSent(legacy: bool, views: nat -> HandlerView, ms: seq<Message>, n: nat, turns: seq<nat>,
                     gives: nat -> Option<PauseCall>, calls: seq<PauseCall>)
    requires n <= |ms| && gives == CallGiven(legacy, views, ms) && AreTurns(gives, n, turns)
    requires (forall i :: 0 <= i < |turns| ==> gives(turns[i]).Some?) && calls == [] + Given(gives, turns)
    ensures AreSent(legacy, views, ms, n, turns, calls)
  {
    assert forall i :: 0 <= i < |turns| ==> turns[i] in turns;
  }

  lemma CallsOfTurns(handle: Handler<Progress, Message>, f: Filters, legacy: bool, views: nat -> HandlerView,
                     ms: seq<Message>, p: Progress, n: nat) returns (turns: seq<nat>)
    requires Implements(handle, f, legacy, views) && n <= |ms| && p.calls == []
    ensures AreSent(legacy, views, ms, n, turns, After(handle, ms, p, n).calls)
  {
    var list, gives := CallsIn(), CallGiven(legacy, views, ms);
    forall k: nat | k < n
      ensures Adds(handle, ms, p, list, gives, k)
    {
      CallAdded(handle, f, legacy, views, ms, p, k, gives);
    }
    turns := GivenInOrder(handle, ms, p, n, list, gives);
    GivenAreSent(legacy, views, ms, n, turns, gives, After(handle, ms, p, n).calls);
  }

  /** The calls of an execution are those of the handlers that were started and whose message is fit to be sent:
      one for each, in their order. */
  lemma CallsInOrder(f: Filters, legacy: bool, received: seq<Message>, views: nat -> HandlerView)
    returns (turns: seq<nat>)
    ensures var full, run := HandledList(f, legacy, received, views), Handling(f, legacy, received, views);
            Started(run) <= |full| && AreSent(legacy, views, full, Started(run), turns, run.state.calls)
  {
    var full, p := HandledList(f, legacy, received, views), Progress(received, [], []);
    RunEnds(HandlerOf(f, legacy, views), full, p);
    turns := CallsOfTurns(HandlerOf(f, legacy, views), f, legacy, views, full, p,
                          Started(Handling(f, legacy, received, views)));
  }

  /** The k-th handler returns: its refresh does not raise or, without one, its submission. */
  predicate ReturnsAt(handle: Handler<Progress, Message>, f: Filters, legacy: bool, views: nat -> HandlerView,
                      ms: seq<Message>, p: Progress, k: nat)
    requires k < |ms|
  {
    var m, v := ms[k], views(k);
    if !TargetPaused(legacy, m, v) then ResultOf(legacy, m, v).Ok?
    else
      || legacy
      || Rebound(f.intake, After(handle, ms, p, k).store,
                 Refresh(v.batches, OtherModuleFilter(f, v.prefix, m.pausedModule.value))).Some?
  }

  /** The loop ends behind the first handler that does not return, or behind all of them. */
  ghost predicate HandledUpTo(handle: Handler<Progress, Message>, f: Filters, legacy: bool, views: nat -> HandlerView,
                              ms: seq<Message>, p: Progress, n: nat)
  {
    && n <= |ms| && (forall k: nat :: k < n ==> ReturnsAt(handle, f, legacy, views, ms, p, k))
    && (n < |ms| ==> !ReturnsAt(handle, f, legacy, views, ms, p, n))
  }

  lemma LoopEnds(handle: Handler<Progress, Message>, f: Filters, legacy: bool, views: nat -> HandlerView,
                 ms: seq<Message>, p: Progress)
    requires Implements(handle, f, legacy, views)
    ensures var r := RunFrom(handle, ms, 0, p);
            HandledUpTo(handle, f, legacy, views, ms, p, r.passed) && (r.stopped <==> r.passed < |ms|)
  {
    var goesOn := (k: nat) => k < |ms| && ReturnsAt(handle, f, legacy, views, ms, p, k);
    forall k: nat | k < |ms|
      ensures StopsAt(handle, ms, p, k) <==> !goesOn(k)
    {
      var q := After(handle, ms, p, k);
      assert handle(q, ms[k], k) == Handle(f, legacy, q, ms[k], views(k));
      HandleMeaning(f, legacy, q, ms[k], views(k));
    }
    RunReturns(handle, ms, p, goesOn);
    assert forall k: nat :: k < |ms| ==> (goesOn(k) <==> ReturnsAt(handle, f, legacy, views, ms, p, k));
  }

  /** What an execution comes to. A read or a receive that raises ends it; otherwise it returns True exactly when
      every handler returns. */
  lemma ExecutionMeaning(f: Filters, store: seq<Message>, e: Cycle)
    ensures var o := ExecutionOf(f, store, e);
            if e.receive.Some? && Receiving(f, store, e.receive.value).Some? then
              var received := Receiving(f, store, e.receive.value).value;
              var full := HandledList(f, e.legacy, received, e.views);
              && HandledUpTo(HandlerOf(f, e.legacy, e.views), f, e.legacy, e.views, full, Progress(received, [], []),
                             o.handled)
              && o.progress.calls == Handling(f, e.legacy, received, e.views).state.calls
              && (if o.handled == |full| then o.result == Ok(true) else o.result.Err?)
            else
              o.handled == 0 && o.progress.calls == [] && o.result.Err?
  {
    if e.receive.Some? && Receiving(f, store, e.receive.value).Some? {
      var received := Receiving(f, store, e.receive.value).value;
      LoopEnds(HandlerOf(f, e.legacy, e.views), f, e.legacy, e.views, HandledList(f, e.legacy, received, e.views),
               Progress(received, [], []));
    }
  }

  // ------------------------------------------------------------------
  // Messages that block the bot
  // ------------------------------------------------------------------

  lemma ReceiveSignsFirst(f: Filters, v: ReceiveView)
    ensures SignsFirst(f, ReceiveOp(f, v))
  {
    assert SignsWith(f, v.prefix, ReceiveFilter(f, v));
  }

  /** On messages its schema admits, receiving raises exactly when a transport cannot be read or filtered, or a
      message stored or just arrived is unreadable. */
  lemma ReceivingRaisesIff(c: Crypto, f: Filters, store: seq<Message>, v: ReceiveView)
    requires AreFilters(f, c)
    requires forall m :: m in Extended(f.intake, store, ReceiveOp(f, v)) ==> Admitted(m)
    ensures Receiving(f, store, v).None?
            <==> || !Gather(f.intake, v.batches).complete
                 || exists m :: m in Extended(f.intake, store, ReceiveOp(f, v)) && Unreadable(m)
  {
    var rest := (m: Message) => ActualizeFilter(v, m);
    var op := ReceiveOp(f, v);
    assert SignsThen(f, v.prefix, op.act, rest);
    RefreshRaisesIff(c, f, store, op, v.prefix, rest);
  }

  /** A message blocks every receiving that meets it, whatever is stored beside it and whatever chain and
      transports answer, exactly when it is unreadable. */
  lemma BlocksIff(c: Crypto, f: Filters, m: Message)
    requires AreFilters(f, c) && m.Pause? && Admitted(m)
    ensures (forall store, v :: m in store ==> Receiving(f, store, v).None?) <==> Unreadable(m)
  {
    NeverReadIff(c, f, m);
    if Unreadable(m) {
      forall store, v | m in store
        ensures Receiving(f, store, v).None?
      {
        ReceiveSignsFirst(f, v);
        UnreadStops(f, store, ReceiveOp(f, v), m);
      }
    } else {
      var v := ReceiveView([], [], 0, 0, []);
      assert Extended(f.intake, [m], ReceiveOp(f, v)) == [m];
      ReceivingRaisesIff(c, f, [m], v);
      assert m in [m] && Receiving(f, [m], v).Some?;
    }
  }

  /** The execution finds the message stored, or fetches it first. */
  predicate Meets(f: Filters, store: seq<Message>, e: Cycle, m: Message) {
    m in store || (e.receive.Some? && m in Gather(f.intake, e.receive.value.batches).arrived)
  }

  predicate Silent(o: Outcome, m: Message) {
    o.handled == 0 && o.progress.calls == [] && m in o.progress.store && o.result.Err?
  }

  /** An execution that meets a message which cannot be read handles nothing, sends nothing, raises, and leaves
      the message stored. */
  lemma ExecutionBlocked(f: Filters, store: seq<Message>, e: Cycle, m: Message)
    requires NeverRead(f, m) && Meets(f, store, e, m)
    ensures Silent(ExecutionOf(f, store, e), m)
  {
    if e.receive.Some? {
      var receive := e.receive.value;
      ReceiveSignsFirst(f, receive);
      UnreadStops(f, store, ReceiveOp(f, receive), m);
    }
  }

  /** Executions one after another, as far as the store is concerned. */
  function ExecutorOf(f: Filters): Handler<seq<Message>, Cycle> {
    (store: seq<Message>, e: Cycle, k: nat) => (ExecutionOf(f, store, e).progress.store, false)
  }

  /** The store of a bot that started with nothing after the first k of these executions. */
  function StoredAfter(f: Filters, run: seq<Cycle>, k: nat): seq<Message>
    requires k <= |run|
  {
    After(ExecutorOf(f), run, [], k)
  }

  lemma StoredStep(f: Filters, run: seq<Cycle>, k: nat, m: Message)
    requires NeverRead(f, m) && k < |run| && Meets(f, StoredAfter(f, run, k), run[k], m)
    ensures m in StoredAfter(f, run, k + 1)
  {
    ExecutionBlocked(f, StoredAfter(f, run, k), run[k], m);
  }

  /** From the first execution that meets it on, */
  lemma StaysStored(f: Filters, run: seq<Cycle>, n: nat, m: Message, j: nat)
    requires NeverRead(f, m) && n < j <= |run| && Meets(f, StoredAfter(f, run, n), run[n], m)
    ensures m in StoredAfter(f, run, j)
  {
    var handle, holds := ExecutorOf(f), (k: nat, store: seq<Message>) => m in store;
    StoredStep(f, run, n, m);
    forall k: nat, store | n < k < |run| && holds(k, store)
      ensures holds(k + 1, handle(store, run[k], k).0)
    {
      ExecutionBlocked(f, store, run[k], m);
    }
    Kept(handle, run, [], n + 1, j, holds);
  }

  /** an unreadable message keeps every execution from handling and sending anything. */
  lemma BlockedForGood(c: Crypto, f: Filters, run: seq<Cycle>, n: nat, m: Message, j: nat)
    requires AreFilters(f, c) && n <= j < |run| && Admitted(m) && Unreadable(m)
    requires Meets(f, StoredAfter(f, run, n), run[n], m)
    ensures var o := ExecutionOf(f, StoredAfter(f, run, j), run[j]);
            o.handled == 0 && o.progress.calls == [] && m in o.progress.store && o.result.Err?
  {
    NeverReadIff(c, f, m);
    if n < j {
      StaysStored(f, run, n, m, j);
    }
    ExecutionBlocked(f, StoredAfter(f, run, j), run[j], m);
  }

  // ------------------------------------------------------------------
  // When an execution handles everything
  // ------------------------------------------------------------------

  /** Pause messages that their schema admits and that can be read. */
  ghost predicate ReadablePauses(ms: seq<Message>) {
    && (forall x :: x in ms ==> x.Pause?)
    && (forall x {:trigger Admitted(x)} :: x in ms ==> Admitted(x))
    && (forall x {:trigger Unreadable(x)} :: x in ms ==> !Unreadable(x))
  }

  /** The answers of one handler: nothing raises, and what its transports yield can be read. */
  ghost predicate Calm(f: Filters, prefix: seq<byte>, v: HandlerView) {
    && v.halted.Some? && v.check.Some? && v.send.Some? && v.prefix == prefix
    && Gather(f.intake, v.batches).complete && ReadablePauses(Gather(f.intake, v.batches).arrived)
  }

  /** There is a signed message of the old kind, without a module id, among them. */
  ghost predicate OldAmong(c: Crypto, prefix: seq<byte>, ms: seq<Message>) {
    exists x :: x in ms && IsOld(x) && SignFilter(c, prefix, x).Keep?
  }

  predicate IsOld(m: Message) {
    m.Pause? && m.pausedModule.None?
  }

  /** Under the new contract such a handler raises exactly when it finds its module paused while a signed message
      of the old kind is stored or arrives. */
  lemma HandlerStopsIff(c: Crypto, f: Filters, prefix: seq<byte>, p: Progress, m: Message, v: HandlerView)
    requires AreFilters(f, c) && m.Pause? && Calm(f, prefix, v) && ReadablePauses(p.store)
    ensures Handle(f, false, p, m, v).1
            <==> && FindsHalted(false, m, v)
                 && OldAmong(c, prefix, p.store + Gather(f.intake, v.batches).arrived)
  {
    if FindsHalted(false, m, v) {
      var op, id := HandlerOp(f, false, m, v)[0], m.pausedModule.value;
      var rest := (x: Message) => if !x.Pause? || x.pausedModule.None? then Raise
                                  else if x.pausedModule.value != id then Keep
                                  else Drop;
      assert SignsThen(f, prefix, op.act, rest);
      RefreshRaisesIff(c, f, p.store, op, prefix, rest);
      assert forall x :: x in Extended(f.intake, p.store, op) ==>
                           (RaisesBehind(c, prefix, rest, x) <==> IsOld(x) && SignFilter(c, prefix, x).Keep?);
    }
  }

  /** A handler that refreshes leaves messages with a module id only; any other leaves the store as it was. */
  lemma HandlerLeaves(f: Filters, prefix: seq<byte>, p: Progress, m: Message, v: HandlerView)
    requires m.Pause? && Calm(f, prefix, v) && ReadablePauses(p.store) && !Handle(f, false, p, m, v).1
    ensures var s := Handle(f, false, p, m, v).0.store;
            ReadablePauses(s) && if FindsHalted(false, m, v) then forall x :: x in s ==> !IsOld(x) else s == p.store
  {
    if FindsHalted(false, m, v) {
      HandlerKeeps(f, p.store, m, v);
    }
  }

  /** What the handlers of an execution meet. */
  ghost predicate AllCalm(f: Filters, prefix: seq<byte>, views: nat -> HandlerView) {
    forall k {:trigger views(k)} :: Calm(f, prefix, views(k))
  }

  /** The store before the k-th handler: the received messages as long as none has refreshed it, and none of
      the old kind after that. */
  ghost predicate Untouched(received: seq<Message>, full: seq<Message>, views: nat -> HandlerView, s: seq<Message>,
                            k: nat)
    requires k <= |full|
  {
    && ReadablePauses(s)
    && if forall j :: 0 <= j < k ==> !FindsHalted(false, full[j], views(j)) then s == received
       else forall x :: x in s ==> !IsOld(x)
  }

  lemma StoreStep(handle: Handler<Progress, Message>, f: Filters, prefix: seq<byte>, views: nat -> HandlerView,
                  full: seq<Message>, received: seq<Message>, q: Progress, i: nat)
    requires Implements(handle, f, false, views) && i < |full| && full[i].Pause? && Calm(f, prefix, views(i))
    requires Untouched(received, full, views, q.store, i) && !handle(q, full[i], i).1
    ensures Untouched(received, full, views, handle(q, full[i], i).0.store, i + 1)
  {
    assert handle(q, full[i], i) == Handle(f, false, q, full[i], views(i));
    HandlerLeaves(f, prefix, q, full[i], views(i));
  }

  /** The same step for the handler of a whole list. */
  lemma StepBefore(handle: Handler<Progress, Message>, f: Filters, prefix: seq<byte>, views: nat -> HandlerView,
                   full: seq<Message>, received: seq<Message>, q: Progress, i: nat)
    requires Implements(handle, f, false, views) && AllCalm(f, prefix, views) && ReadablePauses(full) && i < |full|
    requires Untouched(received, full, views, q.store, i) && !handle(q, full[i], i).1
    ensures Untouched(received, full, views, handle(q, full[i], i).0.store, i + 1)
  {
    assert full[i] in full && Calm(f, prefix, views(i));
    StoreStep(handle, f, prefix, views, full, received, q, i);
  }

  lemma {:induction false} StoreBefore(handle: Handler<Progress, Message>, f: Filters, prefix: seq<byte>,
                                       views: nat -> HandlerView, full: seq<Message>, p: Progress, k: nat)
    requires Implements(handle, f, false, views) && AllCalm(f, prefix, views)
    requires ReadablePauses(full) && ReadablePauses(p.store)
    requires k <= |full| && forall j :: 0 <= j < k ==> !StopsAt(handle, full, p, j)
    ensures Untouched(p.store, full, views, After(handle, full, p, k).store, k)
    decreases k
  {
    if k > 0 {
      var i := k - 1;
      StoreBefore(handle, f, prefix, views, full, p, i);
      assert !StopsAt(handle, full, p, i);
      StepBefore(handle, f, prefix, views, full, p.store, After(handle, full, p, i), i);
      assert After(handle, full, p, k) == handle(After(handle, full, p, i), full[i], i).0;
    }
  }

  /** The k-th message finds its module paused while a signed message of the old kind is among the received ones
      or arrives in this handler. */
  ghost predicate MeetsOld(c: Crypto, f: Filters, prefix: seq<byte>, received: seq<Message>, full: seq<Message>,
                           views: nat -> HandlerView, k: nat)
    requires k < |full|
  {
    && FindsHalted(false, full[k], views(k))
    && OldAmong(c, prefix, received + Gather(f.intake, views(k).batches).arrived)
  }

  lemma StopsMeetingOld(c: Crypto, handle: Handler<Progress, Message>, f: Filters, prefix: seq<byte>,
                        views: nat -> HandlerView, full: seq<Message>, p: Progress, k: nat)
    requires AreFilters(f, c) && Implements(handle, f, false, views) && AllCalm(f, prefix, views)
    requires ReadablePauses(full) && ReadablePauses(p.store)
    requires k < |full| && forall j :: 0 <= j < k ==> !StopsAt(handle, full, p, j)
    ensures StopsAt(handle, full, p, k) ==> MeetsOld(c, f, prefix, p.store, full, views, k)
    ensures (forall j :: 0 <= j < k ==> !FindsHalted(false, full[j], views(j))) ==>
              (MeetsOld(c, f, prefix, p.store, full, views, k) ==> StopsAt(handle, full, p, k))
    ensures FindsHalted(false, full[k], views(k)) && OldAmong(c, prefix, Gather(f.intake, views(k).batches).arrived)
            ==> StopsAt(handle, full, p, k)
  {
    var q := After(handle, full, p, k);
    StoreBefore(handle, f, prefix, views, full, p, k);
    assert full[k] in full && Calm(f, prefix, views(k));
    assert handle(q, full[k], k) == Handle(f, false, q, full[k], views(k));
    HandlerStopsIff(c, f, prefix, q, full[k], views(k));
  }

  /** Under the new contract an execution whose reads and sends do not raise handles everything it received, and
      what is appended, exactly when no message of the list finds its module paused while a signed message of the
      old kind has been received or arrives in that handler. */
  lemma HandlesAllIff(c: Crypto, f: Filters, prefix: seq<byte>, received: seq<Message>, views: nat -> HandlerView)
    requires AreFilters(f, c) && AllCalm(f, prefix, views) && ReadablePauses(received)
    ensures var full := HandledList(f, false, received, views);
            var run := Handling(f, false, received, views);
            && (run.stopped <==> exists k :: 0 <= k < |full| && MeetsOld(c, f, prefix, received, full, views, k))
            && (!run.stopped ==> run.passed == |full|)
  {
    var full, p := HandledList(f, false, received, views), Progress(received, [], []);
    var handle := HandlerOf(f, false, views);
    var run := RunFrom(handle, full, 0, p);
    var first := FirstRefresh(false, received, views, 0);
    assert Calm(f, prefix, views(first));
    RunMeaning(handle, full, p, run);
    if run.stopped {
      StopsMeetingOld(c, handle, f, prefix, views, full, p, run.passed);
    } else {
      forall k | 0 <= k < |full|
        ensures !MeetsOld(c, f, prefix, received, full, views, k)
      {
        NeverMeetsOld(c, handle, f, prefix, views, full, p, k);
      }
    }
  }

  lemma NeverMeetsOld(c: Crypto, handle: Handler<Progress, Message>, f: Filters, prefix: seq<byte>,
                      views: nat -> HandlerView, full: seq<Message>, p: Progress, k: nat)
    requires AreFilters(f, c) && Implements(handle, f, false, views) && AllCalm(f, prefix, views)
    requires ReadablePauses(full) && ReadablePauses(p.store)
    requires k < |full| && forall j :: 0 <= j < |full| ==> !StopsAt(handle, full, p, j)
    ensures !MeetsOld(c, f, prefix, p.store, full, views, k)
  {
    if FindsHalted(false, full[k], views(k)) {
      var first := FirstRefresh(false, full, views, 0);
      assert first <= k;
      StopsMeetingOld(c, handle, f, prefix, views, full, p, k);
      StopsMeetingOld(c, handle, f, prefix, views, full, p, first);
    }
  }

  // ------------------------------------------------------------------
  // The bot
  // ------------------------------------------------------------------

  class PauserBot {
    const filters: Filters
    const storage: Storage<Message>

    ghost predicate Valid()
      reads this, storage, storage.messages
    {
      storage.Valid() && storage.intake == filters.intake
    }

    constructor (crypto: Crypto)
      ensures Valid() && fresh(storage) && fresh(storage.messages)
      ensures filters == FiltersOf(crypto) && storage.history == [] && storage.messages.items == []
    {
      filters := FiltersOf(crypto);
      storage := new Storage(FiltersOf(crypto).intake);
    }

    /** `_send_pause_message` with `_send_pause` and `_send_pause_v2`. p is the progress made in an
        execution that met the history `before`. */
    method SendPauseMessage(legacy: bool, m: Message, v: HandlerView, ghost before: seq<Op<Message>>, ghost p: Progress)
      returns (r: Result<bool, BotError>, calls: seq<PauseCall>)
      requires Valid()
      requires storage.messages.items == p.store && storage.history == before + p.ops
      modifies storage, storage.messages
      ensures Valid()
      ensures var (p', raises) := Handle(filters, legacy, p, m, v);
              && (r.Err? <==> raises) && (r.Ok? ==> r == ResultOf(legacy, m, v)) && p'.calls == p.calls + calls
              && storage.messages.items == p'.store && storage.history == before + p'.ops
      ensures old(storage.messages).items ==
              p.store + if !legacy && FindsHalted(legacy, m, v) then Gather(filters.intake, v.batches).arrived else []
      ensures if r.Ok? && FindsHalted(legacy, m, v) then fresh(storage.messages)
              else storage.messages == old(storage.messages)
    {
      calls := [];
      ConcatAssoc(before, p.ops, HandlerOp(filters, legacy, m, v));
      if FindsHalted(legacy, m, v) {
        if legacy {
          storage.ClearAll();
        } else {
          var refreshed := storage.GetMessagesAndActualize(
            v.batches, OtherModuleFilter(filters, v.prefix, m.pausedModule.value));
          if refreshed.Err? {
            return Err(BotError.BotError), [];
          }
        }
        return Ok(false), [];
      }
      r, calls := ResultOf(legacy, m, v), CallOf(legacy, m, v);
    }

    /** One turn of the loop of `execute`. */
    method HandleNext(legacy: bool, m: Message, k: nat, views: nat -> HandlerView,
                      ghost handle: Handler<Progress, Message>, ghost before: seq<Op<Message>>, ghost p: Progress,
                      ghost more: seq<Message>)
      returns (r: Result<bool, BotError>, calls: seq<PauseCall>)
      requires Valid() && Implements(handle, filters, legacy, views)
      requires storage.messages.items == p.store && storage.history == before + p.ops
      modifies storage, storage.messages
      ensures Valid()
      ensures var (p', raises) := handle(p, m, k);
              && (r.Err? <==> raises) && p'.calls == p.calls + calls
              && storage.messages.items == p'.store && storage.history == before + p'.ops
      ensures if r.Ok? && FindsHalted(legacy, m, views(k)) then fresh(storage.messages)
              else storage.messages == old(storage.messages)
      ensures !legacy && FindsHalted(legacy, m, views(k)) && Appends(filters, views(k), more) ==>
                old(storage.messages).items == p.store + more
      ensures legacy || !FindsHalted(legacy, m, views(k)) ==> old(storage.messages).items == p.store
    {
      r, calls := SendPauseMessage(legacy, m, views(k), before, p);
    }

    /** The loop of `execute`, with the meaning of its counterpart in the unvetter bot: the list object
        grows, by `more`, in the first handler that refreshes the store. */
    method HandleAll(legacy: bool, list: PyList<Message>, views: nat -> HandlerView,
                     ghost handle: Handler<Progress, Message>, ghost first: nat, ghost more: seq<Message>)
      returns (r: Result<bool, BotError>, calls: seq<PauseCall>, ghost handled: nat)
      requires Valid() && storage.messages == list && Implements(handle, filters, legacy, views)
      requires IsFirst(legacy, list.items, views, first)
      requires first < |list.items| ==> Appends(filters, views(first), more)
      modifies storage, list
      ensures Valid()
      ensures var full := old(list.items) + if first < |old(list.items)| then more else [];
              var run := RunFrom(handle, full, 0, Progress(old(list.items), [], []));
              && handled == run.passed && r == (if run.stopped then Err(BotError.BotError) else Ok(true))
              && (r.Ok? ==> list.items == full) && (legacy ==> list.items == old(list.items))
              && calls == run.state.calls && storage.history == old(storage.history) + run.state.ops
              && storage.messages.items == run.state.store
    {
      calls, handled := [], 0;
      ghost var store, before := list.items, storage.history;
      ghost var full := store + if first < |store| then more else [];
      ghost var p := Progress(store, [], []);
      ghost var run := RunFrom(handle, full, 0, p);
      var i := 0;
      while i < |list.items|
        invariant Valid()
        invariant storage.messages == list || fresh(storage.messages)
        invariant if i <= first then list.items == store && (!legacy ==> storage.messages == list)
                  else storage.messages != list && list.items == full
        invariant legacy ==> list.items == store
        invariant handled == i <= |list.items| && i <= |full|
        invariant RunFrom(handle, full, i, p) == run
        invariant calls == p.calls && storage.history == before + p.ops && storage.messages.items == p.store
        decreases if i <= first then 1 else 0, |list.items| - i
      {
        assert full[i] == list.items[i];
        var sent, call := HandleNext(legacy, list.items[i], i, views, handle, before, p, more);
        p := handle(p, full[i], i).0;
        calls := calls + call;
        if sent.Err? {
          return Err(BotError.BotError), calls, handled;
        }
        handled, i := handled + 1, i + 1;
      }
      r := Ok(true);
    }

    /** `execute`: receive, then handle. */
    method Execute(e: Cycle) returns (r: Result<bool, BotError>, calls: seq<PauseCall>, ghost handled: nat)
      requires Valid()
      modifies storage, storage.messages
      ensures Valid()
      ensures var o := ExecutionOf(filters, old(storage.messages.items), e);
              && r == o.result && calls == o.progress.calls && handled == o.handled
              && storage.messages.items == o.progress.store
              && storage.history == old(storage.history) + o.progress.ops
    {
      if e.receive.None? {
        return Err(BotError.BotError), [], 0;
      }
      var receive := e.receive.value;
      ghost var op, before := ReceiveOp(filters, receive), storage.history;
      var received := storage.GetMessagesAndActualize(receive.batches, ReceiveFilter(filters, receive));
      if received.Err? {
        return Err(BotError.BotError), [], 0;
      }
      ghost var got := received.value.items;
      ghost var k := FirstRefresh(e.legacy, got, e.views, 0);
      assert Receiving(filters, old(storage.messages.items), receive) == Some(got);
      r, calls, handled := HandleAll(e.legacy, received.value, e.views, HandlerOf(filters, e.legacy, e.views), k,
                                     Gather(filters.intake, e.views(k).batches).arrived);
      ConcatAssoc(before, [op], Handling(filters, e.legacy, got, e.views).state.ops);
    }
  }
}
