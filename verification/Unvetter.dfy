/** The unvetter bot of src/bots/unvetter.py: a loop over the store's own list
    whose body refreshes the store. */
module Unvetter {
  import opened Bytes
  import opened HandlerLoop
  import opened Messages
  import opened MessageStorage
  import opened Wrappers

  datatype BotError = BotError

  /** What the chain and the transports answer while messages are received: the transports last. */
  datatype ReceiveView = ReceiveView(
    batches: seq<Batch<Message>>,
    prefix: seq<byte>,
    nonces: map<int, int>,
    guardians: seq<string>)

  /** What they answer while one message is handled. None is an answer that raises: a nonce or prefix that
      cannot be read, an unread operator limit, a check or a send that fails with an exception. */
  datatype HandlerView = HandlerView(
    nonce: Option<int>,
    batches: seq<Batch<Message>>,
    prefix: seq<byte>,
    maxOperators: Option<int>,
    check: Option<bool>,
    send: Option<bool>)

  /** One `unvetSigningKeys` call. */
  datatype UnvetCall = UnvetCall(blockNumber: int, blockHash: string, moduleId: int, nonce: int,
                                 operatorIds: seq<byte>, vettedKeys: seq<byte>, signature: Signature)

  // ------------------------------------------------------------------
  // Filters and the handling of one message, on values
  // ------------------------------------------------------------------

  /** The filter of `_get_message_actualize_filter`; a missing nonce and an unknown module id are a KeyError. */
  function ActualizeFilter(v: ReceiveView, m: Message): Verdict {
    if !m.Unvet? then Raise
    else if m.guardianAddress !in v.guardians then Drop
    else if m.unvetNonce.None? || m.stakingModuleId !in v.nonces then Raise
    else if m.unvetNonce.value >= v.nonces[m.stakingModuleId] then Keep
    else Drop
  }

  function ReceiveFilter(f: Filters, v: ReceiveView): Message -> Verdict {
    (m: Message) => Both(f.sign(v.prefix, m), ActualizeFilter(v, m))
  }

  /** `is_unvet_message_relevant` for the module and the nonce just read. */
  function RelevantFilter(f: Filters, prefix: seq<byte>, moduleId: int, nonce: int): Message -> Verdict {
    (m: Message) =>
         if !m.Unvet? then Raise
         else if m.stakingModuleId != moduleId then f.sign(prefix, m)
         else if m.unvetNonce.None? then Raise
         else if m.unvetNonce.value >= nonce then f.sign(prefix, m)
         else Drop
  }

  /** What the handler does once the store is refreshed: the call it sends, if any, and its result. */
  function Submit(m: Message, v: HandlerView): (seq<UnvetCall>, Result<bool, BotError>) {
    if !m.Unvet? then ([], Err(BotError.BotError))
    else
      match (FromHexStringToBytes(m.operatorIds), v.maxOperators, FromHexStringToBytes(m.vettedKeysByOperator))
      case (Some(ids), Some(max), keys) =>
        // the source divides in floating point: len / 8 > max
        if |ids| > 8 * max then ([], Ok(false))
        else if m.unvetNonce.None? || keys.None? || v.check.None? then ([], Err(BotError.BotError))
        else if !v.check.value then ([], Ok(false))
        else
          ([UnvetCall(m.blockNumber, m.blockHash, m.stakingModuleId, m.unvetNonce.value, ids, keys.value,
                      m.signature)],
           if v.send.Some? then Ok(v.send.value) else Err(BotError.BotError))
      case _ => ([], Err(BotError.BotError))
  }

  /** The refresh a handler starts with. */
  function HandlerOp(f: Filters, m: Message, v: HandlerView): Op<Message>
    requires m.Unvet? && v.nonce.Some?
  {
    Refresh(v.batches, RelevantFilter(f, v.prefix, m.stakingModuleId, v.nonce.value))
  }

  /** The messages one execution handles when nothing raises: the received ones, then the batch
      that the first handler's refresh appends to the very list being iterated. */
  function HandledList(f: Filters, received: seq<Message>, first: HandlerView): seq<Message> {
    if received == [] then [] else received + Gather(f.intake, first.batches).arrived
  }

  /** The refresh of this handler appends `more`. */
  ghost predicate Appends(f: Filters, v: HandlerView, more: seq<Message>) {
    forall b {:trigger Gather(f.intake, b)} :: b == v.batches ==> Gather(f.intake, b).arrived == more
  }

  /** The stored messages, and the store operations started and calls sent so far. */
  datatype Progress = Progress(store: seq<Message>, ops: seq<Op<Message>>, calls: seq<UnvetCall>)

  /** `_send_unvet_message`: the progress it makes, and whether it raises. */
  function Handle(f: Filters, p: Progress, m: Message, v: HandlerView): (Progress, bool) {
    if !m.Unvet? || v.nonce.None? then (p, true)
    else
      var op := HandlerOp(f, m, v);
      var refreshed := Progress(Step(f.intake, p.store, op), p.ops + [op], p.calls);
      if Rebound(f.intake, p.store, op).None? then (refreshed, true)
      else (refreshed.(calls := p.calls + Submit(m, v).0), Submit(m, v).1.Err?)
  }

  /** The handlers of one execution. */
  function HandlerOf(f: Filters, views: nat -> HandlerView): Handler<Progress, Message> {
    (p: Progress, m: Message, k: nat) => Handle(f, p, m, views(k))
  }

  /** `handle` is these handlers. */
  ghost predicate Implements(handle: Handler<Progress, Message>, f: Filters, views: nat -> HandlerView) {
    forall p, m, k {:trigger Handle(f, p, m, views(k))} :: handle(p, m, k) == Handle(f, p, m, views(k))
  }

  // ------------------------------------------------------------------
  // What one handler keeps and sends
  // ------------------------------------------------------------------

  /** After a handler's refresh the store holds exactly the signed messages, stored or just received,
      that name another module or a nonce not yet passed. */
  lemma HandlerKeeps(f: Filters, store: seq<Message>, m: Message, v: HandlerView)
    requires m.Unvet? && v.nonce.Some? && Rebound(f.intake, store, HandlerOp(f, m, v)).Some?
    ensures forall x :: x in Rebound(f.intake, store, HandlerOp(f, m, v)).value
                        <==> && x in store + Gather(f.intake, v.batches).arrived && x.Unvet?
                             && (x.stakingModuleId != m.stakingModuleId
                                 || (x.unvetNonce.Some? && x.unvetNonce.value >= v.nonce.value))
                             && f.sign(v.prefix, x).Keep?
  {
    var op := HandlerOp(f, m, v);
    ActualizeKeeps(op.act, Extended(f.intake, store, op));
  }

  /** The message x is for the module of m, and for a nonce that the module is past. */
  predicate Passed(m: Message, v: HandlerView, x: Message)
    requires m.Unvet? && v.nonce.Some?
  {
    && x.Unvet? && x.stakingModuleId == m.stakingModuleId
    && x.unvetNonce.Some? && x.unvetNonce.value < v.nonce.value
  }

  lemma RelevantRaises(c: Crypto, f: Filters, m: Message, v: HandlerView, x: Message)
    requires AreFilters(f, c) && m.Unvet? && v.nonce.Some? && x.Unvet? && Admitted(x)
    ensures RelevantFilter(f, v.prefix, m.stakingModuleId, v.nonce.value)(x).Raise?
            <==> Unreadable(x) && !Passed(m, v, x)
  {
    SignRaisesIff(c, v.prefix, x);
    assert f.sign(v.prefix, x) == SignFilter(c, v.prefix, x);
  }

  /** Whether its refresh raises: on messages their schema admits, exactly when a transport cannot be read or filtered,
      or a message stored or just received is unreadable, unless it is for this module and a nonce already passed,
      for then it is dropped before its signature is looked at. */
  lemma HandlerRaisesIff(c: Crypto, f: Filters, store: seq<Message>, m: Message, v: HandlerView)
    requires AreFilters(f, c) && m.Unvet? && v.nonce.Some?
    requires forall x :: x in Extended(f.intake, store, HandlerOp(f, m, v)) ==> x.Unvet? && Admitted(x)
    ensures Rebound(f.intake, store, HandlerOp(f, m, v)).None?
            <==> || !Gather(f.intake, v.batches).complete
                 || exists x :: x in Extended(f.intake, store, HandlerOp(f, m, v)) && Unreadable(x)
                                && !Passed(m, v, x)
  {
    var op := HandlerOp(f, m, v);
    var all, raises := Extended(f.intake, store, op), (x: Message) => op.act(x).Raise?;
    ActualizeMeaning(op.act, all);
    forall x | x in all
      ensures raises(x) <==> Unreadable(x) && !Passed(m, v, x)
    {
      RelevantRaises(c, f, m, v, x);
    }
    assert Rebound(f.intake, store, op).None?
      <==> !Gather(f.intake, v.batches).complete || exists x :: x in all && raises(x);
  }

  /** The message is complete and decodes, its operators are no more than eight bytes each allow, and the check of
      its transaction succeeds. */
  predicate Submits(m: Message, v: HandlerView) {
    && m.Unvet? && m.unvetNonce.Some?
    && FromHexStringToBytes(m.operatorIds).Some? && FromHexStringToBytes(m.vettedKeysByOperator).Some?
    && v.maxOperators.Some? && |FromHexStringToBytes(m.operatorIds).value| <= 8 * v.maxOperators.value
    && v.check == Some(true)
  }

  /** The call that names exactly the fields of the message. */
  function CallFor(m: Message): UnvetCall
    requires m.Unvet? && m.unvetNonce.Some?
    requires FromHexStringToBytes(m.operatorIds).Some? && FromHexStringToBytes(m.vettedKeysByOperator).Some?
  {
    UnvetCall(m.blockNumber, m.blockHash, m.stakingModuleId, m.unvetNonce.value,
              FromHexStringToBytes(m.operatorIds).value, FromHexStringToBytes(m.vettedKeysByOperator).value,
              m.signature)
  }

  /** When a call is sent, and what each result means: success is that of the send; False comes from too many
      operators, a failed check or a failed send; everything else raises. */
  lemma SubmitMeaning(m: Message, v: HandlerView)
    ensures Submit(m, v).0 == if Submits(m, v) then [CallFor(m)] else []
    ensures Submit(m, v).1 == Ok(true) <==> Submits(m, v) && v.send == Some(true)
    ensures Submit(m, v).1 == Ok(false)
            <==> && m.Unvet? && FromHexStringToBytes(m.operatorIds).Some? && v.maxOperators.Some?
                 && (|| |FromHexStringToBytes(m.operatorIds).value| > 8 * v.maxOperators.value
                     || (Submits(m, v) && v.send == Some(false))
                     || (Submits(m, v.(check := Some(true))) && v.check == Some(false)))
  {
  }

  /** The handler of this message refreshes the store without an exception. */
  predicate Refreshes(f: Filters, store: seq<Message>, m: Message, v: HandlerView) {
    m.Unvet? && v.nonce.Some? && Rebound(f.intake, store, HandlerOp(f, m, v)).Some?
  }

  /** What one handler does: it sends exactly behind a refresh that did not raise, and raises exactly when the
      refresh or the submission does. */
  lemma HandleMeaning(f: Filters, p: Progress, m: Message, v: HandlerView)
    ensures var (p', stops) := Handle(f, p, m, v);
            && p'.calls == p.calls + (if Refreshes(f, p.store, m, v) && Submits(m, v) then [CallFor(m)] else [])
            && (stops <==> !Refreshes(f, p.store, m, v) || Submit(m, v).1.Err?)
            && (Refreshes(f, p.store, m, v) ==>
                  Rebound(f.intake, p.store, HandlerOp(f, m, v)) == Some(p'.store)
                  && p'.ops == p.ops + [HandlerOp(f, m, v)])
  {
    SubmitMeaning(m, v);
  }

  /** A signed message is sent with exactly the fields its guardian signed, so the contract recovers
      that guardian, and never with more operators than the contract allows. */
  lemma CallIsSigned(c: Crypto, prefix: seq<byte>, m: Message, v: HandlerView)
    requires SignFilter(c, prefix, m).Keep? && Submit(m, v).0 != []
    ensures var call := Submit(m, v).0[0];
            && Submit(m, v).0 == [call]
            && IsUint256(call.blockNumber) && IsUint256(call.moduleId) && IsUint256(call.nonce)
            && Hash32(call.blockHash).Some? && v.maxOperators.Some? && |call.operatorIds| <= 8 * v.maxOperators.value
            && var data := UnvetData(prefix, call.blockNumber, Hash32(call.blockHash).value, call.moduleId, call.nonce,
                                     call.operatorIds, call.vettedKeys);
               SignerOf(c, data, call.signature).Some?
               && m.guardianAddress == c.checksum(SignerOf(c, data, call.signature).value)
  {
    SignedRecovers(c, prefix, m);
  }

  // ------------------------------------------------------------------
  // Which handled messages the receive filter has seen
  // ------------------------------------------------------------------

  /** The refresh that an execution starts with. */
  function ReceiveOp(f: Filters, receive: ReceiveView): Op<Message> {
    Refresh(receive.batches, ReceiveFilter(f, receive))
  }

  /** The messages received from a store, when nothing raises. */
  function Receiving(f: Filters, store: seq<Message>, receive: ReceiveView): Option<seq<Message>> {
    Rebound(f.intake, store, ReceiveOp(f, receive))
  }

  /** The batch pulled in by the first handler meets no filter but the construction ones: behind the
      received messages exactly what those make of the messages yielded is handled, in the same execution. */
  lemma AppendedIsHandled(f: Filters, received: seq<Message>, first: HandlerView, x: Message)
    ensures received <= HandledList(f, received, first)
    ensures x in HandledList(f, received, first)[|received|..]
            <==> received != [] && Yielded(f.intake, first.batches, x)
  {
    ArrivedIsYielded(f.intake, first.batches, x);
  }

  /** Its author signed the message and is a listed guardian, and it is for a known module and a nonce that is
      not yet passed. */
  predicate Vouched(c: Crypto, v: ReceiveView, m: Message) {
    && m.Unvet? && SignFilter(c, v.prefix, m).Keep? && m.guardianAddress in v.guardians
    && m.unvetNonce.Some? && m.stakingModuleId in v.nonces && m.unvetNonce.value >= v.nonces[m.stakingModuleId]
  }

  /** Every received message is vouched for. So all handled ones are exactly when nothing was received or the
      transports yield no message to the first handler that is not: an outsider needs one received message. */
  lemma AllVouchedIff(c: Crypto, f: Filters, store: seq<Message>, receive: ReceiveView, first: HandlerView)
    requires AreFilters(f, c) && Receiving(f, store, receive).Some?
    ensures var received := Receiving(f, store, receive).value;
            && (forall m :: m in received <==> m in Extended(f.intake, store, ReceiveOp(f, receive))
                                               && Vouched(c, receive, m))
            && ((forall m :: m in HandledList(f, received, first) ==> Vouched(c, receive, m))
                <==> (received == [] || forall m :: Yielded(f.intake, first.batches, m) ==> Vouched(c, receive, m)))
  {
    var op := ReceiveOp(f, receive);
    ActualizeKeeps(op.act, Extended(f.intake, store, op));
    var received := Receiving(f, store, receive).value;
    forall m
      ensures op.act(m).Keep? <==> Vouched(c, receive, m)
    {
      assert f.sign(receive.prefix, m) == SignFilter(c, receive.prefix, m);
    }
    forall m
      ensures m in Gather(f.intake, first.batches).arrived <==> Yielded(f.intake, first.batches, m)
    {
      ArrivedIsYielded(f.intake, first.batches, m);
    }
  }

  /** The contract recovers a listed guardian from the call. */
  predicate CallListed(c: Crypto, prefix: seq<byte>, guardians: seq<string>, call: UnvetCall) {
    && IsUint256(call.blockNumber) && IsUint256(call.moduleId) && IsUint256(call.nonce)
    && Hash32(call.blockHash).Some?
    && Listed(c, guardians,
              SignerOf(c, UnvetData(prefix, call.blockNumber, Hash32(call.blockHash).value, call.moduleId, call.nonce,
                                    call.operatorIds, call.vettedKeys), call.signature))
  }

  /** It does exactly when the sign filter would keep the message under some listed address. */
  lemma CallListedIff(c: Crypto, prefix: seq<byte>, guardians: seq<string>, m: Message, v: HandlerView)
    requires Submit(m, v).0 != []
    ensures CallListed(c, prefix, guardians, Submit(m, v).0[0]) <==> SignedByListed(c, prefix, guardians, m)
  {
    if SignedBytes(prefix, m).value.Some? {
      RecoversListedIff(c, prefix, guardians, m);
    } else {
      assert forall g :: SignedBytes(prefix, Under(m, g)) == SignedBytes(prefix, m);
    }
  }

  lemma ReceivedIsSigned(c: Crypto, f: Filters, store: seq<Message>, receive: ReceiveView, m: Message)
    requires AreFilters(f, c) && Receiving(f, store, receive).Some? && m in Receiving(f, store, receive).value
    ensures SignedByListed(c, receive.prefix, receive.guardians, m)
  {
    var op := ReceiveOp(f, receive);
    ActualizeKeeps(op.act, Extended(f.intake, store, op));
    assert op.act(m).Keep? && f.sign(receive.prefix, m) == SignFilter(c, receive.prefix, m);
    assert Under(m, m.guardianAddress) == m;
  }

  // ------------------------------------------------------------------
  // One execution
  // ------------------------------------------------------------------

  /** What one execution meets: the contract version, the answers to the reads that receiving needs, and what the
      k-th handler sees. None stands for reads that raise; those of `receive` all come before the transports. */
  datatype Cycle = Cycle(version: Option<int>, receive: Option<ReceiveView>, views: nat -> HandlerView)

  /** It gets as far as the transports. */
  predicate Fetches(e: Cycle) {
    e.version.Some? && e.version.value != 1 && e.receive.Some?
  }

  /** What an execution comes to: the store, the store operations and the calls it leaves, the number of
      handlers that return, and its result. */
  datatype Outcome = Outcome(progress: Progress, handled: nat, result: Result<bool, BotError>)

  /** The handlers on the received messages and the batch appended to them. */
  function Handling(f: Filters, received: seq<Message>, views: nat -> HandlerView): Run<Progress> {
    RunFrom(HandlerOf(f, views), HandledList(f, received, views(0)), 0, Progress(received, [], []))
  }

  /** `execute` from the receive refresh on. */
  function FetchedOutcome(f: Filters, store: seq<Message>, receive: ReceiveView, views: nat -> HandlerView): Outcome {
    var op := ReceiveOp(f, receive);
    match Receiving(f, store, receive)
    case None => Outcome(Progress(Step(f.intake, store, op), [op], []), 0, Err(BotError.BotError))
    case Some(received) =>
      var run := Handling(f, received, views);
      Outcome(Progress(run.state.store, [op] + run.state.ops, run.state.calls), run.passed,
              if run.stopped then Err(BotError.BotError) else Ok(true))
  }

  /** `execute` on a store; the old contract version has nothing to unvet. */
  function ExecutionOf(f: Filters, store: seq<Message>, e: Cycle): Outcome {
    if Fetches(e) then FetchedOutcome(f, store, e.receive.value, e.views)
    else Outcome(Progress(store, [], []), 0, if e.version == Some(1) then Ok(true) else Err(BotError.BotError))
  }

  /** The handler of the k-th message brings a call about only by submitting it. */
  lemma SubmittedBy(handle: Handler<Progress, Message>, f: Filters, views: nat -> HandlerView, p: Progress, m: Message,
                    k: nat, call: UnvetCall)
    requires Implements(handle, f, views) && call !in p.calls && call in handle(p, m, k).0.calls
    ensures call in Submit(m, views(k)).0
  {
    assert handle(p, m, k) == Handle(f, p, m, views(k));
  }

  /** Every call comes from a handler that was started. */
  lemma CallOrigin(handle: Handler<Progress, Message>, f: Filters, views: nat -> HandlerView, ms: seq<Message>,
                   p: Progress, call: UnvetCall) returns (k: nat)
    requires Implements(handle, f, views) && p.calls == [] && call in RunFrom(handle, ms, 0, p).state.calls
    ensures k < |ms| && k < Started(RunFrom(handle, ms, 0, p)) && call in Submit(ms[k], views(k)).0
  {
    RunEnds(handle, ms, p);
    var holds := (q: Progress) => call in q.calls;
    k := BroughtBy(handle, ms, p, Started(RunFrom(handle, ms, 0, p)), holds);
    SubmittedBy(handle, f, views, After(handle, ms, p, k), ms[k], k, call);
  }

  /** Every call that an execution sends is the one that the handler of some message submits. The call for a
      received message recovers to a listed guardian; the call for an appended one does exactly when a listed
      guardian signed that message, which nothing has checked. */
  lemma CallsListed(c: Crypto, f: Filters, store: seq<Message>, receive: ReceiveView, views: nat -> HandlerView,
                    call: UnvetCall) returns (k: nat)
    requires AreFilters(f, c) && Receiving(f, store, receive).Some?
    requires call in FetchedOutcome(f, store, receive, views).progress.calls
    ensures var received := Receiving(f, store, receive).value;
            var full := HandledList(f, received, views(0));
            && k < |full| && k < Started(Handling(f, received, views)) && call in Submit(full[k], views(k)).0
            && (CallListed(c, receive.prefix, receive.guardians, call)
                <==> k < |received| || SignedByListed(c, receive.prefix, receive.guardians, full[k]))
            && (k < |received| ==>
                  call.moduleId in receive.nonces && call.nonce >= receive.nonces[call.moduleId])
  {
    var received := Receiving(f, store, receive).value;
    var full := HandledList(f, received, views(0));
    k := CallOrigin(HandlerOf(f, views), f, views, full, Progress(received, [], []), call);
    CallListedIff(c, receive.prefix, receive.guardians, full[k], views(k));
    if k < |received| {
      assert full[k] == received[k];
      ReceivedIsSigned(c, f, store, receive, received[k]);
      AllVouchedIff(c, f, store, receive, views(0));
      assert Vouched(c, receive, received[k]);
    }
  }

  /** The k-th of these handlers sends its call. */
  predicate SendsAt(handle: Handler<Progress, Message>, f: Filters, views: nat -> HandlerView, ms: seq<Message>,
                    p: Progress, k: nat)
    requires k < |ms|
  {
    Refreshes(f, After(handle, ms, p, k).store, ms[k], views(k)) && Submits(ms[k], views(k))
  }

  /** The call of each turn. */
  function CallGiven(handle: Handler<Progress, Message>, f: Filters, views: nat -> HandlerView, ms: seq<Message>,
                     p: Progress): nat -> Option<UnvetCall>
  {
    (k: nat) => if k < |ms| && SendsAt(handle, f, views, ms, p, k) then Some(CallFor(ms[k])) else None
  }

  function CallsIn(): Progress -> seq<UnvetCall> {
    (q: Progress) => q.calls
  }

  lemma CallAdded(handle: Handler<Progress, Message>, f: Filters, views: nat -> HandlerView, ms: seq<Message>,
                  p: Progress, k: nat, gives: nat -> Option<UnvetCall>)
    requires Implements(handle, f, views) && k < |ms|
    requires gives(k) == CallGiven(handle, f, views, ms, p)(k)
    ensures Adds(handle, ms, p, CallsIn(), gives, k)
  {
    var q := After(handle, ms, p, k);
    assert handle(q, ms[k], k) == Handle(f, q, ms[k], views(k));
    HandleMeaning(f, q, ms[k], views(k));
  }

  /** These turns are those that send, and these calls are theirs. */
  ghost predicate AreSent(handle: Handler<Progress, Message>, f: Filters, views: nat -> HandlerView, ms: seq<Message>,
                          p: Progress, n: nat, turns: seq<nat>, calls: seq<UnvetCall>)
    requires n <= |ms|
  {
    && (forall i, j :: 0 <= i < j < |turns| ==> turns[i] < turns[j])
    && (forall k: nat :: k in turns <==> k < n && SendsAt(handle, f, views, ms, p, k))
    && |calls| == |turns|
    && forall i :: 0 <= i < |turns| ==>
         turns[i] < |ms| && Submits(ms[turns[i]], views(turns[i])) && calls[i] == CallFor(ms[turns[i]])
  }

  lemma GivenAreSent(handle: Handler<Progress, Message>, f: Filters, views: nat -> HandlerView, ms: seq<Message>,
                     p: Progress, n: nat, turns: seq<nat>, gives: nat -> Option<UnvetCall>, calls: seq<UnvetCall>)
    requires n <= |ms| && gives == CallGiven(handle, f, views, ms, p) && AreTurns(gives, n, turns)
    requires (forall i :: 0 <= i < |turns| ==> gives(turns[i]).Some?) && calls == [] + Given(gives, turns)
    ensures AreSent(handle, f, views, ms, p, n, turns, calls)
  {
    assert forall i :: 0 <= i < |turns| ==> turns[i] in turns;
  }

  lemma CallsOfTurns(handle: Handler<Progress, Message>, f: Filters, views: nat -> HandlerView, ms: seq<Message>,
                     p: Progress, n: nat) returns (turns: seq<nat>)
    requires Implements(handle, f, views) && n <= |ms| && p.calls == []
    ensures AreSent(handle, f, views, ms, p, n, turns, After(handle, ms, p, n).calls)
  {
    var list, gives := CallsIn(), CallGiven(handle, f, views, ms, p);
    forall k: nat | k < n
      ensures Adds(handle, ms, p, list, gives, k)
    {
      CallAdded(handle, f, views, ms, p, k, gives);
    }
    turns := GivenInOrder(handle, ms, p, n, list, gives);
    GivenAreSent(handle, f, views, ms, p, n, turns, gives, After(handle, ms, p, n).calls);
  }

  /** The calls of an execution are those of the handlers that were started, refreshed the store and found their
      message fit to submit: one for each, in their order. */
  lemma CallsInOrder(f: Filters, received: seq<Message>, views: nat -> HandlerView) returns (turns: seq<nat>)
    ensures var run := Handling(f, received, views);
            && Started(run) <= |HandledList(f, received, views(0))|
            && AreSent(HandlerOf(f, views), f, views, HandledList(f, received, views(0)), Progress(received, [], []),
                       Started(run), turns, run.state.calls)
  {
    var full, p := HandledList(f, received, views(0)), Progress(received, [], []);
    RunEnds(HandlerOf(f, views), full, p);
    turns := CallsOfTurns(HandlerOf(f, views), f, views, full, p, Started(Handling(f, received, views)));
  }

  /** The k-th handler returns: neither its refresh nor its submission raises. */
  predicate ReturnsAt(handle: Handler<Progress, Message>, f: Filters, views: nat -> HandlerView, ms: seq<Message>,
                      p: Progress, k: nat)
    requires k < |ms|
  {
    Refreshes(f, After(handle, ms, p, k).store, ms[k], views(k)) && Submit(ms[k], views(k)).1.Ok?
  }

  /** The loop ends behind the first handler that does not return, or behind all of them. */
  ghost predicate HandledUpTo(handle: Handler<Progress, Message>, f: Filters, views: nat -> HandlerView,
                              ms: seq<Message>, p: Progress, n: nat)
  {
    && n <= |ms| && (forall k: nat :: k < n ==> ReturnsAt(handle, f, views, ms, p, k))
    && (n < |ms| ==> !ReturnsAt(handle, f, views, ms, p, n))
  }

  lemma LoopEnds(handle: Handler<Progress, Message>, f: Filters, views: nat -> HandlerView, ms: seq<Message>,
                 p: Progress)
    requires Implements(handle, f, views)
    ensures var r := RunFrom(handle, ms, 0, p);
            HandledUpTo(handle, f, views, ms, p, r.passed) && (r.stopped <==> r.passed < |ms|)
  {
    var goesOn := (k: nat) => k < |ms| && ReturnsAt(handle, f, views, ms, p, k);
    forall k: nat | k < |ms|
      ensures StopsAt(handle, ms, p, k) <==> !goesOn(k)
    {
      var q := After(handle, ms, p, k);
      assert handle(q, ms[k], k) == Handle(f, q, ms[k], views(k));
      HandleMeaning(f, q, ms[k], views(k));
    }
    RunReturns(handle, ms, p, goesOn);
    assert forall k: nat :: k < |ms| ==> (goesOn(k) <==> ReturnsAt(handle, f, views, ms, p, k));
  }

  /** What an execution comes to. Without a fetch it handles nothing, and returns True for the old contract version
      only; a receive that raises ends it; and otherwise it returns True exactly when every handler returns. */
  lemma ExecutionMeaning(f: Filters, store: seq<Message>, e: Cycle)
    ensures var o := ExecutionOf(f, store, e);
            if e.version != Some(1) && Fetches(e) && Receiving(f, store, e.receive.value).Some? then
              var received := Receiving(f, store, e.receive.value).value;
              var full := HandledList(f, received, e.views(0));
              && HandledUpTo(HandlerOf(f, e.views), f, e.views, full, Progress(received, [], []), o.handled)
              && o.progress.calls == Handling(f, received, e.views).state.calls
              && (if o.handled == |full| then o.result == Ok(true) else o.result.Err?)
            else
              && o.handled == 0 && o.progress.calls == []
              && (if e.version == Some(1) then o.result == Ok(true) else o.result.Err?)
  {
    if Fetches(e) && Receiving(f, store, e.receive.value).Some? {
      var received := Receiving(f, store, e.receive.value).value;
      LoopEnds(HandlerOf(f, e.views), f, e.views, HandledList(f, received, e.views(0)), Progress(received, [], []));
    }
  }

  // ------------------------------------------------------------------
  // Messages that block the bot
  // ------------------------------------------------------------------

  lemma ReceiveSignsFirst(f: Filters, v: ReceiveView)
    ensures SignsFirst(f, ReceiveOp(f, v))
  {
    assert SignsWith(f, v.prefix, ReceiveFilter(f, v));
  }

  /** A listed guardian signed the message, and it names a module that the router does not. */
  predicate NamesUnknownModule(c: Crypto, v: ReceiveView, m: Message) {
    && m.Unvet? && SignFilter(c, v.prefix, m).Keep? && m.guardianAddress in v.guardians
    && m.stakingModuleId !in v.nonces
  }

  /** On messages its schema admits, receiving raises exactly when a transport cannot be read or filtered, or a
      message stored or just arrived is unreadable or signed by a listed guardian for an unknown module. */
  lemma ReceivingRaisesIff(c: Crypto, f: Filters, store: seq<Message>, v: ReceiveView)
    requires AreFilters(f, c)
    requires forall m :: m in Extended(f.intake, store, ReceiveOp(f, v)) ==> m.Unvet? && Admitted(m)
    ensures Receiving(f, store, v).None?
            <==> || !Gather(f.intake, v.batches).complete
                 || exists m :: m in Extended(f.intake, store, ReceiveOp(f, v))
                                && (Unreadable(m) || NamesUnknownModule(c, v, m))
  {
    var rest := (m: Message) => ActualizeFilter(v, m);
    var op := ReceiveOp(f, v);
    assert SignsThen(f, v.prefix, op.act, rest);
    RefreshRaisesIff(c, f, store, op, v.prefix, rest);
    forall m | m in Extended(f.intake, store, op)
      ensures Unreadable(m) || RaisesBehind(c, v.prefix, rest, m) <==> Unreadable(m) || NamesUnknownModule(c, v, m)
    {
    }
  }

  /** A message blocks every receiving that meets it, whatever is stored beside it and whatever chain and
      transports answer, exactly when it is unreadable. */
  lemma BlocksIff(c: Crypto, f: Filters, m: Message)
    requires AreFilters(f, c) && m.Unvet? && Admitted(m)
    ensures (forall store, v :: m in store ==> Receiving(f, store, v).None?) <==> Unreadable(m)
  {
    if Unreadable(m) {
      NeverReadIff(c, f, m);
      forall store, v | m in store
        ensures Receiving(f, store, v).None?
      {
        ReceiveSignsFirst(f, v);
        UnreadStops(f, store, ReceiveOp(f, v), m);
      }
    } else {
      var v := ReceiveView([], [], map[], []);
      assert Extended(f.intake, [m], ReceiveOp(f, v)) == [m];
      ReceivingRaisesIff(c, f, [m], v);
      assert m in [m] && Receiving(f, [m], v).Some?;
    }
  }

  /** The execution finds the message stored, or fetches it first. */
  predicate Meets(f: Filters, store: seq<Message>, e: Cycle, m: Message) {
    m in store || (Fetches(e) && m in Gather(f.intake, e.receive.value.batches).arrived)
  }

  /** An execution that meets a message which cannot be read handles nothing, sends nothing and leaves the message
      stored; unless the contract has the old version it raises. */
  lemma ExecutionBlocked(f: Filters, store: seq<Message>, e: Cycle, m: Message)
    requires NeverRead(f, m) && Meets(f, store, e, m)
    ensures Silent(ExecutionOf(f, store, e), e, m)
  {
    if Fetches(e) {
      var receive := e.receive.value;
      ReceiveSignsFirst(f, receive);
      UnreadStops(f, store, ReceiveOp(f, receive), m);
    }
  }

  predicate Silent(o: Outcome, e: Cycle, m: Message) {
    && o.handled == 0 && o.progress.calls == [] && m in o.progress.store
    && (o.result.Ok? <==> e.version == Some(1))
  }

  /** Executions one after another, as far as the store is concerned. */
  function ExecutorOf(f: Filters): Handler<seq<Message>, Cycle> {
    (store: seq<Message>, e: Cycle, k: nat) => (ExecutionOf(f, store, e).progress.store, false)
  }

  /** The store of a bot that started with nothing after the first k of these executions. */
  function StoredAfter(f: Filters, run: seq<Cycle>, k: nat): seq<Message>
    requires k <= |run|
  {
    After(ExecutorOf(f), run, [], k)
  }

  lemma StoredStep(f: Filters, run: seq<Cycle>, k: nat, m: Message)
    requires NeverRead(f, m) && k < |run| && Meets(f, StoredAfter(f, run, k), run[k], m)
    ensures m in StoredAfter(f, run, k + 1)
  {
    ExecutionBlocked(f, StoredAfter(f, run, k), run[k], m);
  }

  /** From the first execution that meets it on, */
  lemma StaysStored(f: Filters, run: seq<Cycle>, n: nat, m: Message, j: nat)
    requires NeverRead(f, m) && n < j <= |run| && Meets(f, StoredAfter(f, run, n), run[n], m)
    ensures m in StoredAfter(f, run, j)
  {
    var handle, holds := ExecutorOf(f), (k: nat, store: seq<Message>) => m in store;
    StoredStep(f, run, n, m);
    forall k: nat, store | n < k < |run| && holds(k, store)
      ensures holds(k + 1, handle(store, run[k], k).0)
    {
      ExecutionBlocked(f, store, run[k], m);
    }
    Kept(handle, run, [], n + 1, j, holds);
  }

  /** an unreadable message keeps every execution from handling and sending anything. */
  lemma BlockedForGood(c: Crypto, f: Filters, run: seq<Cycle>, n: nat, m: Message, j: nat)
    requires AreFilters(f, c) && n <= j < |run| && Admitted(m) && Unreadable(m)
    requires Meets(f, StoredAfter(f, run, n), run[n], m)
    ensures var o := ExecutionOf(f, StoredAfter(f, run, j), run[j]);
            && o.handled == 0 && o.progress.calls == [] && m in o.progress.store
            && (o.result.Ok? <==> run[j].version == Some(1))
  {
    NeverReadIff(c, f, m);
    if n < j {
      StaysStored(f, run, n, m, j);
    }
    ExecutionBlocked(f, StoredAfter(f, run, j), run[j], m);
  }

  // ------------------------------------------------------------------
  // The bot
  // ------------------------------------------------------------------

  class UnvetterBot {
    const filters: Filters
    var storage: Storage?<Message>

    ghost predicate Valid()
      reads this, storage, if storage == null then {} else {storage.messages}
    {
      storage != null ==> storage.Valid() && storage.intake == filters.intake
    }

    /** The messages in the store, none before it is built. */
    ghost function Stored(): seq<Message>
      reads this, storage, if storage == null then {} else {storage.messages}
    {
      if storage == null then [] else storage.messages.items
    }

    ghost function History(): seq<Op<Message>>
      reads this, storage
    {
      if storage == null then [] else storage.history
    }

    constructor (crypto: Crypto)
      ensures Valid() && storage == null && filters == FiltersOf(crypto)
    {
      filters := FiltersOf(crypto);
      storage := null;
    }

    /** `prepare_transport_bus`: the store is built once, on first use. */
    method PrepareTransportBus()
      requires Valid()
      modifies this
      ensures Valid() && storage != null
      ensures Stored() == old(Stored()) && History() == old(History())
      ensures old(storage) != null ==> storage == old(storage) && storage.messages == old(storage.messages)
      ensures old(storage) == null ==> fresh(storage) && fresh(storage.messages)
    {
      if storage == null {
        storage := new Storage(filters.intake);
      }
    }

    /** `_send_unvet_message`: refresh the store, then check and send at most one call. p is the progress
        made in an execution that met the history `before`. */
    method SendUnvetMessage(m: Message, v: HandlerView, ghost before: seq<Op<Message>>, ghost p: Progress)
      returns (r: Result<bool, BotError>, calls: seq<UnvetCall>)
      requires Valid() && storage != null
      requires storage.messages.items == p.store && storage.history == before + p.ops
      modifies storage, storage.messages
      ensures Valid()
      ensures var (p', raises) := Handle(filters, p, m, v);
              && (r.Err? <==> raises) && (r.Ok? ==> r == Submit(m, v).1) && p'.calls == p.calls + calls
              && storage.messages.items == p'.store && storage.history == before + p'.ops
              && (p' != p ==> old(storage.messages).items == p.store + Gather(filters.intake, v.batches).arrived)
      ensures if m.Unvet? && v.nonce.Some? && Rebound(filters.intake, p.store, HandlerOp(filters, m, v)).Some?
              then fresh(storage.messages) else storage.messages == old(storage.messages)
    {
      if !m.Unvet? || v.nonce.None? {
        return Err(BotError.BotError), [];
      }
      ConcatAssoc(before, p.ops, [HandlerOp(filters, m, v)]);
      var refreshed := storage.GetMessagesAndActualize(
        v.batches, RelevantFilter(filters, v.prefix, m.stakingModuleId, v.nonce.value));
      if refreshed.Err? {
        return Err(BotError.BotError), [];
      }
      calls, r := Submit(m, v).0, Submit(m, v).1;
    }

    /** One turn of the loop of `execute`. */
    method HandleNext(m: Message, k: nat, views: nat -> HandlerView, ghost handle: Handler<Progress, Message>,
                      ghost before: seq<Op<Message>>, ghost p: Progress, ghost more: seq<Message>)
      returns (r: Result<bool, BotError>, calls: seq<UnvetCall>)
      requires Valid() && storage != null && Implements(handle, filters, views)
      requires storage.messages.items == p.store && storage.history == before + p.ops
      modifies storage, storage.messages
      ensures Valid()
      ensures var (p', raises) := handle(p, m, k);
              && (r.Err? <==> raises) && p'.calls == p.calls + calls
              && storage.messages.items == p'.store && storage.history == before + p'.ops
      ensures storage.messages == old(storage.messages) || fresh(storage.messages)
      ensures r.Ok? ==> storage.messages != old(storage.messages)
      ensures r.Ok? && Appends(filters, views(k), more) ==> old(storage.messages).items == p.store + more
    {
      r, calls := SendUnvetMessage(m, views(k), before, p);
    }

    /** The loop of `execute`: it walks the list object the store handed out, which grows by `more` in the
        first handler. `views(k)` is what the k-th handler sees. An exception ends the loop. */
    method HandleAll(list: PyList<Message>, views: nat -> HandlerView, ghost handle: Handler<Progress, Message>,
                     ghost more: seq<Message>)
      returns (r: Result<bool, BotError>, calls: seq<UnvetCall>, ghost handled: nat)
      requires Valid() && storage != null && storage.messages == list
      requires Implements(handle, filters, views) && Appends(filters, views(0), more)
      modifies storage, list
      ensures Valid()
      ensures var full := if old(list.items) == [] then [] else old(list.items) + more;
              var run := RunFrom(handle, full, 0, Progress(old(list.items), [], []));
              && handled == run.passed && r == (if run.stopped then Err(BotError.BotError) else Ok(true))
              && (r.Ok? ==> list.items == full)
              && calls == run.state.calls && storage.history == old(storage.history) + run.state.ops
              && storage.messages.items == run.state.store
    {
      calls, handled := [], 0;
      ghost var store, before := list.items, storage.history;
      ghost var full := if store == [] then [] else store + more;
      ghost var p := Progress(store, [], []);
      ghost var run := RunFrom(handle, full, 0, p);
      var i := 0;
      while i < |list.items|
        invariant Valid()
        invariant if i == 0 then storage.messages == list && list.items == store
                  else fresh(storage.messages) && list.items == full
        invariant handled == i <= |list.items| && i <= |full|
        invariant RunFrom(handle, full, i, p) == run
        invariant calls == p.calls && storage.history == before + p.ops && storage.messages.items == p.store
        decreases if i == 0 then 1 else 0, |list.items| - i
      {
        assert full[i] == list.items[i];
        var sent, call := HandleNext(list.items[i], i, views, handle, before, p, more);
        p := handle(p, full[i], i).0;
        calls := calls + call;
        if sent.Err? {
          return Err(BotError.BotError), calls, handled;
        }
        handled, i := handled + 1, i + 1;
      }
      r := Ok(true);
    }

    /** `execute`. */
    method Execute(e: Cycle) returns (r: Result<bool, BotError>, calls: seq<UnvetCall>, ghost handled: nat)
      requires Valid()
      modifies this, storage, if storage == null then {} else {storage.messages}
      ensures Valid()
      ensures var o := ExecutionOf(filters, old(Stored()), e);
              && r == o.result && calls == o.progress.calls && handled == o.handled
              && Stored() == o.progress.store && History() == old(History()) + o.progress.ops
    {
      if e.version.None? {
        return Err(BotError.BotError), [], 0;
      }
      if e.version.value == 1 {
        return Ok(true), [], 0;
      }
      PrepareTransportBus();
      if e.receive.None? {
        return Err(BotError.BotError), [], 0;
      }
      r, calls, handled := ReceiveAndHandle(e.receive.value, e.views);
    }

    /** `receive_unvet_messages` and the loop over what it returns. */
    method ReceiveAndHandle(receive: ReceiveView, views: nat -> HandlerView)
      returns (r: Result<bool, BotError>, calls: seq<UnvetCall>, ghost handled: nat)
      requires Valid() && storage != null
      modifies storage, storage.messages
      ensures Valid()
      ensures var o := FetchedOutcome(filters, old(Stored()), receive, views);
              && r == o.result && calls == o.progress.calls && handled == o.handled
              && Stored() == o.progress.store && History() == old(History()) + o.progress.ops
    {
      var received := storage.GetMessagesAndActualize(receive.batches, ReceiveFilter(filters, receive));
      if received.Err? {
        return Err(BotError.BotError), [], 0;
      }
      ghost var got, op := received.value.items, ReceiveOp(filters, receive);
      assert Receiving(filters, old(Stored()), receive) == Some(got);
      r, calls, handled := HandleAll(received.value, views, HandlerOf(filters, views),
                                     Gather(filters.intake, views(0).batches).arrived);
      ConcatAssoc(old(History()), [op], Handling(filters, got, views).state.ops);
    }
  }
}
