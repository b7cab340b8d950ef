/** Executions that send a call signed by nobody on the guardians' list: the message arrives in the first
    handler's refresh, behind the filter that knows the list. */
module UnlistedWitnesses {
  import opened Bytes
  import opened CompactSignature
  import opened HandlerLoop
  import opened Messages
  import opened MessageStorage
  import opened WitnessSetting
  import opened Wrappers
  import Pauser
  import Unvetter

  /** Two handlers that both let the loop go on. */
  lemma TwoHandlers<S, M>(handle: Handler<S, M>, ms: seq<M>, p: S, p': S, p'': S)
    requires |ms| == 2 && handle(p, ms[0], 0) == (p', false) && handle(p', ms[1], 1) == (p'', false)
    ensures RunFrom(handle, ms, 0, p) == Run(2, false, p'')
  {
    assert RunFrom(handle, ms, 2, p'') == Run(2, false, p'');
  }

  /** A message under a canonical address passes the construction filters as it is. */
  lemma PassesIntake(s: Setting, a: seq<byte>, b: seq<byte>, m: Message, n: Address)
    requires Fits(s) && !m.Ping? && !m.app.NotAnObject? && m.guardianAddress == Text(s, n)
    ensures Intake(TwoSigners(s, a, b), m) == Accept(m)
  {
    TextDenotes(s, n);
  }

  lemma Fetch(f: Filters, m: Message)
    requires f.intake(m) == Accept(m)
    ensures Gather(f.intake, [Fetched([m])]) == Gathered([m], true)
  {
    assert Receive(f.intake, []) == Some([]) && [m][1..] == [];
    var bs := [Fetched([m])];
    assert bs[..0] == [] && bs[0].messages == [m];
    assert [] + [m] == [m];
  }

  lemma Differ(s: Setting)
    requires Fits(s)
    ensures Text(s, s.one) != Text(s, s.two)
  {
    TextDenotes(s, s.one);
    TextDenotes(s, s.two);
  }

  // ------------------------------------------------------------------
  // The unvetter
  // ------------------------------------------------------------------

  /** An unvet message without operators by one of the two guardians. */
  function UnvetOf(s: Setting, first: bool, x: int, k: int): Message {
    Unvet(Some(k), x, BytesToHexString(s.hash), Text(s, if first then s.one else s.two), s.moduleId,
          Signature(if first then s.rOne else s.rTwo, s.vs), "0x", "0x", NoVersion)
  }

  function UnvetBytes(s: Setting, x: int, k: int): seq<byte>
    requires Fits(s) && IsUint256(x) && IsUint256(k)
  {
    UnvetData(s.prefix, x, s.hash, s.moduleId, k, [], [])
  }

  lemma UnvetSigned(s: Setting, first: bool, x: int, k: int)
    requires Fits(s) && IsUint256(x) && IsUint256(k)
    ensures SignedBytes(s.prefix, UnvetOf(s, first, x, k)) == Ok(Some(UnvetBytes(s, x, k)))
    ensures SignFilter(TwoSigners(s, UnvetBytes(s, x, k), UnvetBytes(s, x, k)), s.prefix, UnvetOf(s, first, x, k)).Keep?
  {
    HashReads(s.hash);
    var m := UnvetOf(s, first, x, k);
    assert FromHexStringToBytes("0x") == Some([]);
    assert SignedBytes(s.prefix, m) == Ok(Some(UnvetBytes(s, x, k)));
    assert CheckSigned(TwoSigners(s, UnvetBytes(s, x, k), UnvetBytes(s, x, k)), m, RecoverVs(m.signature.vs),
                       SignedBytes(s.prefix, m)).Keep?;
  }

  /** Only the first guardian is listed; the second one's message comes with the first handler's refresh. */
  function UnvetReceive(s: Setting, x: int, k: int): Unvetter.ReceiveView {
    Unvetter.ReceiveView([Fetched([UnvetOf(s, true, x, k)])], s.prefix, map[s.moduleId := k], [Text(s, s.one)])
  }

  function UnvetViews(s: Setting, x: int, k: int): nat -> Unvetter.HandlerView {
    (i: nat) =>
      Unvetter.HandlerView(Some(k), if i == 0 then [Fetched([UnvetOf(s, false, x, k)])] else [], s.prefix, Some(0),
                           Some(true), Some(true))
  }

  /** The call for one of the two messages. */
  function UnvetCallOf(s: Setting, first: bool, x: int, k: int): Unvetter.UnvetCall {
    var m := UnvetOf(s, first, x, k);
    Unvetter.UnvetCall(x, m.blockHash, s.moduleId, k, [], [], m.signature)
  }

  /** A handler of one of the two messages keeps what it meets, and sends its call. */
  lemma UnvetHandled(c: Crypto, f: Filters, s: Setting, x: int, k: int, i: nat, p: Unvetter.Progress,
                     more: seq<Message>)
    requires Fits(s) && IsUint256(x) && IsUint256(k) && AreFilters(f, c)
    requires c == TwoSigners(s, UnvetBytes(s, x, k), UnvetBytes(s, x, k))
    requires Gather(f.intake, UnvetViews(s, x, k)(i).batches) == Gathered(more, true)
    requires forall y :: y in p.store + more ==> y == UnvetOf(s, true, x, k) || y == UnvetOf(s, false, x, k)
    ensures var (p', stops) := Unvetter.Handle(f, p, UnvetOf(s, i == 0, x, k), UnvetViews(s, x, k)(i));
            !stops && p'.store == p.store + more && p'.calls == p.calls + [UnvetCallOf(s, i == 0, x, k)]
  {
    var m, v := UnvetOf(s, i == 0, x, k), UnvetViews(s, x, k)(i);
    var op := Unvetter.HandlerOp(f, m, v);
    forall y | y in p.store + more
      ensures op.act(y).Keep?
    {
      UnvetSigned(s, y == UnvetOf(s, true, x, k), x, k);
      assert f.sign(s.prefix, y) == SignFilter(c, s.prefix, y);
    }
    KeptAll(op.act, p.store + more);
    assert FromHexStringToBytes("0x") == Some([]);
  }

  /** The call for the second message recovers to its author, who is not listed. */
  lemma UnvetUnlisted(s: Setting, x: int, k: int)
    requires Fits(s) && IsUint256(x) && IsUint256(k)
    ensures !Unvetter.CallListed(TwoSigners(s, UnvetBytes(s, x, k), UnvetBytes(s, x, k)), s.prefix, [Text(s, s.one)],
                                 UnvetCallOf(s, false, x, k))
  {
    HashReads(s.hash);
    Differ(s);
  }

  /** Two schema-valid messages, the second by a guardian who is not listed, make an execution send a call that
      recovers to no listed guardian. */
  lemma UnlistedUnvet(s: Setting, x: int, k: int)
    returns (c: Crypto, f: Filters, receive: Unvetter.ReceiveView, views: nat -> Unvetter.HandlerView,
             call: Unvetter.UnvetCall)
    requires Fits(s) && Written(s) && IsUint256(x) && IsUint256(k)
    ensures PrintsAddresses(c) && AreFilters(f, c)
    ensures YieldValid(UnvetKind, receive.batches) && YieldValid(UnvetKind, views(0).batches)
    ensures Unvetter.Receiving(f, [], receive).Some?
    ensures call in Unvetter.FetchedOutcome(f, [], receive, views).progress.calls
    ensures !Unvetter.CallListed(c, receive.prefix, receive.guardians, call)
  {
    c := TwoSigners(s, UnvetBytes(s, x, k), UnvetBytes(s, x, k));
    f := FiltersOf(c);
    receive, views, call := UnvetReceive(s, x, k), UnvetViews(s, x, k), UnvetCallOf(s, false, x, k);
    TwoSignersPrint(s, UnvetBytes(s, x, k), UnvetBytes(s, x, k));
    UnvetValid(s, true, x, k);
    UnvetValid(s, false, x, k);
    OneBatchValid(UnvetOf(s, true, x, k));
    OneBatchValid(UnvetOf(s, false, x, k));
    UnvetRun(c, f, s, x, k);
    UnvetUnlisted(s, x, k);
  }

  lemma OneBatchValid(m: Message)
    requires SchemaValid(m)
    ensures YieldValid(KindOf(m), [Fetched([m])])
  {
  }

  lemma UnvetValid(s: Setting, first: bool, x: int, k: int)
    requires Fits(s) && Written(s)
    ensures SchemaValid(UnvetOf(s, first, x, k))
  {
    PrintedMatches(s.hash);
    PrintedMatches([]);
    assert BytesToHexString([]) == "0x";
    TextMatches(s, if first then s.one else s.two);
  }

  lemma TextMatches(s: Setting, n: Address)
    requires Fits(s)
    ensures MatchesPattern(Text(s, n), 40)
  {
    PrintedMatches(ToBytes(n, s.addressBytes));
  }

  lemma UnvetReceived(c: Crypto, f: Filters, s: Setting, x: int, k: int)
    requires Fits(s) && IsUint256(x) && IsUint256(k) && AreFilters(f, c)
    requires c == TwoSigners(s, UnvetBytes(s, x, k), UnvetBytes(s, x, k))
    ensures Unvetter.Receiving(f, [], UnvetReceive(s, x, k)) == Some([UnvetOf(s, true, x, k)])
    ensures Gather(f.intake, UnvetViews(s, x, k)(0).batches) == Gathered([UnvetOf(s, false, x, k)], true)
  {
    var m, u, receive := UnvetOf(s, true, x, k), UnvetOf(s, false, x, k), UnvetReceive(s, x, k);
    var d := UnvetBytes(s, x, k);
    PassesIntake(s, d, d, m, s.one);
    PassesIntake(s, d, d, u, s.two);
    assert f.intake(m) == Intake(c, m) && f.intake(u) == Intake(c, u);
    Fetch(f, m);
    Fetch(f, u);
    UnvetSigned(s, true, x, k);
    var act := Unvetter.ReceiveFilter(f, receive);
    assert f.sign(s.prefix, m) == SignFilter(c, s.prefix, m) && receive.guardians[0] == m.guardianAddress;
    assert act(m).Keep? && [] + [m] == [m];
    KeptAll(act, [m]);
  }

  lemma UnvetRun(c: Crypto, f: Filters, s: Setting, x: int, k: int)
    requires Fits(s) && IsUint256(x) && IsUint256(k) && AreFilters(f, c)
    requires c == TwoSigners(s, UnvetBytes(s, x, k), UnvetBytes(s, x, k))
    ensures Unvetter.Receiving(f, [], UnvetReceive(s, x, k)).Some?
    ensures UnvetCallOf(s, false, x, k)
            in Unvetter.FetchedOutcome(f, [], UnvetReceive(s, x, k), UnvetViews(s, x, k)).progress.calls
  {
    var m, u, views := UnvetOf(s, true, x, k), UnvetOf(s, false, x, k), UnvetViews(s, x, k);
    UnvetReceived(c, f, s, x, k);
    var p, handle := Unvetter.Progress([m], [], []), Unvetter.HandlerOf(f, views);
    var p' := Unvetter.Handle(f, p, m, views(0)).0;
    var p'' := Unvetter.Handle(f, p', u, views(1)).0;
    assert [m] + [u] == [m, u] && [m, u] + [] == [m, u];
    UnvetHandled(c, f, s, x, k, 0, p, [u]);
    UnvetHandled(c, f, s, x, k, 1, p', []);
    TwoHandlers(handle, [m, u], p, p', p'');
  }

  // ------------------------------------------------------------------
  // The pauser
  // ------------------------------------------------------------------

  /** A pause message by one of the two guardians. */
  function PauseOf(s: Setting, first: bool, x: int, id: int): Message {
    Pause(x, Text(s, if first then s.one else s.two), Some(id), Signature(if first then s.rOne else s.rTwo, s.vs),
          NoVersion)
  }

  /** The first guardian can pause his module, the second one another. */
  function PauseSigners(s: Setting, x: int, other: int): Crypto
    requires Fits(s) && IsUint256(x) && IsUint256(other)
  {
    TwoSigners(s, PauseData(s.prefix, x, Some(s.moduleId)), PauseData(s.prefix, x, Some(other)))
  }

  lemma PauseSigned(s: Setting, x: int, other: int)
    requires Fits(s) && IsUint256(x) && IsUint256(other)
    ensures SignFilter(PauseSigners(s, x, other), s.prefix, PauseOf(s, true, x, s.moduleId)).Keep?
    ensures SignFilter(PauseSigners(s, x, other), s.prefix, PauseOf(s, false, x, other)).Keep?
  {
    var c, m, u := PauseSigners(s, x, other), PauseOf(s, true, x, s.moduleId), PauseOf(s, false, x, other);
    assert CheckSigned(c, m, RecoverVs(m.signature.vs), SignedBytes(s.prefix, m)).Keep?;
    assert CheckSigned(c, u, RecoverVs(u.signature.vs), SignedBytes(s.prefix, u)).Keep?;
  }

  /** Only the first guardian is listed, and his module is paused already. */
  function PauseReceive(s: Setting, x: int): Pauser.ReceiveView {
    Pauser.ReceiveView([Fetched([PauseOf(s, true, x, s.moduleId)])], s.prefix, 0, 1, [Text(s, s.one)])
  }

  function PauseViews(s: Setting, x: int, other: int): nat -> Pauser.HandlerView {
    (i: nat) =>
      Pauser.HandlerView(Some(i == 0), if i == 0 then [Fetched([PauseOf(s, false, x, other)])] else [], s.prefix,
                         Some(true), Some(true))
  }

  lemma PauseReceived(c: Crypto, f: Filters, s: Setting, x: int, other: int)
    requires Fits(s) && IsUint256(x) && IsUint256(other) && AreFilters(f, c) && c == PauseSigners(s, x, other)
    ensures Pauser.Receiving(f, [], PauseReceive(s, x)) == Some([PauseOf(s, true, x, s.moduleId)])
    ensures Gather(f.intake, PauseViews(s, x, other)(0).batches) == Gathered([PauseOf(s, false, x, other)], true)
  {
    var m, u, receive := PauseOf(s, true, x, s.moduleId), PauseOf(s, false, x, other), PauseReceive(s, x);
    var d, e := PauseData(s.prefix, x, Some(s.moduleId)), PauseData(s.prefix, x, Some(other));
    PassesIntake(s, d, e, m, s.one);
    PassesIntake(s, d, e, u, s.two);
    assert f.intake(m) == Intake(c, m) && f.intake(u) == Intake(c, u);
    Fetch(f, m);
    Fetch(f, u);
    PauseSigned(s, x, other);
    var act := Pauser.ReceiveFilter(f, receive);
    assert f.sign(s.prefix, m) == SignFilter(c, s.prefix, m) && receive.guardians[0] == m.guardianAddress;
    assert act(m).Keep? && [] + [m] == [m];
    KeptAll(act, [m]);
  }

  lemma KeepsSecond(act: Message -> Verdict, m: Message, u: Message)
    requires act(m).Drop? && act(u).Keep?
    ensures Actualize(act, [m, u]) == Some([u])
  {
    KeptAll(act, [u]);
    assert [m, u][1..] == [u];
  }

  /** The refresh of the first handler drops its own message and keeps the other one. */
  lemma PauseKeeps(c: Crypto, f: Filters, s: Setting, x: int, other: int)
    requires Fits(s) && IsUint256(x) && IsUint256(other) && other != s.moduleId
    requires AreFilters(f, c) && c == PauseSigners(s, x, other)
    ensures var act := Pauser.OtherModuleFilter(f, s.prefix, s.moduleId);
            act(PauseOf(s, true, x, s.moduleId)).Drop? && act(PauseOf(s, false, x, other)).Keep?
  {
    var m, u := PauseOf(s, true, x, s.moduleId), PauseOf(s, false, x, other);
    PauseSigned(s, x, other);
    assert f.sign(s.prefix, m) == SignFilter(c, s.prefix, m) && f.sign(s.prefix, u) == SignFilter(c, s.prefix, u);
  }

  lemma PauseFirst(f: Filters, m: Message, u: Message, v: Pauser.HandlerView)
    requires Pauser.FindsHalted(false, m, v) && Gather(f.intake, v.batches) == Gathered([u], true)
    requires var act := Pauser.OtherModuleFilter(f, v.prefix, m.pausedModule.value);
             act(m).Drop? && act(u).Keep?
    ensures var (p', stops) := Pauser.Handle(f, false, Pauser.Progress([m], [], []), m, v);
            !stops && p'.store == [u] && p'.calls == []
  {
    KeepsSecond(Pauser.OtherModuleFilter(f, v.prefix, m.pausedModule.value), m, u);
    assert [m] + [u] == [m, u];
  }

  lemma PauseRun(c: Crypto, f: Filters, s: Setting, x: int, other: int)
    requires Fits(s) && IsUint256(x) && IsUint256(other) && other != s.moduleId
    requires AreFilters(f, c) && c == PauseSigners(s, x, other)
    ensures Pauser.Receiving(f, [], PauseReceive(s, x)).Some?
    ensures Pauser.PauseModule(x, other, Signature(s.rTwo, s.vs))
            in Pauser.FetchedOutcome(f, false, [], PauseReceive(s, x), PauseViews(s, x, other)).progress.calls
  {
    var m, u, views := PauseOf(s, true, x, s.moduleId), PauseOf(s, false, x, other), PauseViews(s, x, other);
    var p, handle := Pauser.Progress([m], [], []), Pauser.HandlerOf(f, false, views);
    PauseReceived(c, f, s, x, other);
    PauseKeeps(c, f, s, x, other);
    PauseFirst(f, m, u, views(0));
    var p' := Pauser.Handle(f, false, p, m, views(0)).0;
    var p'' := Pauser.Handle(f, false, p', u, views(1)).0;
    assert Pauser.FirstRefresh(false, [m], views, 0) == 0 && [m] + [u] == [m, u];
    TwoHandlers(handle, [m, u], p, p', p'');
  }

  /** Two schema-valid messages for different modules, the second by a guardian who is not listed, make an
      execution send a pause that recovers to no listed guardian. */
  lemma UnlistedPause(s: Setting, x: int, other: int)
    returns (c: Crypto, f: Filters, receive: Pauser.ReceiveView, views: nat -> Pauser.HandlerView,
             call: Pauser.PauseCall)
    requires Fits(s) && Written(s) && IsUint256(x) && IsUint256(other) && other != s.moduleId
    ensures PrintsAddresses(c) && AreFilters(f, c)
    ensures YieldValid(PauseKind, receive.batches) && YieldValid(PauseKind, views(0).batches)
    ensures Pauser.Receiving(f, [], receive).Some?
    ensures call in Pauser.FetchedOutcome(f, false, [], receive, views).progress.calls
    ensures !Pauser.CallListed(c, receive.prefix, receive.guardians, call)
  {
    c := PauseSigners(s, x, other);
    f := FiltersOf(c);
    receive, views := PauseReceive(s, x), PauseViews(s, x, other);
    call := Pauser.PauseModule(x, other, Signature(s.rTwo, s.vs));
    TwoSignersPrint(s, PauseData(s.prefix, x, Some(s.moduleId)), PauseData(s.prefix, x, Some(other)));
    PauseValid(s, true, x, s.moduleId);
    PauseValid(s, false, x, other);
    PauseRun(c, f, s, x, other);
    PauseUnlisted(s, x, other);
  }

  lemma PauseValid(s: Setting, first: bool, x: int, id: int)
    requires Fits(s) && Written(s)
    ensures YieldValid(PauseKind, [Fetched([PauseOf(s, first, x, id)])])
  {
    TextMatches(s, if first then s.one else s.two);
    OneBatchValid(PauseOf(s, first, x, id));
  }

  lemma PauseUnlisted(s: Setting, x: int, other: int)
    requires Fits(s) && IsUint256(x) && IsUint256(other)
    ensures !Pauser.CallListed(PauseSigners(s, x, other), s.prefix, [Text(s, s.one)],
                               Pauser.PauseModule(x, other, Signature(s.rTwo, s.vs)))
  {
    Differ(s);
  }
}
