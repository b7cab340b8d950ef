/** The message store of src/transport/msg_storage.py. Its list is a heap object:
    callers keep a reference to it, a refresh extends it in place and then rebinds the field. */
module MessageStorage {
  import opened Wrappers

  /** What one transport yields in one refresh: its valid messages, or an exception. */
  datatype Batch<M> = Fetched(messages: seq<M>) | FetchFailed

  /** Outcome of the construction filters, which may rewrite the message they accept. */
  datatype Received<M> = Accept(msg: M) | Refuse | Throw

  /** Outcome of an actualize filter. */
  datatype Verdict = Keep | Drop | Raise

  datatype StorageError = StorageError

  // ------------------------------------------------------------------
  // One refresh on values
  // ------------------------------------------------------------------

  /** The construction filters over one fetched batch; None when one of them throws. */
  function Receive<M>(intake: M -> Received<M>, fetched: seq<M>): Option<seq<M>> {
    if fetched == [] then Some([])
    else
      match (intake(fetched[0]), Receive(intake, fetched[1..]))
      case (Accept(m), Some(rest)) => Some([m] + rest)
      case (Refuse, Some(rest)) => Some(rest)
      case (_, _) => None
  }

  /** One list after another. */
  function Joined<M>(parts: seq<seq<M>>): seq<M>
    decreases |parts|
  {
    if parts == [] then [] else Joined(parts[..|parts| - 1]) + parts[|parts| - 1]
  }

  lemma {:induction false} JoinedCons<M>(first: seq<M>, rest: seq<seq<M>>)
    ensures Joined([first] + rest) == first + Joined(rest)
    decreases |rest|
  {
    var all := [first] + rest;
    if rest == [] {
      assert all[..0] == [] && all[0] == first;
    } else {
      var n := |rest| - 1;
      assert all[..|rest|] == [first] + rest[..n] && all[|rest|] == rest[n];
      JoinedCons(first, rest[..n]);
      assert first + Joined(rest[..n]) + rest[n] == first + (Joined(rest[..n]) + rest[n]);
    }
  }

  lemma {:induction false} JoinedMembers<M>(parts: seq<seq<M>>, m: M)
    ensures m in Joined(parts) <==> exists i :: 0 <= i < |parts| && m in parts[i]
    decreases |parts|
  {
    if parts != [] {
      var n := |parts| - 1;
      JoinedMembers(parts[..n], m);
      assert forall i :: 0 <= i < n ==> parts[..n][i] == parts[i];
    }
  }

  /** What the construction filters make of each message: the message they accept, or nothing. */
  ghost function AcceptedParts<M>(intake: M -> Received<M>, fetched: seq<M>): (parts: seq<seq<M>>)
    ensures |parts| == |fetched|
    ensures forall i :: 0 <= i < |fetched| ==>
              parts[i] == if intake(fetched[i]).Accept? then [intake(fetched[i]).msg] else []
  {
    seq(|fetched|, i requires 0 <= i < |fetched| =>
      if intake(fetched[i]).Accept? then [intake(fetched[i]).msg] else [])
  }

  lemma {:induction false} ReceiveThrows<M>(intake: M -> Received<M>, fetched: seq<M>)
    ensures Receive(intake, fetched).None? <==> exists raw :: raw in fetched && intake(raw).Throw?
  {
    if fetched != [] {
      ReceiveThrows(intake, fetched[1..]);
      assert forall raw :: raw in fetched <==> raw == fetched[0] || raw in fetched[1..];
    }
  }

  lemma AcceptedPartsCons<M>(intake: M -> Received<M>, s: seq<M>)
    requires s != []
    ensures AcceptedParts(intake, s)
            == [if intake(s[0]).Accept? then [intake(s[0]).msg] else []] + AcceptedParts(intake, s[1..])
  {
  }

  lemma {:induction false} ReceivedInOrder<M>(intake: M -> Received<M>, fetched: seq<M>)
    requires Receive(intake, fetched).Some?
    ensures Receive(intake, fetched).value == Joined(AcceptedParts(intake, fetched))
  {
    if fetched != [] {
      ReceivedInOrder(intake, fetched[1..]);
      AcceptedPartsCons(intake, fetched);
      JoinedCons(if intake(fetched[0]).Accept? then [intake(fetched[0]).msg] else [],
                 AcceptedParts(intake, fetched[1..]));
    }
  }

  /** Receiving fails exactly when a construction filter throws on some message. Otherwise exactly the
      accepted messages are received, in their order and as often as they occur. */
  lemma ReceiveMeaning<M>(intake: M -> Received<M>, fetched: seq<M>)
    ensures Receive(intake, fetched).None? <==> exists raw :: raw in fetched && intake(raw).Throw?
    ensures Receive(intake, fetched).Some? ==> Receive(intake, fetched).value == Joined(AcceptedParts(intake, fetched))
  {
    ReceiveThrows(intake, fetched);
    if Receive(intake, fetched).Some? {
      ReceivedInOrder(intake, fetched);
    }
  }

  /** As a statement about members only. */
  lemma ReceivedMembers<M>(intake: M -> Received<M>, fetched: seq<M>, m: M)
    requires Receive(intake, fetched).Some?
    ensures m in Receive(intake, fetched).value <==> exists raw :: raw in fetched && intake(raw) == Accept(m)
  {
    ReceiveMeaning(intake, fetched);
    var parts := AcceptedParts(intake, fetched);
    JoinedMembers(parts, m);
    if i :| 0 <= i < |parts| && m in parts[i] {
      assert fetched[i] in fetched && intake(fetched[i]) == Accept(m);
    }
    if raw :| raw in fetched && intake(raw) == Accept(m) {
      var i :| 0 <= i < |fetched| && fetched[i] == raw;
      assert m in parts[i];
    }
  }

  /** What a refresh appends to the list, and whether every transport was read. */
  datatype Gathered<M> = Gathered(arrived: seq<M>, complete: bool)

  function GatherOne<M>(intake: M -> Received<M>, batch: Batch<M>): Option<seq<M>> {
    if batch.Fetched? then Receive(intake, batch.messages) else None
  }

  function Gather<M>(intake: M -> Received<M>, batches: seq<Batch<M>>): Gathered<M>
    decreases |batches|
  {
    if batches == [] then Gathered([], true)
    else
      var before := Gather(intake, batches[..|batches| - 1]);
      var last := GatherOne(intake, batches[|batches| - 1]);
      if !before.complete then before
      else if last.None? then Gathered(before.arrived, false)
      else Gathered(before.arrived + last.value, true)
  }

  /** A refresh receives the batches of the transports one after another, up to the first one that
      cannot be read or filtered. */
  lemma {:induction false} GatherMeaning<M>(intake: M -> Received<M>, batches: seq<Batch<M>>)
    returns (parts: seq<seq<M>>)
    ensures |parts| <= |batches|
    ensures forall i :: 0 <= i < |parts| ==> GatherOne(intake, batches[i]) == Some(parts[i])
    ensures |parts| < |batches| ==> GatherOne(intake, batches[|parts|]).None?
    ensures Gather(intake, batches).complete <==> |parts| == |batches|
    ensures Gather(intake, batches).arrived == Joined(parts)
    decreases |batches|
  {
    parts := [];
    if batches != [] {
      var n := |batches| - 1;
      parts := GatherMeaning(intake, batches[..n]);
      var last := GatherOne(intake, batches[n]);
      if |parts| == n && last.Some? {
        assert (parts + [last.value])[..n] == parts;
        parts := parts + [last.value];
      }
    }
  }

  /** Transport i is read and filtered, and so are those before it. */
  predicate IsRead<M>(intake: M -> Received<M>, batches: seq<Batch<M>>, i: nat)
    requires i < |batches|
  {
    forall j :: 0 <= j <= i ==> GatherOne(intake, batches[j]).Some?
  }

  /** The construction filters make m of a message that transport i yields. */
  ghost predicate YieldedBy<M>(intake: M -> Received<M>, batches: seq<Batch<M>>, i: nat, m: M)
    requires i < |batches|
  {
    && IsRead(intake, batches, i) && batches[i].Fetched?
    && exists raw :: raw in batches[i].messages && intake(raw) == Accept(m)
  }

  ghost predicate Yielded<M>(intake: M -> Received<M>, batches: seq<Batch<M>>, m: M) {
    exists i :: 0 <= i < |batches| && YieldedBy(intake, batches, i, m)
  }

  /** What arrives is what the construction filters make of the messages yielded. */
  lemma ArrivedIsYielded<M>(intake: M -> Received<M>, batches: seq<Batch<M>>, m: M)
    ensures m in Gather(intake, batches).arrived <==> Yielded(intake, batches, m)
  {
    var parts := GatherMeaning(intake, batches);
    JoinedMembers(parts, m);
    forall i | 0 <= i < |batches|
      ensures YieldedBy(intake, batches, i, m) <==> i < |parts| && m in parts[i]
    {
      if i < |parts| {
        assert GatherOne(intake, batches[i]) == Some(parts[i]);
        ReceivedMembers(intake, batches[i].messages, m);
      } else {
        assert GatherOne(intake, batches[|parts|]).None?;
      }
    }
  }

  /** `list(filter(f, s))`; None when f raises on some element. */
  function Actualize<M>(act: M -> Verdict, s: seq<M>): Option<seq<M>> {
    if s == [] then Some([])
    else
      match (act(s[0]), Actualize(act, s[1..]))
      case (Keep, Some(rest)) => Some([s[0]] + rest)
      case (Drop, Some(rest)) => Some(rest)
      case (_, _) => None
  }

  /** What an actualize filter leaves of each message: itself or nothing. */
  ghost function KeptParts<M>(act: M -> Verdict, s: seq<M>): (parts: seq<seq<M>>)
    ensures |parts| == |s|
    ensures forall i :: 0 <= i < |s| ==> parts[i] == if act(s[i]).Keep? then [s[i]] else []
  {
    seq(|s|, i requires 0 <= i < |s| => if act(s[i]).Keep? then [s[i]] else [])
  }

  lemma {:induction false} ActualizeRaises<M>(act: M -> Verdict, s: seq<M>)
    ensures Actualize(act, s).None? <==> exists m :: m in s && act(m).Raise?
  {
    if s != [] {
      ActualizeRaises(act, s[1..]);
      assert forall m :: m in s <==> m == s[0] || m in s[1..];
    }
  }

  lemma KeptPartsCons<M>(act: M -> Verdict, s: seq<M>)
    requires s != []
    ensures KeptParts(act, s) == [if act(s[0]).Keep? then [s[0]] else []] + KeptParts(act, s[1..])
  {
  }

  lemma {:induction false} KeptInOrder<M>(act: M -> Verdict, s: seq<M>)
    requires Actualize(act, s).Some?
    ensures Actualize(act, s).value == Joined(KeptParts(act, s))
  {
    if s != [] {
      KeptInOrder(act, s[1..]);
      KeptPartsCons(act, s);
      JoinedCons(if act(s[0]).Keep? then [s[0]] else [], KeptParts(act, s[1..]));
    }
  }

  /** Filtering raises exactly when the filter raises on some message, and otherwise keeps exactly the
      messages it is for, in their order and as often as they occur. */
  lemma ActualizeMeaning<M>(act: M -> Verdict, s: seq<M>)
    ensures Actualize(act, s).None? <==> exists m :: m in s && act(m).Raise?
    ensures Actualize(act, s).Some? ==> Actualize(act, s).value == Joined(KeptParts(act, s))
  {
    ActualizeRaises(act, s);
    if Actualize(act, s).Some? {
      KeptInOrder(act, s);
    }
  }

  /** As a statement about members only. */
  lemma {:induction false} ActualizeKeeps<M>(act: M -> Verdict, s: seq<M>)
    requires Actualize(act, s).Some?
    ensures forall m :: m in Actualize(act, s).value <==> m in s && act(m).Keep?
  {
    if s != [] {
      ActualizeKeeps(act, s[1..]);
      assert forall m :: m in s <==> m == s[0] || m in s[1..];
    }
  }

  datatype Op<!M> = Refresh(batches: seq<Batch<M>>, act: M -> Verdict) | Clear

  /** The list object after the in-place extension of a refresh. */
  function Extended<M>(intake: M -> Received<M>, store: seq<M>, op: Op<M>): seq<M> {
    if op.Clear? then store else store + Gather(intake, op.batches).arrived
  }

  /** The list the field is rebound to, or None when the refresh raises first. */
  function Rebound<M>(intake: M -> Received<M>, store: seq<M>, op: Op<M>): Option<seq<M>> {
    if op.Clear? then Some([])
    else if !Gather(intake, op.batches).complete then None
    else Actualize(op.act, Extended(intake, store, op))
  }

  /** The stored messages after one operation. */
  function Step<M>(intake: M -> Received<M>, store: seq<M>, op: Op<M>): seq<M> {
    match Rebound(intake, store, op)
    case Some(kept) => kept
    case None => Extended(intake, store, op)
  }

  /** The stored messages after a whole run that started empty. */
  function StoreAfter<M>(intake: M -> Received<M>, ops: seq<Op<M>>): seq<M>
    decreases |ops|
  {
    if ops == [] then []
    else Step(intake, StoreAfter(intake, ops[..|ops| - 1]), ops[|ops| - 1])
  }

  lemma StoreSnoc<M>(intake: M -> Received<M>, ops: seq<Op<M>>, op: Op<M>)
    ensures StoreAfter(intake, ops + [op]) == Step(intake, StoreAfter(intake, ops), op)
  {
    assert (ops + [op])[..|ops|] == ops;
  }

  // ------------------------------------------------------------------
  // Lists
  // ------------------------------------------------------------------

  lemma ConcatAssoc<T>(a: seq<T>, b: seq<T>, c: seq<T>)
    ensures (a + b) + c == a + (b + c)
  {
  }

  lemma SplitAround<T>(s: seq<T>, n: nat, x: T)
    requires n < |s|
    ensures s == s[..n] + [s[n]] + s[n + 1..]
    ensures s[n := x] == s[..n] + [x] + s[n + 1..]
  {
  }

  // ------------------------------------------------------------------
  // The store itself
  // ------------------------------------------------------------------

  /** A Python list: an object with identity and contents that change in place. */
  class PyList<M> {
    var items: seq<M>

    constructor (items: seq<M>)
      ensures this.items == items
    {
      this.items := items;
    }

    method Extend(more: seq<M>)
      modifies this
      ensures items == old(items) + more
    {
      items := items + more;
    }
  }

  class Storage<M> {
    var messages: PyList<M>
    const intake: M -> Received<M>
    /** Every operation so far, in order. */
    ghost var history: seq<Op<M>>

    /** The stored messages are those of the run on values; quantified, so that the run is unfolded
        only in proofs that speak of it. */
    ghost predicate Valid()
      reads this, messages
    {
      forall ops {:trigger StoreAfter(intake, ops)} :: ops == history ==> messages.items == StoreAfter(intake, ops)
    }

    constructor (intake: M -> Received<M>)
      ensures Valid() && fresh(messages)
      ensures messages.items == [] && history == [] && this.intake == intake
    {
      this.intake := intake;
      messages := new PyList([]);
      history := [];
    }

    /** `get_messages_and_actualize`: batches[i] is what transport i yields. */
    method GetMessagesAndActualize(batches: seq<Batch<M>>, act: M -> Verdict)
      returns (r: Result<PyList<M>, StorageError>)
      requires Valid()
      modifies this, messages
      ensures Valid() && history == old(history) + [Refresh(batches, act)]
      ensures var op := Refresh(batches, act);
              var rebound := Rebound(intake, old(messages.items), op);
              && old(messages).items == Extended(intake, old(messages.items), op)
              && (r.Ok? <==> rebound.Some?)
              && (r.Ok? ==> fresh(messages) && r.value == messages && messages.items == rebound.value)
              && (r.Err? ==> messages == old(messages))
    {
      StoreSnoc(intake, history, Refresh(batches, act));
      history := history + [Refresh(batches, act)];
      var list := messages;
      var complete := ExtendWithFetched(list, batches);
      if !complete {
        return Err(StorageError.StorageError);
      }
      var kept := Actualize(act, list.items);
      if kept.None? {
        return Err(StorageError.StorageError);
      }
      messages := new PyList(kept.value);
      r := Ok(messages);
    }

    /** The loop over the transports, which extends the list object in place. */
    method ExtendWithFetched(list: PyList<M>, batches: seq<Batch<M>>) returns (complete: bool)
      modifies list
      ensures complete == Gather(intake, batches).complete
      ensures list.items == old(list.items) + Gather(intake, batches).arrived
    {
      assert batches[..|batches|] == batches;
      for i := 0 to |batches|
        invariant Gather(intake, batches[..i]).complete
        invariant list.items == old(list.items) + Gather(intake, batches[..i]).arrived
      {
        assert batches[..i + 1][..i] == batches[..i];
        var filtered := GatherOne(intake, batches[i]);
        if filtered.None? {
          GatherStops(intake, batches, i + 1);
          return false;
        }
        list.Extend(filtered.value);
      }
      complete := true;
    }

    /** `clear` rebinds the field; the list object it held is left as it was. */
    method ClearAll()
      requires Valid()
      modifies this
      ensures Valid() && history == old(history) + [Clear]
      ensures fresh(messages) && messages.items == []
    {
      StoreSnoc(intake, history, Clear);
      history := history + [Clear];
      messages := new PyList([]);
    }
  }

  /** Once a transport fails, the later ones are not read. */
  lemma {:induction false} GatherStops<M>(intake: M -> Received<M>, batches: seq<Batch<M>>, i: nat)
    requires i <= |batches| && !Gather(intake, batches[..i]).complete
    ensures Gather(intake, batches) == Gather(intake, batches[..i])
    decreases |batches|
  {
    if i < |batches| {
      var init := batches[..|batches| - 1];
      assert init[..i] == batches[..i];
      GatherStops(intake, init, i);
    } else {
      assert batches[..i] == batches;
    }
  }

  // ------------------------------------------------------------------
  // Whole runs: which fetched messages are in the store
  // ------------------------------------------------------------------

  /** One fetched message that passed the construction filters, and the operation that fetched it. */
  datatype Occurrence<M> = Occurrence(msg: M, since: nat)

  function Tag<M>(s: seq<M>, since: nat): (t: seq<Occurrence<M>>)
    ensures |t| == |s|
    ensures forall i :: 0 <= i < |s| ==> t[i] == Occurrence(s[i], since)
  {
    seq(|s|, i requires 0 <= i < |s| => Occurrence(s[i], since))
  }

  /** Everything that ever arrived, in arrival order. */
  function Arrivals<M>(intake: M -> Received<M>, ops: seq<Op<M>>): seq<Occurrence<M>>
    decreases |ops|
  {
    if ops == [] then []
    else
      var n := |ops| - 1;
      Arrivals(intake, ops[..n]) +
      Tag(if ops[n].Clear? then [] else Gather(intake, ops[n].batches).arrived, n)
  }

  /** Operation j ran to its end, so its filter was applied to the whole store. */
  ghost predicate Applied<M>(intake: M -> Received<M>, ops: seq<Op<M>>, j: nat)
    requires j < |ops|
  {
    Rebound(intake, StoreAfter(intake, ops[..j]), ops[j]).Some?
  }

  /** Operation j keeps message m. */
  ghost predicate Passes<M>(intake: M -> Received<M>, ops: seq<Op<M>>, j: nat, m: M)
    requires j < |ops|
  {
    ops[j].Refresh? && (Applied(intake, ops, j) ==> ops[j].act(m).Keep?)
  }

  /** The occurrence passed every filter applied since its arrival, and no clear came after it. */
  ghost predicate Survives<M>(intake: M -> Received<M>, ops: seq<Op<M>>, o: Occurrence<M>) {
    forall j :: o.since <= j < |ops| ==> Passes(intake, ops, j, o.msg)
  }

  ghost function Survivors<M>(intake: M -> Received<M>, ops: seq<Op<M>>, os: seq<Occurrence<M>>): seq<M> {
    if os == [] then []
    else (if Survives(intake, ops, os[0]) then [os[0].msg] else []) + Survivors(intake, ops, os[1..])
  }

  lemma PassesInit<M>(intake: M -> Received<M>, ops: seq<Op<M>>, n: nat, j: nat, m: M)
    requires j < n <= |ops|
    ensures Passes(intake, ops[..n], j, m) == Passes(intake, ops, j, m)
  {
    assert ops[..n][..j] == ops[..j];
  }

  /** An occurrence survives n + 1 operations when it survives n and passes the last. */
  lemma SurvivesStep<M>(intake: M -> Received<M>, ops: seq<Op<M>>, o: Occurrence<M>)
    requires ops != [] && o.since < |ops|
    ensures var n := |ops| - 1;
            Survives(intake, ops, o) <==> Survives(intake, ops[..n], o) && Passes(intake, ops, n, o.msg)
  {
    var n := |ops| - 1;
    var init := ops[..n];
    forall j | 0 <= j < n
      ensures Passes(intake, init, j, o.msg) == Passes(intake, ops, j, o.msg)
    {
      PassesInit(intake, ops, n, j, o.msg);
    }
    if Survives(intake, init, o) && Passes(intake, ops, n, o.msg) {
      forall j | o.since <= j < |ops|
        ensures Passes(intake, ops, j, o.msg)
      {
        assert j < n ==> Passes(intake, init, j, o.msg);
      }
    }
  }

  /** Filtering with the last operation's filter turns the survivors of a run into those of a longer one. */
  lemma {:induction false} ActualizeSurvivors<M>(intake: M -> Received<M>, ops: seq<Op<M>>, os: seq<Occurrence<M>>)
    requires ops != [] && ops[|ops| - 1].Refresh?
    requires forall o :: o in os ==> o.since < |ops|
    ensures var n := |ops| - 1;
            var before := Survivors(intake, ops[..n], os);
            var after := Survivors(intake, ops, os);
            if Applied(intake, ops, n)
            then Actualize(ops[n].act, before).Some? ==> Actualize(ops[n].act, before).value == after
            else before == after
    decreases |os|
  {
    if os != [] {
      assert forall o :: o in os[1..] ==> o in os;
      assert os[0] in os;
      ActualizeSurvivors(intake, ops, os[1..]);
      SurvivesStep(intake, ops, os[0]);
      var n := |ops| - 1;
      var before, rest := Survivors(intake, ops[..n], os), Survivors(intake, ops[..n], os[1..]);
      if Survives(intake, ops[..n], os[0]) {
        assert before == [os[0].msg] + rest && before[1..] == rest;
      } else {
        assert before == rest;
      }
    }
  }

  lemma {:induction false} SurvivorsConcat<M>(intake: M -> Received<M>, ops: seq<Op<M>>,
                                              a: seq<Occurrence<M>>, b: seq<Occurrence<M>>)
    ensures Survivors(intake, ops, a + b) == Survivors(intake, ops, a) + Survivors(intake, ops, b)
    decreases |a|
  {
    if a == [] {
      assert a + b == b;
    } else {
      assert (a + b)[0] == a[0] && (a + b)[1..] == a[1..] + b;
      SurvivorsConcat(intake, ops, a[1..], b);
      ConcatAssoc(if Survives(intake, ops, a[0]) then [a[0].msg] else [],
                  Survivors(intake, ops, a[1..]), Survivors(intake, ops, b));
    }
  }

  /** A message that has just arrived has met no filter yet. */
  lemma {:induction false} SurvivorsTag<M>(intake: M -> Received<M>, ops: seq<Op<M>>, s: seq<M>)
    ensures Survivors(intake, ops, Tag(s, |ops|)) == s
    decreases |s|
  {
    if s != [] {
      assert Tag(s, |ops|)[1..] == Tag(s[1..], |ops|);
      SurvivorsTag(intake, ops, s[1..]);
    }
  }

  lemma {:induction false} SurvivorsCleared<M>(intake: M -> Received<M>, ops: seq<Op<M>>, os: seq<Occurrence<M>>)
    requires ops != [] && ops[|ops| - 1].Clear?
    requires forall o :: o in os ==> o.since < |ops|
    ensures Survivors(intake, ops, os) == []
    decreases |os|
  {
    if os != [] {
      assert forall o :: o in os[1..] ==> o in os;
      SurvivorsCleared(intake, ops, os[1..]);
      assert os[0] in os && !Passes(intake, ops, |ops| - 1, os[0].msg);
    }
  }

  lemma {:induction false} ArrivalTimes<M>(intake: M -> Received<M>, ops: seq<Op<M>>)
    ensures forall o :: o in Arrivals(intake, ops) ==> o.since < |ops|
    decreases |ops|
  {
    if ops != [] {
      ArrivalTimes(intake, ops[..|ops| - 1]);
    }
  }

  /** Over every run, with raising filters and failing transports included, the store holds,
      in arrival order, exactly the received messages that passed every filter applied since. */
  lemma {:induction false} StoreHoldsSurvivors<M>(intake: M -> Received<M>, ops: seq<Op<M>>)
    ensures StoreAfter(intake, ops) == Survivors(intake, ops, Arrivals(intake, ops))
    decreases |ops|
  {
    if ops != [] {
      var n := |ops| - 1;
      var init, op, all := ops[..n], ops[n], Arrivals(intake, ops);
      StoreHoldsSurvivors(intake, init);
      ArrivalTimes(intake, ops);
      if op.Clear? {
        SurvivorsCleared(intake, ops, all);
      } else {
        var fresh' := Gather(intake, op.batches).arrived;
        SurvivorsConcat(intake, init, Arrivals(intake, init), Tag(fresh', n));
        SurvivorsTag(intake, init, fresh');
        ActualizeSurvivors(intake, ops, all);
      }
    }
  }

  /** The store object itself: at every moment its list holds the survivors of its own history. */
  lemma StorageHoldsSurvivors<M>(storage: Storage<M>)
    requires storage.Valid()
    ensures storage.messages.items ==
            Survivors(storage.intake, storage.history, Arrivals(storage.intake, storage.history))
  {
    StoreHoldsSurvivors(storage.intake, storage.history);
  }

  lemma DroppedStaysDropped<M>(intake: M -> Received<M>, ops: seq<Op<M>>, more: seq<Op<M>>, o: Occurrence<M>)
    requires !Survives(intake, ops, o)
    ensures !Survives(intake, ops + more, o)
  {
    var j :| o.since <= j < |ops| && !Passes(intake, ops, j, o.msg);
    assert (ops + more)[..|ops|] == ops;
    PassesInit(intake, ops + more, |ops|, j, o.msg);
  }

  lemma {:induction false} EarlierArrivals<M>(intake: M -> Received<M>, ops: seq<Op<M>>, n: nat)
    requires n <= |ops|
    ensures Arrivals(intake, ops[..n]) <= Arrivals(intake, ops)
    decreases |ops|
  {
    if n < |ops| {
      var init := ops[..|ops| - 1];
      assert init[..n] == ops[..n];
      EarlierArrivals(intake, init, n);
    } else {
      assert ops[..n] == ops;
    }
  }

  function Without<T>(s: seq<T>, i: nat): seq<T>
    requires i < |s|
  {
    s[..i] + s[i + 1..]
  }

  lemma SurvivorsWithout<M>(intake: M -> Received<M>, ops: seq<Op<M>>, os: seq<Occurrence<M>>, i: nat)
    requires i < |os| && !Survives(intake, ops, os[i])
    ensures Survivors(intake, ops, os) == Survivors(intake, ops, Without(os, i))
  {
    assert os == os[..i] + os[i..];
    SurvivorsConcat(intake, ops, os[..i], os[i..]);
    assert os[i..][0] == os[i] && os[i..][1..] == os[i + 1..];
    SurvivorsConcat(intake, ops, os[..i], os[i + 1..]);
  }

  /** An occurrence that a run has dropped never comes back: however the run goes on, the stored list
      is the one it would be had the occurrence not arrived. Only a new arrival can restore its message. */
  lemma DroppedForGood<M>(intake: M -> Received<M>, ops: seq<Op<M>>, more: seq<Op<M>>, i: nat)
    requires i < |Arrivals(intake, ops)| && !Survives(intake, ops, Arrivals(intake, ops)[i])
    ensures Arrivals(intake, ops) <= Arrivals(intake, ops + more)
    ensures StoreAfter(intake, ops + more)
            == Survivors(intake, ops + more, Without(Arrivals(intake, ops + more), i))
  {
    assert (ops + more)[..|ops|] == ops;
    EarlierArrivals(intake, ops + more, |ops|);
    DroppedStaysDropped(intake, ops, more, Arrivals(intake, ops)[i]);
    StoreHoldsSurvivors(intake, ops + more);
    SurvivorsWithout(intake, ops + more, Arrivals(intake, ops + more), i);
  }

  // ------------------------------------------------------------------
  // A batch that the construction filters throw on
  // ------------------------------------------------------------------

  /** A transport whose batch holds a message on which a construction filter throws yields nothing, as if it
      had failed itself. */
  lemma {:induction false} ThrowIsFailure<M>(intake: M -> Received<M>, batches: seq<Batch<M>>, i: nat, raw: M)
    requires i < |batches| && batches[i].Fetched? && raw in batches[i].messages && intake(raw).Throw?
    ensures Gather(intake, batches) == Gather(intake, batches[i := FetchFailed])
    decreases |batches|
  {
    var n := |batches| - 1;
    var failed := batches[i := FetchFailed];
    if i < n {
      assert failed[..n] == batches[..n][i := FetchFailed];
      ThrowIsFailure(intake, batches[..n], i, raw);
    } else {
      assert failed[..n] == batches[..n];
      ReceiveThrows(intake, batches[n].messages);
    }
  }

  /** Two operations that do the same to every store. */
  ghost predicate SameStep<M(!new)>(intake: M -> Received<M>, op: Op<M>, op': Op<M>) {
    forall store {:trigger Step(intake, store, op)} :: Step(intake, store, op) == Step(intake, store, op')
  }

  /** They are interchangeable in a run. */
  lemma {:induction false} ReplaceOp<M(!new)>(intake: M -> Received<M>, init: seq<Op<M>>, op: Op<M>, op': Op<M>,
                                              more: seq<Op<M>>)
    requires SameStep(intake, op, op')
    ensures StoreAfter(intake, init + [op] + more) == StoreAfter(intake, init + [op'] + more)
    decreases |more|
  {
    var before, before' := init + [op], init + [op'];
    if more == [] {
      StoreSnoc(intake, init, op);
      StoreSnoc(intake, init, op');
      assert before + more == before && before' + more == before';
    } else {
      var most, last := more[..|more| - 1], more[|more| - 1];
      ReplaceOp(intake, init, op, op', most);
      StoreSnoc(intake, before + most, last);
      StoreSnoc(intake, before' + most, last);
      assert more == most + [last];
      ConcatAssoc(before, most, [last]);
      ConcatAssoc(before', most, [last]);
    }
  }

  /** Nothing of that batch is ever stored: the whole run is that in which the transport failed. */
  lemma LostForTheRun<M(!new)>(intake: M -> Received<M>, ops: seq<Op<M>>, n: nat, i: nat, raw: M)
    requires n < |ops| && ops[n].Refresh? && i < |ops[n].batches|
    requires ops[n].batches[i].Fetched? && raw in ops[n].batches[i].messages && intake(raw).Throw?
    ensures StoreAfter(intake, ops)
            == StoreAfter(intake, ops[n := Refresh(ops[n].batches[i := FetchFailed], ops[n].act)])
  {
    var op := Refresh(ops[n].batches[i := FetchFailed], ops[n].act);
    ThrowIsFailure(intake, ops[n].batches, i, raw);
    assert SameStep(intake, ops[n], op);
    ReplaceOp(intake, ops[..n], ops[n], op, ops[n + 1..]);
    SplitAround(ops, n, op);
  }

  // ------------------------------------------------------------------
  // A message that every filter raises on
  // ------------------------------------------------------------------

  /** From operation n on there are refreshes only, and their filters raise on m. */
  ghost predicate AllRaiseOn<M>(ops: seq<Op<M>>, n: nat, m: M) {
    forall j :: n <= j < |ops| ==> ops[j].Refresh? && ops[j].act(m).Raise?
  }

  /** A refresh whose filter raises on a stored message raises itself and leaves the message stored. */
  lemma RaisingRefresh<M>(intake: M -> Received<M>, store: seq<M>, op: Op<M>, m: M)
    requires op.Refresh? && op.act(m).Raise? && m in Extended(intake, store, op)
    ensures Rebound(intake, store, op).None? && m in Step(intake, store, op)
  {
    ActualizeRaises(op.act, Extended(intake, store, op));
  }

  /** Such a message stays stored, from the refresh that fetched it on. */
  lemma {:induction false} RaisingStays<M>(intake: M -> Received<M>, ops: seq<Op<M>>, n: nat, m: M)
    requires n < |ops| && AllRaiseOn(ops, n, m) && ops[n].Refresh?
    requires m in Gather(intake, ops[n].batches).arrived
    ensures m in StoreAfter(intake, ops)
    decreases |ops|
  {
    var k := |ops| - 1;
    var init := ops[..k];
    if n < k {
      assert AllRaiseOn(init, n, m) && init[n] == ops[n];
      RaisingStays(intake, init, n, m);
    }
    RaisingRefresh(intake, StoreAfter(intake, init), ops[k], m);
  }

  /** It blocks the store for good: every refresh from then on raises, after its in-place extension. */
  lemma RaisesForGood<M>(intake: M -> Received<M>, ops: seq<Op<M>>, n: nat, m: M, j: nat)
    requires n <= j < |ops| && AllRaiseOn(ops, n, m) && ops[n].Refresh?
    requires m in Gather(intake, ops[n].batches).arrived
    ensures !Applied(intake, ops, j) && m in StoreAfter(intake, ops[..j + 1])
  {
    var init, next := ops[..j], ops[..j + 1];
    assert next[..j] == init && next[n] == ops[n] && AllRaiseOn(next, n, m);
    RaisingStays(intake, next, n, m);
    if n < j {
      assert init[n] == ops[n] && AllRaiseOn(init, n, m);
      RaisingStays(intake, init, n, m);
    }
    RaisingRefresh(intake, StoreAfter(intake, init), ops[j], m);
  }
}
