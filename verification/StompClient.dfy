/** Subscriptions and message routing of src/transport/msg_providers/stomp/client.py. */
module StompClient {
  import opened OrderedDict
  import opened StompFrame
  import opened Text
  import opened Wrappers

  /** Callbacks are named by numbers. */
  type Callback = nat

  datatype ClientError = BadFrame(error: ParseError) | KeyError

  /** What the client does with one incoming text. */
  datatype Event =
    | Ignored
    | Connected(frame: Frame)
    | Delivered(callback: Callback, frame: Frame)
    | Unrouted(frame: Frame)
    | ErrorReported(frame: Frame)
    | Unknown(frame: Frame)

  /** `_on_message` against the live subscriptions. */
  function React(live: map<string, Callback>, data: string): Result<Event, ClientError> {
    match Parsed(data)
    case Err(e) => Err(BadFrame(e))
    case Ok(None) => Ok(Ignored)
    case Ok(Some(frame)) =>
      if frame.command == "CONNECTED" then Ok(Connected(frame))
      else if frame.command == "MESSAGE" then Route(live, frame)
      else if frame.command == "RECEIPT" then Ok(Ignored)
      else if frame.command == "ERROR" then Ok(ErrorReported(frame))
      else Ok(Unknown(frame))
  }

  /** The text is a CONNECTED frame. */
  predicate IsConnected(data: string) {
    var parsed := Parsed(data);
    parsed.Ok? && parsed.value.Some? && parsed.value.value.command == "CONNECTED"
  }

  function Route(live: map<string, Callback>, frame: Frame): Result<Event, ClientError> {
    match Lookup(frame.headers, "subscription")
    case None => Err(KeyError)
    case Some(id) =>
      if id !in live then Ok(Unrouted(frame))
      else if !Has(frame.headers, "message-id") then Err(KeyError)
      else Ok(Delivered(live[id], frame))
  }

  /** `'sub-' + str(n)`. */
  function AutoId(n: nat): string {
    "sub-" + Decimal(n)
  }

  lemma AutoIdInjective(m: nat, n: nat)
    ensures AutoId(m) == AutoId(n) <==> m == n
  {
    if AutoId(m) == AutoId(n) {
      assert AutoId(m)[4..] == Decimal(m) && AutoId(n)[4..] == Decimal(n);
      DecimalInjective(m, n);
    }
  }

  /** The counter and the live subscriptions. */
  datatype Subs = Subs(counter: nat, live: map<string, Callback>)

  /** A caller's subscribe, with its own id or none, and unsubscribe. */
  datatype Op = Subscribe(callback: Callback, id: Option<string>) | Unsubscribe(channel: string)

  /** The id a subscribe is given. */
  function IdOf(st: Subs, op: Op): string
    requires op.Subscribe?
  {
    if op.id.Some? then op.id.value else AutoId(st.counter)
  }

  /** One operation; unsubscribing an unknown channel is a KeyError that changes nothing. */
  function StepSubs(st: Subs, op: Op): Subs {
    match op
    case Subscribe(cb, id) =>
      Subs(if id.Some? then st.counter else st.counter + 1, st.live[IdOf(st, op) := cb])
    case Unsubscribe(channel) => Subs(st.counter, st.live - {channel})
  }

  /** The headers of the SUBSCRIBE frame for the id in use. */
  function Completed(given: Dict<string, string>, id: string, destination: string): Dict<string, string> {
    var named := if Has(given, "id") then given else Put(given, "id", id);
    var acked := if Has(named, "ack") then named else Put(named, "ack", "auto");
    Put(acked, "destination", destination)
  }

  /** The server is told the id under which the callback is registered, and the destination;
      the acknowledgement mode is automatic unless the caller chose one. */
  lemma CompletedSays(given: Dict<string, string>, id: string, destination: string)
    requires Has(given, "id") ==> Lookup(given, "id") == Some(id)
    ensures Lookup(Completed(given, id, destination), "id") == Some(id)
    ensures Lookup(Completed(given, id, destination), "destination") == Some(destination)
    ensures Lookup(Completed(given, id, destination), "ack") ==
            if Has(given, "ack") then Lookup(given, "ack") else Some("auto")
  {
    var named := if Has(given, "id") then given else Put(given, "id", id);
    var acked := if Has(named, "ack") then named else Put(named, "ack", "auto");
    LookupPut(given, "id", id, "id");
    LookupPut(given, "id", id, "ack");
    LookupPut(named, "ack", "auto", "id");
    LookupPut(named, "ack", "auto", "ack");
    LookupPut(acked, "destination", destination, "id");
    LookupPut(acked, "destination", destination, "ack");
    LookupPut(acked, "destination", destination, "destination");
    assert Has(given, "ack") <==> Lookup(given, "ack").Some?;
    assert Has(named, "ack") <==> Lookup(named, "ack").Some?;
  }

  /** A headers dictionary passed in twice already names its first subscription: the second subscribe takes
      the same id over, and the first callback is no longer reached. The repository's one caller,
      src/transport/msg_providers/rabbit.py:52, passes no dictionary. */
  lemma ReusedHeaders(st: Subs, given: Dict<string, string>, destination: string, first: Callback, second: Callback)
    requires !Has(given, "id")
    ensures var id := AutoId(st.counter);
            var st1 := StepSubs(st, Op.Subscribe(first, Lookup(given, "id")));
            var again := Lookup(Completed(given, id, destination), "id");
            && again == Some(id)
            && StepSubs(st1, Op.Subscribe(second, again)) == Subs(st1.counter, st1.live[id := second])
  {
    CompletedSays(given, AutoId(st.counter), destination);
  }

  /** A headers dictionary, which its caller keeps. */
  class Headers {
    var entries: Dict<string, string>

    constructor (entries: Dict<string, string>)
      ensures this.entries == entries
    {
      this.entries := entries;
    }

    method Set(k: string, v: string)
      modifies this
      ensures entries == Put(old(entries), k, v)
    {
      entries := Put(entries, k, v);
    }
  }

  class Client {
    var counter: nat
    var subscriptions: map<string, Callback>
    var connected: bool
    /** The frames given to the socket, as the text `Marshall` prints, in order. */
    var wire: seq<Frame>
    /** Every subscribe and unsubscribe so far. */
    ghost var ops: seq<Op>

    ghost predicate Valid()
      reads this
    {
      State() == Run(ops)
    }

    ghost function State(): Subs
      reads this
    {
      Subs(counter, subscriptions)
    }

    constructor ()
      ensures Valid() && State() == Subs(0, map[]) && !connected && wire == [] && ops == []
    {
      counter, subscriptions, connected, wire, ops := 0, map[], false, [], [];
    }

    /** `_transmit`. */
    method Transmit(frame: Frame)
      modifies this`wire
      ensures wire == old(wire) + [frame]
    {
      wire := wire + [frame];
    }

    /** The part of `subscribe` that names the subscription. */
    method Name(headers: Headers) returns (id: string)
      modifies this`counter, headers
      ensures var entries := old(headers.entries);
              && id == (if Has(entries, "id") then Lookup(entries, "id").value else AutoId(old(counter)))
              && headers.entries == (if Has(entries, "id") then entries else Put(entries, "id", id))
              && counter == if Has(entries, "id") then old(counter) else old(counter) + 1
    {
      if Has(headers.entries, "id") {
        return Lookup(headers.entries, "id").value;
      }
      id := AutoId(counter);
      headers.Set("id", id);
      counter := counter + 1;
    }

    /** `subscribe`: the caller's own dictionary, if there is one, is completed in place, and sent under
        the id it then holds. */
    method Subscribe(destination: string, callback: Callback, given: Headers?) returns (id: string)
      requires Valid()
      modifies this`counter, this`subscriptions, this`wire, this`ops, if given == null then {} else {given}
      ensures Valid() && ops == old(ops) + [Op.Subscribe(callback, if given == null then None
                                                                   else old(Lookup(given.entries, "id")))]
      ensures var entries := if given == null then [] else old(given.entries);
              var op := Op.Subscribe(callback, Lookup(entries, "id"));
              && State() == StepSubs(old(State()), op) && id == IdOf(old(State()), op)
              && wire == old(wire) + [Frame("SUBSCRIBE", Completed(entries, id, destination), "")]
              && (given != null ==> given.entries == Completed(entries, id, destination))
    {
      var headers := given;
      if headers == null {
        headers := new Headers([]);
      }
      RunSnoc(ops, Op.Subscribe(callback, Lookup(headers.entries, "id")));
      ops := ops + [Op.Subscribe(callback, Lookup(headers.entries, "id"))];
      id := Name(headers);
      if !Has(headers.entries, "ack") {
        headers.Set("ack", "auto");
      }
      headers.Set("destination", destination);
      subscriptions := subscriptions[id := callback];
      Transmit(Frame("SUBSCRIBE", headers.entries, ""));
    }

    method Unsubscribe(channel: string) returns (r: Result<(), ClientError>)
      requires Valid()
      modifies this
      ensures Valid() && ops == old(ops) + [Op.Unsubscribe(channel)]
      ensures r.Ok? <==> channel in old(subscriptions)
      ensures State() == StepSubs(old(State()), Op.Unsubscribe(channel))
      ensures connected == old(connected)
      ensures wire == old(wire) + if r.Ok? then [Frame("UNSUBSCRIBE", [("id", channel)], "")] else []
    {
      RunSnoc(ops, Op.Unsubscribe(channel));
      ops := ops + [Op.Unsubscribe(channel)];
      if channel !in subscriptions {
        return Err(KeyError);
      }
      subscriptions := subscriptions - {channel};
      wire := wire + [Frame("UNSUBSCRIBE", [("id", channel)], "")];
      r := Ok(());
    }

    /** `_on_message`: the returned event says which callback ran on which frame. */
    method OnMessage(message: string) returns (r: Result<Event, ClientError>)
      modifies this`connected
      ensures r == React(old(subscriptions), message)
      ensures State() == old(State()) && wire == old(wire)
      ensures connected <==> old(connected) || IsConnected(message)
    {
      var parsed := UnmarshallSingle(message);
      if parsed.Err? {
        return Err(BadFrame(parsed.error));
      }
      if parsed.value.None? {
        return Ok(Ignored);
      }
      var frame := parsed.value.value;
      if frame.command == "CONNECTED" {
        connected := true;
        return Ok(Connected(frame));
      }
      if frame.command == "MESSAGE" {
        var subscription := Lookup(frame.headers, "subscription");
        if subscription.None? {
          return Err(KeyError);
        }
        if subscription.value !in subscriptions {
          return Ok(Unrouted(frame));
        }
        if !Has(frame.headers, "message-id") {
          return Err(KeyError);
        }
        return Ok(Delivered(subscriptions[subscription.value], frame));
      }
      if frame.command == "RECEIPT" {
        return Ok(Ignored);
      }
      r := if frame.command == "ERROR" then Ok(ErrorReported(frame)) else Ok(Unknown(frame));
    }
  }

  // ------------------------------------------------------------------
  // Whole runs of subscribe and unsubscribe
  // ------------------------------------------------------------------

  function Run(ops: seq<Op>): Subs
    decreases |ops|
  {
    if ops == [] then Subs(0, map[])
    else StepSubs(Run(ops[..|ops| - 1]), ops[|ops| - 1])
  }

  lemma RunSnoc(ops: seq<Op>, op: Op)
    ensures Run(ops + [op]) == StepSubs(Run(ops), op)
  {
    assert (ops + [op])[..|ops|] == ops;
  }

  /** Some caller chose this id itself. */
  ghost predicate Supplied(ops: seq<Op>, id: string) {
    exists i :: 0 <= i < |ops| && ops[i].Subscribe? && ops[i].id == Some(id)
  }

  lemma {:induction false} LiveIsAutoOrSupplied(ops: seq<Op>, id: string)
    requires id in Run(ops).live
    ensures Supplied(ops, id) || exists n: nat :: n < Run(ops).counter && id == AutoId(n)
    decreases |ops|
  {
    var k := |ops| - 1;
    var init, op := ops[..k], ops[k];
    if op.Subscribe? && id == IdOf(Run(init), op) {
      assert op.id.None? ==> Run(ops).counter == Run(init).counter + 1 && id == AutoId(Run(init).counter);
    } else {
      LiveIsAutoOrSupplied(init, id);
      if Supplied(init, id) {
        var i :| 0 <= i < k && init[i].Subscribe? && init[i].id == Some(id);
        assert ops[i] == init[i];
      } else {
        var n: nat :| n < Run(init).counter && id == AutoId(n);
        assert n < Run(ops).counter;
      }
    }
  }

  /** The next automatic id is never live, unless a caller supplied that very text itself. */
  lemma AutoIdIsFresh(ops: seq<Op>)
    ensures AutoId(Run(ops).counter) in Run(ops).live ==> Supplied(ops, AutoId(Run(ops).counter))
  {
    var id := AutoId(Run(ops).counter);
    if id in Run(ops).live {
      LiveIsAutoOrSupplied(ops, id);
      forall n: nat | n < Run(ops).counter
        ensures AutoId(n) != id
      {
        AutoIdInjective(n, Run(ops).counter);
      }
    }
  }

  lemma {:induction false} CounterGrows(ops: seq<Op>, i: nat)
    requires i <= |ops|
    ensures Run(ops[..i]).counter <= Run(ops).counter
    decreases |ops|
  {
    if i < |ops| {
      assert ops[..|ops| - 1][..i] == ops[..i];
      CounterGrows(ops[..|ops| - 1], i);
    } else {
      assert ops[..i] == ops;
    }
  }

  /** The operation unsubscribes the id, or subscribes it with another callback. */
  predicate TakesAway(op: Op, id: string, callback: Callback) {
    op == Op.Unsubscribe(id) || (op.Subscribe? && op.id == Some(id) && op.callback != callback)
  }

  /** The id is live with this callback. */
  predicate Holds(st: Subs, id: string, callback: Callback) {
    id in st.live && st.live[id] == callback
  }

  /** An automatically named subscription holds its callback at the end of a run if no later operation takes it
      away. */
  lemma {:induction false} StillHolds(ops: seq<Op>, i: nat)
    requires i < |ops| && ops[i].Subscribe? && ops[i].id.None?
    requires var id := AutoId(Run(ops[..i]).counter);
             forall j :: i < j < |ops| ==> !TakesAway(ops[j], id, ops[i].callback)
    ensures Holds(Run(ops), AutoId(Run(ops[..i]).counter), ops[i].callback)
    decreases |ops|
  {
    var k := |ops| - 1;
    var init := ops[..k];
    if i < k {
      assert init[..i] == ops[..i];
      assert forall j :: i < j < k ==> init[j] == ops[j];
      StillHolds(init, i);
      CounterPassed(init, i);
      AutoIdInjective(Run(ops[..i]).counter, Run(init).counter);
      OthersKeep(Run(init), ops[k], AutoId(Run(ops[..i]).counter), ops[i].callback);
    }
  }

  /** It holds its callback at every later point of the run exactly when no later operation unsubscribes its id or
      subscribes that id with another callback. */
  lemma KeepsItsCallback(ops: seq<Op>, i: nat)
    requires i < |ops| && ops[i].Subscribe? && ops[i].id.None?
    ensures var id := AutoId(Run(ops[..i]).counter);
            (forall n :: i < n <= |ops| ==> Holds(Run(ops[..n]), id, ops[i].callback))
            <==> forall j :: i < j < |ops| ==> !TakesAway(ops[j], id, ops[i].callback)
  {
    var id, callback := AutoId(Run(ops[..i]).counter), ops[i].callback;
    if forall j :: i < j < |ops| ==> !TakesAway(ops[j], id, callback) {
      forall n | i < n <= |ops|
        ensures Holds(Run(ops[..n]), id, callback)
      {
        assert ops[..n][..i] == ops[..i] && ops[..n][i] == ops[i];
        assert forall j :: i < j < n ==> ops[..n][j] == ops[j];
        StillHolds(ops[..n], i);
      }
    } else {
      var j :| i < j < |ops| && TakesAway(ops[j], id, callback);
      assert ops[..j + 1][..j] == ops[..j] && ops[..j + 1][j] == ops[j];
      assert !Holds(Run(ops[..j + 1]), id, callback);
    }
  }

  /** An automatic name is behind the counter from then on. */
  lemma CounterPassed(ops: seq<Op>, i: nat)
    requires i < |ops| && ops[i].Subscribe? && ops[i].id.None?
    ensures Run(ops[..i]).counter < Run(ops).counter
  {
    var next := ops[..i + 1];
    assert next[..i] == ops[..i] && next[i] == ops[i];
    CounterGrows(ops, i + 1);
  }

  /** An operation that does not take it away leaves a subscription as it is. */
  lemma OthersKeep(st: Subs, op: Op, id: string, callback: Callback)
    requires Holds(st, id, callback) && !TakesAway(op, id, callback) && AutoId(st.counter) != id
    ensures Holds(StepSubs(st, op), id, callback)
  {
  }

  // ------------------------------------------------------------------
  // From the wire to the client
  // ------------------------------------------------------------------

  /** What the server's commands come to: CONNECTED connects, RECEIPT is ignored, ERROR is reported, and any other
      command but MESSAGE is unknown. */
  lemma ReactsToCommand(live: map<string, Callback>, f: Frame)
    requires Clean(f) && WellFormed(f.headers)
    ensures var r, g := React(live, Marshall(f)), f.(headers := SentHeaders(f));
            && (f.command == "CONNECTED" ==> r == Ok(Connected(g)))
            && (f.command == "RECEIPT" ==> r == Ok(Ignored))
            && (f.command == "ERROR" ==> r == Ok(ErrorReported(g)))
            && (f.command !in {"CONNECTED", "MESSAGE", "RECEIPT", "ERROR"} ==> r == Ok(Unknown(g)))
    ensures IsConnected(Marshall(f)) <==> f.command == "CONNECTED"
  {
    RoundTrip(f);
  }

  /** Where a MESSAGE goes: without a subscription it raises, one that is not live is left unrouted, and a live one
      reaches its callback with the body intact, unless it lacks the message id and raises. */
  lemma RoutesMessage(live: map<string, Callback>, f: Frame)
    requires Clean(f) && WellFormed(f.headers) && f.command == "MESSAGE"
    ensures var r, g := React(live, Marshall(f)), f.(headers := SentHeaders(f));
            match Lookup(f.headers, "subscription")
            case None => r == Err(KeyError)
            case Some(id) =>
              && (id !in live ==> r == Ok(Unrouted(g)))
              && (id in live && !Has(f.headers, "message-id") ==> r == Err(KeyError))
              && (id in live && Has(f.headers, "message-id") ==> r == Ok(Delivered(live[id], g)))
  {
    RoundTrip(f);
    LookupSent(f, "subscription");
    LookupSent(f, "message-id");
  }

  /** A lone line feed is ignored, and exactly the texts that do not parse are bad frames. */
  lemma ReactsToText(live: map<string, Callback>, data: string, e: ParseError)
    ensures React(live, "\n") == Ok(Ignored)
    ensures React(live, data) == Err(BadFrame(e)) <==> Parsed(data) == Err(e)
  {
  }

  /** So a clean MESSAGE frame that names a subscription which nothing has taken away, and carries a message id,
      reaches that subscription's own callback. */
  lemma MessageReachesCallback(ops: seq<Op>, i: nat, f: Frame)
    requires i < |ops| && ops[i].Subscribe? && ops[i].id.None?
    requires var id := AutoId(Run(ops[..i]).counter);
             && (forall j :: i < j < |ops| ==> !TakesAway(ops[j], id, ops[i].callback))
             && Lookup(f.headers, "subscription") == Some(id)
    requires Clean(f) && WellFormed(f.headers) && f.command == "MESSAGE" && Has(f.headers, "message-id")
    ensures React(Run(ops).live, Marshall(f)) == Ok(Delivered(ops[i].callback, f.(headers := SentHeaders(f))))
  {
    StillHolds(ops, i);
    RoutesMessage(Run(ops).live, f);
  }

  /** A header other than the one that may be added is sent as it is. */
  lemma LookupSent(f: Frame, k: string)
    requires WellFormed(f.headers) && k != "content-length"
    ensures Lookup(SentHeaders(f), k) == Lookup(f.headers, k)
    ensures Has(SentHeaders(f), k) <==> Has(f.headers, k)
  {
    var i, sent := IndexOf(f.headers, k), SentHeaders(f);
    var j := IndexOf(sent, k);
    assert forall n :: 0 <= n < |f.headers| ==> sent[n] == f.headers[n];
    assert j < |sent| ==> sent[j].0 == k;
  }
}
