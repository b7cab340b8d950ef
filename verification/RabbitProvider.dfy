/** The message queue of src/transport/msg_providers/rabbit.py: another thread appends to it
    while a fetch pops from it. */
module RabbitProvider {
  import opened StompFrame
  import opened Wrappers

  const MAX_MESSAGES_RECEIVE: nat := 1000

  datatype RabbitError = ConnectionError

  // ------------------------------------------------------------------
  // Reconnections
  // ------------------------------------------------------------------

  /** The connection flag, and the clock reading of the last reconnection. */
  datatype Link = Link(connection: bool, lastReconnect: real)

  /** `_recreate_client`, which reads the clock once: a reading less than five seconds after the last one drops
      the flag, which nothing sets again. */
  function Reconnected(l: Link, now: real): Link {
    Link(l.connection && now - l.lastReconnect >= 5.0, now)
  }

  /** The link after reconnections with these readings. */
  function AfterReadings(l: Link, readings: seq<real>): Link
    decreases |readings|
  {
    if readings == [] then l
    else Reconnected(AfterReadings(l, readings[..|readings| - 1]), readings[|readings| - 1])
  }

  /** The reading before the k-th one. */
  function ReadingBefore(last: real, readings: seq<real>, k: nat): real
    requires k < |readings|
  {
    if k == 0 then last else readings[k - 1]
  }

  /** Two successive readings are less than five seconds apart. */
  ghost predicate TooClose(last: real, readings: seq<real>) {
    exists k :: 0 <= k < |readings| && readings[k] - ReadingBefore(last, readings, k) < 5.0
  }

  /** The flag is dropped exactly when two successive readings are less than five seconds apart. */
  lemma {:induction false} FlagIff(l: Link, readings: seq<real>)
    ensures AfterReadings(l, readings).connection <==> l.connection && !TooClose(l.lastReconnect, readings)
    ensures AfterReadings(l, readings).lastReconnect
            == if readings == [] then l.lastReconnect else readings[|readings| - 1]
    decreases |readings|
  {
    if readings != [] {
      var n := |readings| - 1;
      var init := readings[..n];
      FlagIff(l, init);
      assert forall k :: 0 <= k < n ==>
                           ReadingBefore(l.lastReconnect, init, k) == ReadingBefore(l.lastReconnect, readings, k);
      assert AfterReadings(l, init).lastReconnect == ReadingBefore(l.lastReconnect, readings, n);
      assert TooClose(l.lastReconnect, readings)
        <==> TooClose(l.lastReconnect, init) || readings[n] - ReadingBefore(l.lastReconnect, readings, n) < 5.0;
    }
  }

  lemma {:induction false} ReadingsConcat(l: Link, a: seq<real>, b: seq<real>)
    ensures AfterReadings(l, a + b) == AfterReadings(AfterReadings(l, a), b)
    decreases |b|
  {
    if b == [] {
      assert a + b == a;
    } else {
      assert (a + b)[..|a + b| - 1] == a + b[..|b| - 1];
      ReadingsConcat(l, a, b[..|b| - 1]);
    }
  }

  /** One reconnection in real time: the socket closes, then the clock is read. */
  datatype Closing = Closing(closedAt: real, readAt: real)

  /** Five seconds are slept before the clock is read, and two after it, before there is a client whose socket
      could close next; the first client comes after the start. */
  ghost predicate IsSchedule(start: real, closings: seq<Closing>) {
    forall k :: 0 <= k < |closings| ==>
      && closings[k].readAt >= closings[k].closedAt + 5.0
      && closings[k].closedAt >= if k == 0 then start else closings[k - 1].readAt + 2.0
  }

  /** The wall clock is never set back: it advances at least as far as time does. */
  ghost predicate Forward(clock: real -> real) {
    forall s, t :: s <= t ==> clock(t) - clock(s) >= t - s
  }

  function Readings(clock: real -> real, closings: seq<Closing>): (r: seq<real>)
    ensures |r| == |closings|
    ensures forall k :: 0 <= k < |closings| ==> r[k] == clock(closings[k].readAt)
  {
    seq(|closings|, k requires 0 <= k < |closings| => clock(closings[k].readAt))
  }

  /** Under such a clock no two readings are that close, so the flag is never dropped. */
  lemma ForwardKeepsFlag(clock: real -> real, start: real, closings: seq<Closing>)
    requires Forward(clock) && IsSchedule(start, closings)
    ensures !TooClose(clock(start), Readings(clock, closings))
    ensures AfterReadings(Link(true, clock(start)), Readings(clock, closings)).connection
  {
    var readings := Readings(clock, closings);
    forall k | 0 <= k < |readings|
      ensures readings[k] - ReadingBefore(clock(start), readings, k) >= 5.0
    {
      var before := if k == 0 then start else closings[k - 1].readAt;
      assert ReadingBefore(clock(start), readings, k) == clock(before);
      assert clock(closings[k].readAt) - clock(before) >= closings[k].readAt - before;
    }
    FlagIff(Link(true, clock(start)), readings);
  }

  // ------------------------------------------------------------------
  // One fetch, interleaved with the socket thread, on values
  // ------------------------------------------------------------------

  /** The other thread's steps: before pop i it appends arrivals(i) and reconnects with these readings. */
  datatype Thread = Thread(arrivals: nat -> seq<string>, readings: nat -> seq<real>)

  /** Everything the thread has appended before its step n. */
  function Appended(t: Thread, n: nat): seq<string> {
    if n == 0 then [] else Appended(t, n - 1) + t.arrivals(n - 1)
  }

  /** Every reading it has taken before its step n. */
  function Taken(t: Thread, n: nat): seq<real> {
    if n == 0 then [] else Taken(t, n - 1) + t.readings(n - 1)
  }

  /** The link before its step n. */
  function LinkAt(l: Link, t: Thread, n: nat): Link {
    if n == 0 then l else AfterReadings(LinkAt(l, t, n - 1), t.readings(n - 1))
  }

  lemma {:induction false} LinkOfTaken(l: Link, t: Thread, n: nat)
    ensures LinkAt(l, t, n) == AfterReadings(l, Taken(t, n))
  {
    if n > 0 {
      LinkOfTaken(l, t, n - 1);
      ReadingsConcat(l, Taken(t, n - 1), t.readings(n - 1));
    }
  }

  /** A dropped flag stays dropped. */
  lemma LinkUp(l: Link, t: Thread, n: nat)
    ensures LinkAt(l, t, n).connection ==> l.connection
  {
    LinkOfTaken(l, t, n);
    FlagIff(l, Taken(t, n));
  }

  /** Whether the flag is true at each pop. */
  function Up(l: Link, t: Thread): nat -> bool {
    (n: nat) => LinkAt(l, t, n + 1).connection
  }

  /** The queue after a fetch, what it popped, how many steps the thread took meanwhile, and whether the fetch
      found the connection lost. */
  datatype Fetch = Fetch(queue: seq<string>, messages: seq<string>, steps: nat, failed: bool)

  /** The fetch from pop i on, which finds the flag as `up` says; bodies are popped from the end of the queue. */
  function Pops(i: nat, queue: seq<string>, messages: seq<string>, t: Thread, up: nat -> bool): Fetch
    requires i <= 1000
    decreases MAX_MESSAGES_RECEIVE - i, |messages|
  {
    if i == MAX_MESSAGES_RECEIVE then Fetch(queue, messages, i, false)
    else
      var q := queue + t.arrivals(i);
      var n := |q| - 1;
      if !up(i) then Fetch(q, messages, i + 1, true)
      else if q == [] then Fetch(q, messages, i + 1, false)
      else Pops(i + 1, q[..n], messages + [q[n]], t, up)
  }

  ghost predicate IsUp(up: nat -> bool, l: Link, t: Thread) {
    forall n: nat {:trigger up(n)} :: up(n) == LinkAt(l, t, n + 1).connection
  }

  /** One whole fetch. */
  function FetchOnce(queue: seq<string>, link: Link, t: Thread): Fetch {
    Pops(0, queue, [], t, Up(link, t))
  }

  /** How many copies of body x a list holds. */
  ghost function Copies(s: seq<string>, x: string): nat {
    if s == [] then 0 else (if s[0] == x then 1 else 0) + Copies(s[1..], x)
  }

  lemma {:induction false} CopiesCount(s: seq<string>, x: string)
    ensures Copies(s, x) == multiset(s)[x]
  {
    if s != [] {
      CopiesCount(s[1..], x);
      assert s == [s[0]] + s[1..];
    }
  }

  lemma {:induction false} CopiesConcat(a: seq<string>, b: seq<string>, x: string)
    ensures Copies(a + b, x) == Copies(a, x) + Copies(b, x)
  {
    if a == [] {
      assert a + b == b;
    } else {
      CopiesConcat(a[1..], b, x);
      assert (a + b)[1..] == a[1..] + b;
    }
  }

  lemma {:induction false} CopiesSnoc(a: seq<string>, y: string, x: string)
    ensures Copies(a + [y], x) == Copies(a, x) + if y == x then 1 else 0
  {
    if a == [] {
      assert a + [y] == [y] && [y][1..] == [];
    } else {
      assert (a + [y])[1..] == a[1..] + [y];
      CopiesSnoc(a[1..], y, x);
    }
  }

  /** Popping moves one body from the queue to the messages. */
  lemma CopiesPop(queue: seq<string>, messages: seq<string>, x: string)
    requires queue != []
    ensures var n := |queue| - 1;
            Copies(queue[..n], x) + Copies(messages + [queue[n]], x) == Copies(queue, x) + Copies(messages, x)
  {
    var n := |queue| - 1;
    assert queue == queue[..n] + [queue[n]];
    CopiesSnoc(queue[..n], queue[n], x);
    CopiesSnoc(messages, queue[n], x);
  }

  /** Of body x there are as many copies after a fetch as before it and appended since its i-th pop. */
  ghost predicate Conserves(i: nat, queue: seq<string>, messages: seq<string>, t: Thread, up: nat -> bool, x: string)
    requires i <= 1000
  {
    var f := Pops(i, queue, messages, t, up);
    Copies(f.queue, x) + Copies(f.messages, x) + Copies(Appended(t, i), x)
    == Copies(queue, x) + Copies(messages, x) + Copies(Appended(t, f.steps), x)
  }

  lemma ConservesStop(i: nat, queue: seq<string>, messages: seq<string>, t: Thread, up: nat -> bool, x: string)
    requires i < 1000 && (!up(i) || queue + t.arrivals(i) == [])
    ensures Conserves(i, queue, messages, t, up, x)
  {
    CopiesConcat(queue, t.arrivals(i), x);
    CopiesConcat(Appended(t, i), t.arrivals(i), x);
  }

  lemma ConservesPop(i: nat, queue: seq<string>, messages: seq<string>, t: Thread, up: nat -> bool, x: string)
    requires i < 1000 && up(i) && queue + t.arrivals(i) != []
    requires var q := queue + t.arrivals(i);
             Conserves(i + 1, q[..|q| - 1], messages + [q[|q| - 1]], t, up, x)
    ensures Conserves(i, queue, messages, t, up, x)
  {
    CopiesConcat(queue, t.arrivals(i), x);
    CopiesConcat(Appended(t, i), t.arrivals(i), x);
    CopiesPop(queue + t.arrivals(i), messages, x);
  }

  /** Nothing is duplicated and nothing disappears, under every interleaving. */
  lemma {:induction false} PopsConserve(i: nat, queue: seq<string>, messages: seq<string>, t: Thread, up: nat -> bool,
                                        x: string)
    requires i <= 1000
    ensures Conserves(i, queue, messages, t, up, x)
    decreases MAX_MESSAGES_RECEIVE - i
  {
    if i < MAX_MESSAGES_RECEIVE {
      var q := queue + t.arrivals(i);
      if up(i) && q != [] {
        PopsConserve(i + 1, q[..|q| - 1], messages + [q[|q| - 1]], t, up, x);
        ConservesPop(i, queue, messages, t, up, x);
      } else {
        ConservesStop(i, queue, messages, t, up, x);
      }
    }
  }

  /** How a fetch ends: with a thousand bodies, with an empty queue, or at the pop that finds the connection lost. */
  lemma {:induction false} PopsEnd(i: nat, queue: seq<string>, messages: seq<string>, t: Thread, up: nat -> bool)
    requires i <= 1000 && |messages| == i && (i > 0 ==> up(i - 1))
    ensures var f := Pops(i, queue, messages, t, up);
            && |f.messages| <= 1000 && f.steps > 0
            && (f.failed <==> !up(f.steps - 1))
            && (f.failed ==> |f.messages| == f.steps - 1)
            && (!f.failed && |f.messages| < 1000 ==> f.queue == [])
    decreases MAX_MESSAGES_RECEIVE - i
  {
    if i < MAX_MESSAGES_RECEIVE {
      var q := queue + t.arrivals(i);
      if up(i) && q != [] {
        PopsEnd(i + 1, q[..|q| - 1], messages + [q[|q| - 1]], t, up);
      }
    }
  }

  lemma FetchConserves(queue: seq<string>, t: Thread, up: nat -> bool)
    ensures var f := Pops(0, queue, [], t, up);
            multiset(f.queue) + multiset(f.messages) == multiset(queue) + multiset(Appended(t, f.steps))
  {
    var f := Pops(0, queue, [], t, up);
    forall x: string
      ensures (multiset(f.queue) + multiset(f.messages))[x] == (multiset(queue) + multiset(Appended(t, f.steps)))[x]
    {
      PopsConserve(0, queue, [], t, up, x);
      CopiesCount(f.queue, x);
      CopiesCount(f.messages, x);
      CopiesCount(queue, x);
      CopiesCount(Appended(t, f.steps), x);
    }
  }

  /** The books of the provider balance after a fetch, whether its bodies were returned or lost. */
  lemma FetchBalances(e: multiset<string>, queue: seq<string>, fetched: multiset<string>, lost: multiset<string>,
                      t: Thread, up: nat -> bool)
    requires e == multiset(queue) + fetched + lost
    ensures var f := Pops(0, queue, [], t, up);
            && e + multiset(Appended(t, f.steps)) == multiset(f.queue) + (fetched + multiset(f.messages)) + lost
            && e + multiset(Appended(t, f.steps)) == multiset(f.queue) + fetched + (lost + multiset(f.messages))
  {
    var f := Pops(0, queue, [], t, up);
    FetchConserves(queue, t, up);
    Balance(e, multiset(queue), fetched + lost,
            multiset(f.queue), multiset(f.messages), multiset(Appended(t, f.steps)));
  }

  lemma AddsNone(lost: multiset<string>, messages: seq<string>)
    ensures lost + multiset(messages) == lost <==> messages == []
  {
    assert messages != [] ==> (lost + multiset(messages))[messages[0]] > lost[messages[0]];
  }

  /** Moving m out of a queue that gains a keeps every count. */
  lemma Balance(e: multiset<string>, q: multiset<string>, rest: multiset<string>,
                q': multiset<string>, m: multiset<string>, a: multiset<string>)
    requires e == q + rest && q' + m == q + a
    ensures e + a == q' + (rest + m)
  {
    assert q' + (rest + m) == (q' + m) + rest;
  }

  /** The last k elements of the queue, the newest first. */
  function Newest(queue: seq<string>, k: nat): (r: seq<string>)
    requires k <= |queue|
    ensures |r| == k
    ensures forall i :: 0 <= i < k ==> r[i] == queue[|queue| - 1 - i]
  {
    seq(k, i requires 0 <= i < k => queue[|queue| - 1 - i])
  }

  /** A fetch that the other thread leaves alone serves the queue from its end: it returns the newest
      thousand bodies, newest first, and leaves the older ones. */
  lemma {:induction false} UndisturbedFetch(i: nat, start: seq<string>, t: Thread, up: nat -> bool)
    requires forall k: nat :: t.arrivals(k) == [] && up(k)
    requires i <= 1000 && i <= |start|
    ensures var k := if |start| <= 1000 then |start| else 1000;
            Pops(i, start[..|start| - i], Newest(start, i), t, up)
            == Fetch(start[..|start| - k], Newest(start, k), if |start| < 1000 then k + 1 else k, false)
    decreases MAX_MESSAGES_RECEIVE - i
  {
    if i < MAX_MESSAGES_RECEIVE {
      var q := start[..|start| - i];
      assert t.arrivals(i) == [] && up(i);
      assert q + [] == q;
      if i < |start| {
        assert q[..|q| - 1] == start[..|start| - (i + 1)];
        assert Newest(start, i) + [q[|q| - 1]] == Newest(start, i + 1);
        UndisturbedFetch(i + 1, start, t, up);
      } else {
        assert q == start[..0];
      }
    }
  }

  // ------------------------------------------------------------------
  // When bodies are lost
  // ------------------------------------------------------------------

  /** After j pops there is a body left for pop j, with what the thread has appended by then. */
  ghost predicate HasBody(length: nat, t: Thread, j: nat) {
    length + |Appended(t, j + 1)| > j
  }

  /** From pop i up to pop k the flag is true and there is a body to pop, for a queue that held
      `length` bodies before the first pop. */
  ghost predicate Reaches(length: nat, t: Thread, up: nat -> bool, i: nat, k: nat) {
    forall j: nat :: i <= j < k ==> up(j) && HasBody(length, t, j)
  }

  lemma PopStep(i: nat, queue: seq<string>, messages: seq<string>, t: Thread, up: nat -> bool)
    requires i < 1000 && up(i) && queue + t.arrivals(i) != []
    ensures var q := queue + t.arrivals(i);
            Pops(i, queue, messages, t, up) == Pops(i + 1, q[..|q| - 1], messages + [q[|q| - 1]], t, up)
  {
  }

  lemma PopStops(i: nat, queue: seq<string>, messages: seq<string>, t: Thread, up: nat -> bool)
    requires i < 1000 && (!up(i) || queue + t.arrivals(i) == [])
    ensures Pops(i, queue, messages, t, up).messages == messages
    ensures Pops(i, queue, messages, t, up).failed <==> !up(i)
  {
  }

  lemma BodyLeft(i: nat, queue: seq<string>, t: Thread, length: nat)
    requires |queue| + i == length + |Appended(t, i)|
    ensures |queue + t.arrivals(i)| + i == length + |Appended(t, i + 1)|
    ensures queue + t.arrivals(i) != [] <==> HasBody(length, t, i)
  {
  }

  lemma ReachesFrom(length: nat, t: Thread, up: nat -> bool, i: nat, k: nat)
    requires Reaches(length, t, up, i + 1, k) && up(i) && HasBody(length, t, i)
    ensures Reaches(length, t, up, i, k)
  {
  }

  /** Pop k is the one at which a fetch ends that stands before pop i. */
  ghost predicate EndsAt(i: nat, t: Thread, up: nat -> bool, length: nat, f: Fetch, k: nat) {
    && i <= k <= 1000 && |f.messages| == k && (f.failed <==> k < 1000 && !up(k))
    && Reaches(length, t, up, i, k) && (k < 1000 ==> !up(k) || !HasBody(length, t, k))
  }

  /** There is such a pop. */
  lemma {:induction false} PopsReach(i: nat, queue: seq<string>, messages: seq<string>, t: Thread, up: nat -> bool,
                                     length: nat) returns (k: nat)
    requires i <= 1000 && |messages| == i
    requires |queue| + i == length + |Appended(t, i)|
    ensures EndsAt(i, t, up, length, Pops(i, queue, messages, t, up), k)
    decreases MAX_MESSAGES_RECEIVE - i
  {
    k := i;
    if i < MAX_MESSAGES_RECEIVE {
      var q := queue + t.arrivals(i);
      BodyLeft(i, queue, t, length);
      if up(i) && q != [] {
        k := PopsReach(i + 1, q[..|q| - 1], messages + [q[|q| - 1]], t, up, length);
        PopStep(i, queue, messages, t, up);
        ReachesFrom(length, t, up, i, k);
      } else {
        PopStops(i, queue, messages, t, up);
      }
    }
  }

  /** The thousandth pop is not passed, and at pop k, which is not the first, the readings taken so far first hold
      two that are too close; and there was a body to pop before it each time. */
  ghost predicate DropsAt(length: nat, last: real, t: Thread, k: nat) {
    && 0 < k < 1000 && TooClose(last, Taken(t, k + 1)) && !TooClose(last, Taken(t, k))
    && forall j: nat :: j < k ==> HasBody(length, t, j)
  }

  ghost predicate DropsMidway(length: nat, last: real, t: Thread) {
    exists k: nat :: DropsAt(length, last, t, k)
  }

  /** The flag at a pop in terms of the readings taken by then. */
  lemma UpIff(l: Link, t: Thread, n: nat)
    ensures Up(l, t)(n) <==> l.connection && !TooClose(l.lastReconnect, Taken(t, n + 1))
  {
    LinkOfTaken(l, t, n + 1);
    FlagIff(l, Taken(t, n + 1));
  }

  /** What is too close stays so. */
  lemma {:induction false} CloseStays(last: real, t: Thread, m: nat, n: nat)
    requires m <= n && TooClose(last, Taken(t, m))
    ensures TooClose(last, Taken(t, n))
    decreases n
  {
    if m < n {
      CloseStays(last, t, m, n - 1);
      CloseInLonger(last, Taken(t, n - 1), t.readings(n - 1));
    }
  }

  lemma CloseInLonger(last: real, a: seq<real>, b: seq<real>)
    requires TooClose(last, a)
    ensures TooClose(last, a + b)
  {
    var k :| 0 <= k < |a| && a[k] - ReadingBefore(last, a, k) < 5.0;
    assert (a + b)[k] - ReadingBefore(last, a + b, k) < 5.0;
  }

  /** A fetch that comes to pop k and finds the flag dropped there. */
  lemma ReachesIff(length: nat, l: Link, t: Thread, k: nat)
    requires l.connection && 0 < k < 1000
    ensures Reaches(length, t, Up(l, t), 0, k) && !Up(l, t)(k) <==> DropsAt(length, l.lastReconnect, t, k)
  {
    UpIff(l, t, k);
    UpIff(l, t, k - 1);
    if DropsAt(length, l.lastReconnect, t, k) {
      forall j: nat | 0 <= j < k
        ensures Up(l, t)(j) && HasBody(length, t, j)
      {
        UpIff(l, t, j);
        if TooClose(l.lastReconnect, Taken(t, j + 1)) {
          CloseStays(l.lastReconnect, t, j + 1, k);
        }
      }
    } else {
      assert Reaches(length, t, Up(l, t), 0, k) ==> HasBody(length, t, k - 1);
    }
  }

  /** There is only one pop at which a fetch can end. */
  lemma OneEnd(length: nat, t: Thread, up: nat -> bool, k: nat, k': nat)
    requires Reaches(length, t, up, 0, k) && Reaches(length, t, up, 0, k') && !up(k')
    requires k' < 1000 && (k < 1000 ==> !up(k) || !HasBody(length, t, k))
    requires k <= 1000
    ensures k' == k
  {
    assert k' < k ==> HasBody(length, t, k');
    assert HasBody(length, t, k) || k' <= k;
  }

  /** A fetch loses bodies exactly when the flag is true at its start and two readings that are too close drop it
      midway. */
  lemma LostIff(queue: seq<string>, link: Link, t: Thread)
    ensures var f := FetchOnce(queue, link, t);
            f.failed && f.messages != [] <==> link.connection && DropsMidway(|queue|, link.lastReconnect, t)
  {
    var up := Up(link, t);
    var k := PopsReach(0, queue, [], t, up, |queue|);
    UpIff(link, t, 0);
    if link.connection {
      if 0 < k < MAX_MESSAGES_RECEIVE {
        ReachesIff(|queue|, link, t, k);
      }
      forall k': nat | DropsAt(|queue|, link.lastReconnect, t, k')
        ensures k' == k
      {
        ReachesIff(|queue|, link, t, k');
        OneEnd(|queue|, t, up, k, k');
      }
    }
  }

  /** One queued body is popped and lost when a reconnection right behind it reads a clock that has been set back
      to less than five seconds after the last reading. */
  lemma LossWitness(body: string, link: Link) returns (t: Thread)
    requires link.connection
    ensures FetchOnce([body], link, t).failed && FetchOnce([body], link, t).messages != []
  {
    t := Thread(_ => [], n => if n == 1 then [link.lastReconnect + 4.0] else []);
    var one: nat := 1;
    assert t.readings(0) == [] && Taken(t, one) == [];
    assert Taken(t, one + 1) == t.readings(one) == [link.lastReconnect + 4.0];
    assert Taken(t, one + 1)[0] - ReadingBefore(link.lastReconnect, Taken(t, one + 1), 0) < 5.0;
    assert HasBody(|[body]|, t, 0) && DropsAt(|[body]|, link.lastReconnect, t, one);
    LostIff([body], link, t);
  }

  /** Both in terms of what a fetch returns and adds to the lost bodies. */
  lemma FetchEnds(queue: seq<string>, link: Link, t: Thread, lost: multiset<string>)
    ensures var f := FetchOnce(queue, link, t);
            && |f.messages| <= 1000
            && (!f.failed && |f.messages| < 1000 ==> f.queue == [])
            && (f.failed && lost + multiset(f.messages) != lost
                <==> link.connection && DropsMidway(|queue|, link.lastReconnect, t))
  {
    LostIff(queue, link, t);
    PopsEnd(0, queue, [], t, Up(link, t));
    AddsNone(lost, FetchOnce(queue, link, t).messages);
  }

  // ------------------------------------------------------------------
  // The provider
  // ------------------------------------------------------------------

  class RabbitProvider {
    var queue: seq<string>
    var connection: bool
    var lastReconnect: real
    /** All bodies ever received, those returned by fetches, and those popped by a fetch that
        then raised. */
    ghost var enqueued: multiset<string>
    ghost var fetched: multiset<string>
    ghost var lost: multiset<string>
    /** The reading at the start, and those of all reconnections. */
    ghost const start: real
    ghost var readings: seq<real>

    /** Conservation over every run: each body received is in exactly one place, and none is lost
        while the connection flag stays true, which is so as the readings say. */
    ghost predicate Valid()
      reads this
    {
      Balanced() && Recorded()
    }

    ghost predicate Balanced()
      reads this
    {
      enqueued == multiset(queue) + fetched + lost && (connection ==> lost == multiset{})
    }

    ghost predicate Recorded()
      reads this
    {
      Link(connection, lastReconnect) == AfterReadings(Link(true, start), readings)
    }

    constructor (now: real)
      ensures Valid() && connection && queue == [] && enqueued == multiset{}
      ensures start == now && readings == []
    {
      queue, connection, lastReconnect := [], true, now;
      enqueued, fetched, lost := multiset{}, multiset{}, multiset{};
      start, readings := now, [];
    }

    /** `on_message`: the socket thread appends the body of a delivered frame. */
    method OnMessage(frame: Frame)
      requires Valid()
      modifies this`queue, this`enqueued
      ensures Valid()
      ensures queue == old(queue) + [frame.body] && enqueued == old(enqueued) + multiset{frame.body}
    {
      queue := queue + [frame.body];
      enqueued := enqueued + multiset{frame.body};
    }

    /** `_recreate_client` as far as it concerns the flag. */
    method RecreateClient(now: real)
      modifies this`connection, this`lastReconnect
      ensures Link(connection, lastReconnect) == Reconnected(Link(old(connection), old(lastReconnect)), now)
    {
      if now - lastReconnect < 5.0 {
        connection := false;
      }
      lastReconnect := now;
    }

    /** A lost connection outside a fetch. */
    method OnClose(now: real)
      requires Valid()
      modifies this`connection, this`lastReconnect, this`readings
      ensures Valid() && readings == old(readings) + [now]
    {
      RecreateClient(now);
      assert (readings + [now])[..|readings|] == readings;
      readings := readings + [now];
    }

    /** `_receive_message`: pop the newest body, if any. */
    method ReceiveMessage() returns (r: Result<Option<string>, RabbitError>)
      modifies this`queue
      ensures r == if !connection then Err(ConnectionError)
                   else if old(queue) == [] then Ok(None)
                   else Ok(Some(old(queue)[|old(queue)| - 1]))
      ensures queue == if r.Ok? && r.value.Some? then old(queue)[..|old(queue)| - 1] else old(queue)
    {
      if !connection {
        return Err(ConnectionError);
      }
      if queue == [] {
        return Ok(None);
      }
      r := Ok(Some(queue[|queue| - 1]));
      queue := queue[..|queue| - 1];
    }

    /** One step of the other thread. */
    method ThreadStep(arrivals: seq<string>, taken: seq<real>)
      modifies this`queue, this`connection, this`lastReconnect
      ensures queue == old(queue) + arrivals
      ensures Link(connection, lastReconnect) == AfterReadings(Link(old(connection), old(lastReconnect)), taken)
    {
      queue := queue + arrivals;
      assert taken[..|taken|] == taken;
      for i := 0 to |taken|
        invariant queue == old(queue) + arrivals
        invariant Link(connection, lastReconnect)
                  == AfterReadings(Link(old(connection), old(lastReconnect)), taken[..i])
      {
        assert taken[..i + 1][..i] == taken[..i];
        RecreateClient(taken[i]);
      }
    }

    /** The i-th pop, behind the other thread's step. */
    method PopOne(i: nat, t: Thread, ghost link: Link, ghost up: nat -> bool)
      returns (msg: Result<Option<string>, RabbitError>)
      requires Link(connection, lastReconnect) == LinkAt(link, t, i) && IsUp(up, link, t)
      modifies this`queue, this`connection, this`lastReconnect
      ensures var q := old(queue) + t.arrivals(i);
              && msg == (if !up(i) then Err(ConnectionError) else if q == [] then Ok(None) else Ok(Some(q[|q| - 1])))
              && queue == if up(i) && q != [] then q[..|q| - 1] else q
      ensures Link(connection, lastReconnect) == LinkAt(link, t, i + 1) && connection == up(i)
    {
      ThreadStep(t.arrivals(i), t.readings(i));
      assert up(i) == LinkAt(link, t, i + 1).connection;
      msg := ReceiveMessage();
    }

    /** The loop of `_fetch_messages`. */
    method PopMany(t: Thread, ghost up: nat -> bool) returns (messages: seq<string>, ghost steps: nat, failed: bool)
      requires IsUp(up, Link(connection, lastReconnect), t)
      modifies this`queue, this`connection, this`lastReconnect
      ensures Fetch(queue, messages, steps, failed) == Pops(0, old(queue), [], t, up)
      ensures Link(connection, lastReconnect) == LinkAt(Link(old(connection), old(lastReconnect)), t, steps)
      ensures connection <==> !failed
    {
      messages, steps, failed := [], MAX_MESSAGES_RECEIVE, false;
      ghost var link, f := Link(connection, lastReconnect), Pops(0, queue, [], t, up);
      for i := 0 to MAX_MESSAGES_RECEIVE
        invariant steps == MAX_MESSAGES_RECEIVE && !failed && (i > 0 ==> connection)
        invariant Link(connection, lastReconnect) == LinkAt(link, t, i)
        invariant Pops(i, queue, messages, t, up) == f
      {
        var msg := PopOne(i, t, link, up);
        if msg.Err? || msg.value.None? {
          steps, failed := i + 1, msg.Err?;
          return;
        }
        messages := messages + [msg.value.value];
      }
    }

    /** A fetch for a flag that goes as `up` says: the popped bodies are returned, or dropped by the exception. */
    method FetchBodies(t: Thread, ghost up: nat -> bool)
      returns (r: Result<seq<string>, RabbitError>, ghost steps: nat)
      requires Balanced() && IsUp(up, Link(connection, lastReconnect), t)
      modifies this`queue, this`connection, this`lastReconnect, this`enqueued, this`fetched, this`lost
      ensures Balanced()
      ensures Link(connection, lastReconnect) == LinkAt(Link(old(connection), old(lastReconnect)), t, steps)
      ensures var f := Pops(0, old(queue), [], t, up);
              && r == (if f.failed then Err(ConnectionError) else Ok(f.messages))
              && queue == f.queue && steps == f.steps
              && enqueued == old(enqueued) + multiset(Appended(t, f.steps))
              && fetched == (if r.Ok? then old(fetched) + multiset(r.value) else old(fetched))
              && lost == if r.Ok? then old(lost) else old(lost) + multiset(f.messages)
      ensures connection <==> r.Ok?
    {
      ghost var link := Link(connection, lastReconnect);
      FetchBalances(enqueued, queue, fetched, lost, t, up);
      var messages, failed;
      messages, steps, failed := PopMany(t, up);
      LinkUp(link, t, steps);
      enqueued := enqueued + multiset(Appended(t, steps));
      if failed {
        lost := lost + multiset(messages);
        return Err(ConnectionError), steps;
      }
      fetched := fetched + multiset(messages);
      r := Ok(messages);
    }

    /** `_fetch_messages`. */
    method FetchMessages(t: Thread) returns (r: Result<seq<string>, RabbitError>)
      requires Valid()
      modifies this
      ensures Valid()
      ensures var link := Link(old(connection), old(lastReconnect));
              var f := FetchOnce(old(queue), link, t);
              && r == (if f.failed then Err(ConnectionError) else Ok(f.messages))
              && queue == f.queue && Link(connection, lastReconnect) == LinkAt(link, t, f.steps)
              && readings == old(readings) + Taken(t, f.steps)
              && enqueued == old(enqueued) + multiset(Appended(t, f.steps))
              && fetched == (if r.Ok? then old(fetched) + multiset(r.value) else old(fetched))
              && lost == if r.Ok? then old(lost) else old(lost) + multiset(f.messages)
      ensures r.Ok? ==> |r.value| <= 1000 && (|r.value| < 1000 ==> queue == [])
      ensures connection <==> r.Ok?
      ensures lost != old(lost) <==> old(connection) && DropsMidway(|old(queue)|, old(lastReconnect), t)
    {
      ghost var link := Link(connection, lastReconnect);
      FetchEnds(queue, link, t, lost);
      ghost var steps;
      r, steps := FetchBodies(t, Up(link, t));
      RecordsOn(Link(true, start), readings, link, t, steps);
      readings := readings + Taken(t, steps);
    }
  }

  lemma RecordsOn(first: Link, readings: seq<real>, l: Link, t: Thread, n: nat)
    requires l == AfterReadings(first, readings)
    ensures LinkAt(l, t, n) == AfterReadings(first, readings + Taken(t, n))
  {
    LinkOfTaken(l, t, n);
    ReadingsConcat(first, readings, Taken(t, n));
  }

  /** Whatever a provider has been through: if the clock was never set back, its flag is still true, so none of
      its fetches has raised, and every body ever received is in the queue or was returned by a fetch. */
  lemma NothingLost(p: RabbitProvider, clock: real -> real, start: real, closings: seq<Closing>)
    requires p.Valid() && p.start == clock(start) && p.readings == Readings(clock, closings)
    requires Forward(clock) && IsSchedule(start, closings)
    ensures p.connection && p.lost == multiset{} && p.enqueued == multiset(p.queue) + p.fetched
  {
    ForwardKeepsFlag(clock, start, closings);
  }
}
