/** The data-bus cursor of src/transport/msg_providers/onchain_transport.py: which logs a run of
    polls delivers, over a fixed set of matching logs and any pattern of failing calls. */
module OnchainCursor {
  import opened Selection
  import opened Wrappers

  datatype Log = Log(block: nat, data: int)

  /** The answers one poll meets: the head, the guardian list and the logs may each fail to come. */
  datatype Poll = Poll(head: Option<nat>, guardiansRead: bool, logsRead: bool)

  datatype FetchError = FetchError

  const STANDARD_OFFSET := 256
  const UNSET := -1

  /** The matching logs of blocks from..to, in chain order. */
  function InRange(logs: seq<Log>, from: int, to: int): seq<Log> {
    if logs == [] then []
    else (if from <= logs[0].block <= to then [logs[0]] else []) + InRange(logs[1..], from, to)
  }

  function FromBlock(cursor: int, head: nat): int {
    if cursor != UNSET then cursor
    else if head > STANDARD_OFFSET then head - STANDARD_OFFSET
    else 0
  }

  /** The poll gets as far as a `get_logs` call that answers. */
  predicate Reads(cursor: int, p: Poll) {
    p.head.Some? && FromBlock(cursor, p.head.value) != p.head.value && p.guardiansRead && p.logsRead
  }

  function Fetched(logs: seq<Log>, cursor: int, p: Poll): seq<Log> {
    if Reads(cursor, p) then InRange(logs, FromBlock(cursor, p.head.value), p.head.value) else []
  }

  /** The cursor moves to the head only when a fetch brought something. */
  function Next(logs: seq<Log>, cursor: int, p: Poll): (next: int)
    ensures cursor >= UNSET ==> next >= UNSET
  {
    if Fetched(logs, cursor, p) != [] then p.head.value else cursor
  }

  class OnchainTransportProvider {
    /** The matching logs of the chain. */
    const logs: seq<Log>
    var latestBlock: int
    /** Every poll so far, and every log they returned. */
    ghost var polls: seq<Poll>
    ghost var delivered: seq<Log>

    ghost predicate Valid()
      reads this
    {
      latestBlock == CursorAfter(logs, polls) && delivered == Delivered(logs, polls)
    }

    constructor (logs: seq<Log>)
      ensures Valid() && this.logs == logs && latestBlock == UNSET && polls == [] && delivered == []
    {
      this.logs := logs;
      latestBlock, polls, delivered := UNSET, [], [];
    }

    /** `_fetch_messages`; an unread head or guardian list is an exception that leaves the call. */
    method FetchMessages(p: Poll) returns (r: Result<seq<Log>, FetchError>)
      requires Valid()
      modifies this
      ensures Valid() && polls == old(polls) + [p]
      ensures delivered == old(delivered) + if r.Ok? then r.value else []
      ensures r.Err? <==>
              p.head.None? || (FromBlock(old(latestBlock), p.head.value) != p.head.value && !p.guardiansRead)
      ensures r.Ok? ==> r.value == Fetched(logs, old(latestBlock), p)
      ensures latestBlock == Next(logs, old(latestBlock), p)
    {
      assert (polls + [p])[..|polls|] == polls;
      polls := polls + [p];
      delivered := delivered + Fetched(logs, latestBlock, p);
      if p.head.None? {
        return Err(FetchError.FetchError);
      }
      var head := p.head.value;
      var from := FromBlock(latestBlock, head);
      if from == head {
        return Ok([]);
      }
      if !p.guardiansRead {
        return Err(FetchError.FetchError);
      }
      if !p.logsRead {
        return Ok([]);
      }
      var found := InRange(logs, from, head);
      if found != [] {
        latestBlock := head;
      }
      r := Ok(found);
    }
  }

  // ------------------------------------------------------------------
  // Whole runs
  // ------------------------------------------------------------------

  function CursorAfter(logs: seq<Log>, polls: seq<Poll>): (c: int)
    ensures c >= UNSET
    decreases |polls|
  {
    if polls == [] then UNSET
    else Next(logs, CursorAfter(logs, polls[..|polls| - 1]), polls[|polls| - 1])
  }

  function Delivered(logs: seq<Log>, polls: seq<Poll>): seq<Log>
    decreases |polls|
  {
    if polls == [] then []
    else
      var n := |polls| - 1;
      Delivered(logs, polls[..n]) + Fetched(logs, CursorAfter(logs, polls[..n]), polls[n])
  }

  /** Every value the cursor has had. */
  function CursorValues(logs: seq<Log>, polls: seq<Poll>): set<int>
    decreases |polls|
  {
    if polls == [] then {}
    else CursorValues(logs, polls[..|polls| - 1]) + {CursorAfter(logs, polls)}
  }

  /** The block at which the first non-empty fetch started. */
  function Start(logs: seq<Log>, polls: seq<Poll>): int
    requires CursorAfter(logs, polls) != UNSET
    decreases |polls|
  {
    var n := |polls| - 1;
    if CursorAfter(logs, polls[..n]) == UNSET then FromBlock(UNSET, polls[n].head.value)
    else Start(logs, polls[..n])
  }

  lemma {:induction false} InRangeCount(logs: seq<Log>, from: int, to: int, l: Log)
    ensures multiset(InRange(logs, from, to))[l] == if from <= l.block <= to then multiset(logs)[l] else 0
  {
    if logs != [] {
      InRangeCount(logs[1..], from, to, l);
      assert logs == [logs[0]] + logs[1..];
    }
  }

  /** A fetch brings exactly the logs of its blocks, in chain order and as often as they occur. */
  lemma {:induction false} InRangeInOrder(logs: seq<Log>, from: int, to: int, keep: Log -> bool) returns (at: seq<nat>)
    requires forall l :: keep(l) <==> from <= l.block <= to
    ensures Selects(logs, InRange(logs, from, to), keep, at)
  {
    if logs == [] {
      at := [];
    } else {
      at := InRangeInOrder(logs[1..], from, to, keep);
      at := SelectsCons(logs, InRange(logs[1..], from, to), keep, at);
    }
  }

  lemma {:induction false} NothingYet(logs: seq<Log>, polls: seq<Poll>)
    requires CursorAfter(logs, polls) == UNSET
    ensures Delivered(logs, polls) == []
    decreases |polls|
  {
    if polls != [] {
      var n := |polls| - 1;
      assert Fetched(logs, CursorAfter(logs, polls[..n]), polls[n]) == [];
      NothingYet(logs, polls[..n]);
    }
  }

  /** The cursor is the largest of its values, and never behind the start. */
  lemma {:induction false} CursorIsLatest(logs: seq<Log>, polls: seq<Poll>)
    requires CursorAfter(logs, polls) != UNSET
    ensures 0 <= Start(logs, polls) <= CursorAfter(logs, polls)
    ensures CursorAfter(logs, polls) in CursorValues(logs, polls)
    ensures forall c :: c in CursorValues(logs, polls) ==> c <= CursorAfter(logs, polls)
    decreases |polls|
  {
    var n := |polls| - 1;
    var before := CursorAfter(logs, polls[..n]);
    if before != UNSET {
      CursorIsLatest(logs, polls[..n]);
      AdvancesForward(logs, before, polls[n]);
    } else {
      OnlyUnset(logs, polls[..n]);
    }
  }

  lemma {:induction false} OnlyUnset(logs: seq<Log>, polls: seq<Poll>)
    requires CursorAfter(logs, polls) == UNSET
    ensures CursorValues(logs, polls) <= {UNSET}
    decreases |polls|
  {
    if polls != [] {
      assert CursorAfter(logs, polls[..|polls| - 1]) == UNSET;
      OnlyUnset(logs, polls[..|polls| - 1]);
    }
  }

  lemma {:induction false} EmptyRange(logs: seq<Log>, from: int, to: int)
    requires from > to
    ensures InRange(logs, from, to) == []
  {
    if logs != [] {
      EmptyRange(logs[1..], from, to);
    }
  }

  /** A non-empty fetch ends strictly after the cursor it started from, even if heads go back. */
  lemma AdvancesForward(logs: seq<Log>, cursor: int, p: Poll)
    requires cursor >= 0
    ensures Fetched(logs, cursor, p) != [] ==> p.head.value > cursor
    ensures Next(logs, cursor, p) >= cursor
  {
    if Reads(cursor, p) && p.head.value < cursor {
      EmptyRange(logs, cursor, p.head.value);
    }
  }

  /** How often a log of block b, listed m times, is delivered when the fetches started at f, the
      cursor is c and has had the given values: twice when b is a value already left behind. */
  function Times(f: int, c: int, values: set<int>, b: int, m: nat): nat {
    if b < f || b > c then 0
    else if b in values && b < c then 2 * m
    else m
  }

  lemma TimesStep(f: int, c: int, h: int, values: set<int>, b: int, m: nat)
    requires f <= c < h && c in values && forall v :: v in values ==> v <= c
    ensures Times(f, h, values + {h}, b, m) == Times(f, c, values, b, m) + if c <= b <= h then m else 0
  {
  }

  /** Exact delivery. Once the first fetch has started at block f, the delivered logs are those of
      blocks f..cursor, each once, but twice when its block is a cursor value already left behind. */
  lemma {:induction false} DeliveredCount(logs: seq<Log>, polls: seq<Poll>, l: Log)
    requires CursorAfter(logs, polls) != UNSET
    ensures multiset(Delivered(logs, polls))[l] ==
            Times(Start(logs, polls), CursorAfter(logs, polls), CursorValues(logs, polls), l.block, multiset(logs)[l])
    decreases |polls|
  {
    var n := |polls| - 1;
    var init, p := polls[..n], polls[n];
    var before := CursorAfter(logs, init);
    if before == UNSET {
      FirstDelivery(logs, polls, l);
    } else {
      DeliveredCount(logs, init, l);
      CursorIsLatest(logs, init);
      AdvancesForward(logs, before, p);
      var after := CursorAfter(logs, polls);
      if Fetched(logs, before, p) != [] {
        InRangeCount(logs, before, after, l);
        TimesStep(Start(logs, init), before, after, CursorValues(logs, init), l.block, multiset(logs)[l]);
      } else {
        assert CursorValues(logs, polls) == CursorValues(logs, init);
      }
    }
  }

  lemma FirstDelivery(logs: seq<Log>, polls: seq<Poll>, l: Log)
    requires polls != [] && CursorAfter(logs, polls) != UNSET
    requires CursorAfter(logs, polls[..|polls| - 1]) == UNSET
    ensures multiset(Delivered(logs, polls))[l] ==
            Times(Start(logs, polls), CursorAfter(logs, polls), CursorValues(logs, polls), l.block, multiset(logs)[l])
  {
    var init, p := polls[..|polls| - 1], polls[|polls| - 1];
    NothingYet(logs, init);
    OnlyUnset(logs, init);
    var h := p.head.value;
    var f := FromBlock(UNSET, h);
    assert Start(logs, polls) == f && CursorAfter(logs, polls) == h;
    assert l.block in CursorValues(logs, polls) ==> l.block == h;
    assert Delivered(logs, polls) == InRange(logs, f, h);
    InRangeCount(logs, f, h, l);
  }

  /** Hence the delivered set is exactly the matching logs of blocks f..cursor. */
  lemma DeliveredExactly(logs: seq<Log>, polls: seq<Poll>, l: Log)
    requires CursorAfter(logs, polls) != UNSET
    ensures l in Delivered(logs, polls) <==> l in logs && Start(logs, polls) <= l.block <= CursorAfter(logs, polls)
  {
    DeliveredCount(logs, polls, l);
    assert l in Delivered(logs, polls) <==> multiset(Delivered(logs, polls))[l] > 0;
    assert l in logs <==> multiset(logs)[l] > 0;
  }

  /** A poll that succeeds at head h leaves nothing of f..h behind, wherever the cursor rests. */
  lemma CaughtUp(logs: seq<Log>, polls: seq<Poll>, p: Poll, l: Log)
    requires CursorAfter(logs, polls + [p]) != UNSET
    requires p.head.Some? && p.guardiansRead && p.logsRead
    requires l in logs && Start(logs, polls + [p]) <= l.block <= p.head.value
    ensures l in Delivered(logs, polls + [p])
  {
    var all := polls + [p];
    assert all[..|polls|] == polls;
    DeliveredExactly(logs, all, l);
    InRangeCount(logs, FromBlock(CursorAfter(logs, polls), p.head.value), p.head.value, l);
    assert multiset(logs)[l] > 0;
  }

  /** The first block of the first fetch, when the head is h. */
  function Window(h: nat): nat {
    if h < 256 then 0 else h - 256
  }

  /** The first fetch that brings something starts 256 blocks below its head, or at the first block of the chain. */
  lemma {:induction false} StartMeaning(logs: seq<Log>, polls: seq<Poll>) returns (n: nat)
    requires CursorAfter(logs, polls) != UNSET
    ensures n < |polls| && CursorAfter(logs, polls[..n]) == UNSET && polls[n].head.Some?
    ensures CursorAfter(logs, polls[..n + 1]) == polls[n].head.value
    ensures Start(logs, polls) == Window(polls[n].head.value)
    decreases |polls|
  {
    n := |polls| - 1;
    if CursorAfter(logs, polls[..n]) != UNSET {
      var init := polls[..n];
      n := StartMeaning(logs, init);
      assert init[..n] == polls[..n] && init[..n + 1] == polls[..n + 1];
    } else {
      assert polls[..n + 1] == polls;
    }
  }

  // ------------------------------------------------------------------
  // Before the first delivery
  // ------------------------------------------------------------------

  /** The heads of the successful polls made while the cursor was unset, the delivering one included. */
  function InitialHeads(logs: seq<Log>, polls: seq<Poll>): seq<nat>
    decreases |polls|
  {
    if polls == [] then []
    else
      var n := |polls| - 1;
      var c := CursorAfter(logs, polls[..n]);
      InitialHeads(logs, polls[..n]) +
      if c == UNSET && Reads(c, polls[n]) then [polls[n].head.value] else []
  }

  /** Successive heads do not go back and are at most one window and one block apart. */
  ghost predicate GapFree(heads: seq<nat>) {
    forall i :: 0 < i < |heads| ==> heads[i - 1] <= heads[i] <= heads[i - 1] + 257
  }

  lemma GapFreeInit(heads: seq<nat>, h: nat)
    requires GapFree(heads + [h])
    ensures GapFree(heads)
    ensures heads != [] ==> heads[|heads| - 1] <= h <= heads[|heads| - 1] + 257
  {
    var all := heads + [h];
    assert forall i :: 0 <= i < |heads| ==> heads[i] == all[i];
    assert heads != [] ==> all[|heads|] == h;
  }

  /** No matching log lies in the blocks the polls at these heads have looked at. */
  ghost predicate Quiet(heads: seq<nat>, b: int) {
    heads != [] ==> b < Window(heads[0]) || b > heads[|heads| - 1]
  }

  lemma QuietSnoc(heads: seq<nat>, h: nat, b: int)
    requires Quiet(heads, b) && (b < Window(h) || b > h)
    requires heads != [] ==> heads[|heads| - 1] <= h <= heads[|heads| - 1] + 257
    ensures Quiet(heads + [h], b)
  {
  }

  /** While the cursor is unset and heads stay close, no matching log lies in any block seen so far. */
  lemma {:induction false} QuietSoFar(logs: seq<Log>, polls: seq<Poll>, l: Log)
    requires CursorAfter(logs, polls) == UNSET && GapFree(InitialHeads(logs, polls))
    requires l in logs
    ensures Quiet(InitialHeads(logs, polls), l.block)
    decreases |polls|
  {
    if polls != [] {
      var n := |polls| - 1;
      var init, p := polls[..n], polls[n];
      var before := InitialHeads(logs, init);
      assert CursorAfter(logs, init) == UNSET;
      if Reads(UNSET, p) {
        var h := p.head.value;
        assert InitialHeads(logs, polls) == before + [h];
        GapFreeInit(before, h);
        QuietSoFar(logs, init, l);
        InRangeCount(logs, FromBlock(UNSET, h), h, l);
        assert multiset(logs)[l] > 0;
        QuietSnoc(before, h, l.block);
      } else {
        assert InitialHeads(logs, polls) == before;
        QuietSoFar(logs, init, l);
      }
    }
  }

  /** With initial heads at most 257 blocks apart, nothing is lost before the first delivery
      either: every matching log from the first window on has been delivered. */
  lemma NothingSkipped(logs: seq<Log>, polls: seq<Poll>, l: Log)
    requires CursorAfter(logs, polls) != UNSET && GapFree(InitialHeads(logs, polls))
    requires l in logs
    ensures InitialHeads(logs, polls) != []
    ensures Window(InitialHeads(logs, polls)[0]) <= l.block <= CursorAfter(logs, polls) ==> l in Delivered(logs, polls)
  {
    StartIsFirst(logs, polls, l);
    DeliveredExactly(logs, polls, l);
  }

  lemma {:induction false} StartIsFirst(logs: seq<Log>, polls: seq<Poll>, l: Log)
    requires CursorAfter(logs, polls) != UNSET && GapFree(InitialHeads(logs, polls))
    requires l in logs
    ensures InitialHeads(logs, polls) != []
    ensures l.block < Window(InitialHeads(logs, polls)[0]) || l.block >= Start(logs, polls)
    decreases |polls|
  {
    var n := |polls| - 1;
    var init, p := polls[..n], polls[n];
    var before := InitialHeads(logs, init);
    if CursorAfter(logs, init) == UNSET {
      var h := p.head.value;
      assert InitialHeads(logs, polls) == before + [h];
      GapFreeInit(before, h);
      QuietSoFar(logs, init, l);
    } else {
      assert InitialHeads(logs, polls) == before;
      StartIsFirst(logs, init, l);
    }
  }

  lemma StartStep(logs: seq<Log>, run: seq<Poll>)
    requires run != [] && CursorAfter(logs, run[..|run| - 1]) != UNSET
    ensures CursorAfter(logs, run) != UNSET && Start(logs, run) == Start(logs, run[..|run| - 1])
  {
    CursorIsLatest(logs, run[..|run| - 1]);
    AdvancesForward(logs, CursorAfter(logs, run[..|run| - 1]), run[|run| - 1]);
  }

  /** Once set, the start never changes. */
  lemma {:induction false} StartStays(logs: seq<Log>, run: seq<Poll>, n: nat)
    requires n <= |run| && CursorAfter(logs, run[..n]) != UNSET
    ensures CursorAfter(logs, run) != UNSET && Start(logs, run) == Start(logs, run[..n])
    decreases |run|
  {
    if n < |run| {
      var init := run[..|run| - 1];
      assert init[..n] == run[..n];
      StartStays(logs, init, n);
      StartStep(logs, run);
    } else {
      assert run[..n] == run;
    }
  }

  // ------------------------------------------------------------------
  // The exact bound on the gaps between heads
  // ------------------------------------------------------------------

  /** The poll would fetch something to look at while the cursor is unset. */
  predicate Answered(p: Poll) {
    p.head.Some? && p.head.value > 0 && p.guardiansRead && p.logsRead
  }

  /** The heads of the polls that answer, in order; failed calls between them leave no trace. */
  function Heads(polls: seq<Poll>): seq<nat>
    decreases |polls|
  {
    if polls == [] then []
    else
      var p := polls[|polls| - 1];
      Heads(polls[..|polls| - 1]) + if Answered(p) then [p.head.value] else []
  }

  /** The initial heads are the first of them. */
  lemma {:induction false} InitialFirst(logs: seq<Log>, polls: seq<Poll>)
    ensures InitialHeads(logs, polls) <= Heads(polls)
    ensures CursorAfter(logs, polls) == UNSET ==> InitialHeads(logs, polls) == Heads(polls)
    decreases |polls|
  {
    if polls != [] {
      var n := |polls| - 1;
      InitialFirst(logs, polls[..n]);
      assert CursorAfter(logs, polls[..n]) == UNSET ==> (Reads(UNSET, polls[n]) <==> Answered(polls[n]));
    }
  }

  lemma GapFreePrefix(some: seq<nat>, all: seq<nat>)
    requires some <= all && GapFree(all)
    ensures GapFree(some)
  {
    assert forall i :: 0 <= i < |some| ==> some[i] == all[i];
  }

  /** The run of polls delivers log l, unless it delivers nothing or l lies outside the blocks from the first
      window to the cursor. */
  ghost predicate LosesNothing(logs: seq<Log>, polls: seq<Poll>, l: Log) {
    l in logs && CursorAfter(logs, polls) != UNSET && Heads(polls) != []
    && Window(Heads(polls)[0]) <= l.block <= CursorAfter(logs, polls) ==>
      l in Delivered(logs, polls)
  }

  /** The poll that meets the i-th head. */
  lemma {:induction false} HeadPosition(polls: seq<Poll>, i: nat) returns (n: nat)
    requires i < |Heads(polls)|
    ensures n < |polls| && Answered(polls[n]) && polls[n].head.value == Heads(polls)[i]
    ensures |Heads(polls[..n])| == i && Heads(polls[..n]) <= Heads(polls)
    decreases |polls|
  {
    var k := |polls| - 1;
    if i < |Heads(polls[..k])| {
      n := HeadPosition(polls[..k], i);
      assert polls[..k][..n] == polls[..n];
    } else {
      n := k;
    }
  }

  /** Logs above all heads met so far are not fetched. */
  lemma {:induction false} StillUnset(logs: seq<Log>, polls: seq<Poll>, h: nat)
    requires forall i :: 0 <= i < |Heads(polls)| ==> Heads(polls)[i] <= h
    requires forall l :: l in logs ==> l.block > h
    ensures CursorAfter(logs, polls) == UNSET
    decreases |polls|
  {
    if polls != [] {
      var init, p := polls[..|polls| - 1], polls[|polls| - 1];
      assert forall i :: 0 <= i < |Heads(init)| ==> Heads(init)[i] == Heads(polls)[i];
      StillUnset(logs, init, h);
      if Reads(UNSET, p) {
        assert Heads(polls)[|Heads(init)|] == p.head.value;
        NothingBelow(logs, FromBlock(UNSET, p.head.value), p.head.value);
      }
    }
  }

  lemma {:induction false} NothingBelow(logs: seq<Log>, from: int, to: int)
    requires forall l :: l in logs ==> l.block > to
    ensures InRange(logs, from, to) == []
  {
    if logs != [] {
      assert logs[0] in logs && forall l :: l in logs[1..] ==> l in logs;
      NothingBelow(logs[1..], from, to);
    }
  }

  /** There are more than 257 blocks between head i - 1 and head i, and no earlier head is above the former. */
  ghost predicate WideGap(heads: seq<nat>, i: nat) {
    && 0 < i < |heads| && heads[i] > heads[i - 1] + 257
    && forall j :: 0 <= j < i ==> heads[j] <= heads[i - 1]
  }

  /** A wide gap loses every log of the block after the lower head for good, however the run goes on, when the
      higher head holds the only other logs. */
  lemma WideGapLoses(polls: seq<Poll>, i: nat, logs: seq<Log>, lost: Log)
    requires WideGap(Heads(polls), i) && lost.block == Heads(polls)[i - 1] + 1
    requires Log(Heads(polls)[i], 0) in logs && forall l :: l in logs ==> l.block > Heads(polls)[i - 1]
    ensures CursorAfter(logs, polls) != UNSET && lost.block <= CursorAfter(logs, polls)
    ensures lost !in Delivered(logs, polls)
  {
    var n := HeadPosition(polls, i);
    assert forall j :: 0 <= j < i ==> Heads(polls[..n])[j] == Heads(polls)[j];
    StillUnset(logs, polls[..n], Heads(polls)[i - 1]);
    FirstFetch(logs, polls, n);
    StartKnown(logs, polls, n, lost);
  }

  lemma StartKnown(logs: seq<Log>, polls: seq<Poll>, n: nat, lost: Log)
    requires n < |polls| && CursorAfter(logs, polls[..n + 1]) != UNSET
    requires lost.block < Start(logs, polls[..n + 1])
    ensures CursorAfter(logs, polls) != UNSET && lost.block < CursorAfter(logs, polls)
    ensures lost !in Delivered(logs, polls)
  {
    StartStays(logs, polls, n + 1);
    CursorIsLatest(logs, polls);
    DeliveredExactly(logs, polls, lost);
  }

  /** The first poll that finds a log at its own head sets the start. */
  lemma FirstFetch(logs: seq<Log>, polls: seq<Poll>, n: nat)
    requires n < |polls| && CursorAfter(logs, polls[..n]) == UNSET && Answered(polls[n])
    requires Log(polls[n].head.value, 0) in logs
    ensures CursorAfter(logs, polls[..n + 1]) == polls[n].head.value
    ensures Start(logs, polls[..n + 1]) == Window(polls[n].head.value)
  {
    var h := polls[n].head.value;
    assert polls[..n + 1][..n] == polls[..n];
    InRangeCount(logs, FromBlock(UNSET, h), h, Log(h, 0));
    assert multiset(logs)[Log(h, 0)] > 0;
    assert InRange(logs, FromBlock(UNSET, h), h) != [];
  }

  /** The two logs that show it. */
  lemma TwoLogs(h: nat, h': nat) returns (logs: seq<Log>, l: Log)
    requires h' > h + 1
    ensures l == Log(h + 1, 0) && l in logs && Log(h', 0) in logs && forall x :: x in logs ==> x.block > h
  {
    l := Log(h + 1, 0);
    logs := [l, Log(h', 0)];
    assert logs[0] in logs && logs[1] in logs;
  }

  lemma WideGapFails(polls: seq<Poll>, i: nat) returns (logs: seq<Log>, l: Log)
    requires WideGap(Heads(polls), i)
    ensures !LosesNothing(logs, polls, l)
  {
    var h := Heads(polls)[i - 1];
    logs, l := TwoLogs(h, Heads(polls)[i]);
    WideGapLoses(polls, i, logs, l);
    assert Heads(polls)[0] <= h;
  }

  /** A sequence that does not go back has a wide gap unless it is free of them. */
  lemma SomeWideGap(heads: seq<nat>) returns (i: nat)
    requires !GapFree(heads) && forall i, j :: 0 <= i < j < |heads| ==> heads[i] <= heads[j]
    ensures WideGap(heads, i)
  {
    i :| 0 < i < |heads| && !(heads[i - 1] <= heads[i] <= heads[i - 1] + 257);
  }

  /** The exact bound: a run of polls whose answered heads do not go back loses nothing, whatever the logs
      are, exactly when successive answered heads are at most 257 blocks apart. */
  lemma LossFreeIff(polls: seq<Poll>)
    requires forall i, j :: 0 <= i < j < |Heads(polls)| ==> Heads(polls)[i] <= Heads(polls)[j]
    ensures (forall logs: seq<Log>, l: Log :: LosesNothing(logs, polls, l)) <==> GapFree(Heads(polls))
  {
    if GapFree(Heads(polls)) {
      forall logs: seq<Log>, l: Log
        ensures LosesNothing(logs, polls, l)
      {
        CloseHeadsLoseNothing(logs, polls, l);
      }
    } else {
      var i := SomeWideGap(Heads(polls));
      var logs, l := WideGapFails(polls, i);
    }
  }

  lemma CloseHeadsLoseNothing(logs: seq<Log>, polls: seq<Poll>, l: Log)
    requires GapFree(Heads(polls))
    ensures LosesNothing(logs, polls, l)
  {
    if CursorAfter(logs, polls) != UNSET && l in logs {
      InitialFirst(logs, polls);
      GapFreePrefix(InitialHeads(logs, polls), Heads(polls));
      NothingSkipped(logs, polls, l);
    }
  }
}
