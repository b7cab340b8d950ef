/** The scheduler of src/blockchain/executor.py: the polling wait for the next block, and the
    distance between executions. */
module Executor {
  import opened Wrappers

  const SLOT_TIME := 12

  /** What can go wrong when the head is read. */
  datatype Fault = NoFault | RpcFails | NoActiveProvider

  /** The chain over time: its head block and the fault met by a read at each moment. */
  datatype Chain = Chain(head: real -> int, fault: real -> Fault)

  datatype Wait = Got(block: int, at: real) | Failed | NoProvider | TimedOut

  /** The seconds slept when the head is `head`. */
  function SleepTime(target: int, head: int): (s: int)
    requires head < target
    ensures s >= 5
  {
    var s := (target - head - 1) * SLOT_TIME;
    if s == 0 then 5 else s
  }

  /** The polling loop from time t on; the alarm at `deadline` interrupts a sleep. */
  function Poll(c: Chain, target: int, t: real, deadline: real): Wait
    decreases deadline - t
  {
    match c.fault(t)
    case RpcFails => Failed
    case NoActiveProvider => NoProvider
    case NoFault =>
      if c.head(t) >= target then Got(c.head(t), t)
      else
        var next := t + SleepTime(target, c.head(t)) as real;
        if next >= deadline then TimedOut else Poll(c, target, next, deadline)
  }

  /** The timeout in seconds: at least 32 slots, and four slots a block between executions. */
  function WaitLimit(blocksBetween: int): int {
    if blocksBetween * SLOT_TIME * 4 > 32 * SLOT_TIME then blocksBetween * SLOT_TIME * 4 else 32 * SLOT_TIME
  }

  // ------------------------------------------------------------------
  // Timing
  // ------------------------------------------------------------------

  /** Of the blocks that appear within a time span, all but the first take twelve seconds each. */
  ghost predicate AtMostOneASlot(c: Chain) {
    forall s, t :: s < t ==> SlotsApart(c, s, t)
  }

  ghost predicate SlotsApart(c: Chain, s: real, t: real) {
    (c.head(t) - c.head(s) - 1) as real * 12.0 < t - s
  }

  /** Heads do not go back, and a new block comes within every span of `gap` seconds. */
  ghost predicate BlocksWithin(c: Chain, gap: real) {
    && (forall s, t :: s <= t ==> c.head(s) <= c.head(t))
    && (forall s :: c.head(s + gap) >= c.head(s) + 1)
  }

  /** A sleep longer than a poll ends before the target block appears. */
  lemma LongSleepStaysBehind(c: Chain, target: int, t: real)
    requires AtMostOneASlot(c) && c.head(t) < target - 1
    ensures c.head(t + SleepTime(target, c.head(t)) as real) < target
  {
    var h := c.head(t);
    var next := t + SleepTime(target, h) as real;
    assert SlotsApart(c, t, next);
    assert next - t == (target - h - 1) as real * 12.0;
  }

  /** A sleep that ends with the target there was a poll of five seconds for the next block. */
  lemma ArrivedAfterPoll(c: Chain, target: int, t: real)
    requires AtMostOneASlot(c) && c.head(t) < target
    requires c.head(t + SleepTime(target, c.head(t)) as real) >= target
    ensures c.head(t) == target - 1 && SleepTime(target, c.head(t)) == 5
  {
    if c.head(t) < target - 1 {
      LongSleepStaysBehind(c, target, t);
    }
  }

  /** Five seconds are too short for two blocks. */
  lemma PollMissesNothing(c: Chain, target: int, t: real)
    requires AtMostOneASlot(c) && c.head(t) == target - 1
    ensures c.head(t + 5.0) <= target
  {
    assert SlotsApart(c, t, t + 5.0);
  }

  /** One turn of the polling loop that finds the head behind. */
  lemma PollStep(c: Chain, target: int, t: real, deadline: real)
    requires c.head(t) < target
    ensures var next := t + SleepTime(target, c.head(t)) as real;
            Poll(c, target, t, deadline) ==
            match c.fault(t)
            case RpcFails => Failed
            case NoActiveProvider => NoProvider
            case NoFault => if next >= deadline then TimedOut else Poll(c, target, next, deadline)
  {
  }

  lemma PollFinds(c: Chain, target: int, t: real, deadline: real)
    requires c.head(t) >= target
    ensures Poll(c, target, t, deadline).Got? ==> Poll(c, target, t, deadline) == Got(c.head(t), t)
  {
  }

  /** The pause before the next read: twelve seconds for every block that must appear before the target, or five when
      the target is the next block. */
  function Pause(behind: int): real {
    if behind == 1 then 5.0 else 12.0 * (behind - 1) as real
  }

  /** A read at s that meets no fault and finds the head behind the target is followed by one at s'. */
  predicate FollowedBy(c: Chain, target: int, deadline: real, s: real, s': real) {
    c.fault(s).NoFault? && c.head(s) < target && s' == s + Pause(target - c.head(s)) && s' < deadline
  }

  /** The moments at which one wait reads the head. */
  ghost predicate AreReadAt(c: Chain, target: int, t: real, deadline: real, moments: seq<real>) {
    && moments != [] && moments[0] == t
    && forall i, j {:trigger moments[i], moments[j]} ::
         0 <= i < |moments| - 1 && j == i + 1 ==> FollowedBy(c, target, deadline, moments[i], moments[j])
  }

  lemma ReadBefore(c: Chain, target: int, t: real, deadline: real, next: real, rest: seq<real>)
    requires FollowedBy(c, target, deadline, t, next) && AreReadAt(c, target, next, deadline, rest)
    ensures AreReadAt(c, target, t, deadline, [t] + rest)
  {
    var all := [t] + rest;
    forall i, j | 0 <= i < |all| - 1 && j == i + 1
      ensures FollowedBy(c, target, deadline, all[i], all[j])
    {
      assert all[j] == rest[i];
      assert i > 0 ==> all[i] == rest[i - 1];
    }
  }

  /** How a wait ends is decided by its last read: a fault is passed on, a head that is due is returned, and a pause
      that reaches the alarm is a timeout. */
  lemma {:induction false} PollMeaning(c: Chain, target: int, t: real, deadline: real) returns (moments: seq<real>)
    ensures AreReadAt(c, target, t, deadline, moments)
    ensures var last, r := moments[|moments| - 1], Poll(c, target, t, deadline);
            && (r.Failed? <==> c.fault(last).RpcFails?)
            && (r.NoProvider? <==> c.fault(last).NoActiveProvider?)
            && (r.Got? <==> c.fault(last).NoFault? && c.head(last) >= target)
            && (r.Got? ==> r == Got(c.head(last), last))
            && (r.TimedOut? ==> last + Pause(target - c.head(last)) >= deadline)
    decreases deadline - t
  {
    moments := [t];
    if c.fault(t).NoFault? && c.head(t) < target {
      var next := t + SleepTime(target, c.head(t)) as real;
      if next < deadline {
        var rest := PollMeaning(c, target, next, deadline);
        ReadBefore(c, target, t, deadline, next, rest);
        moments := [t] + rest;
      }
    }
  }

  /** The target block itself was returned, at most five seconds after the last moment the head was
      still behind. */
  ghost predicate OnTime(c: Chain, target: int, t: real, deadline: real, r: Wait) {
    r.Got? ==> r.block == target && t + 5.0 <= r.at < deadline && c.head(r.at - 5.0) == target - 1
  }

  /** A poll after a wait of five seconds for the next block. */
  lemma PollOnTime(c: Chain, target: int, t: real, deadline: real)
    requires AtMostOneASlot(c) && c.head(t) == target - 1
    requires t + 5.0 < deadline && c.head(t + 5.0) >= target
    ensures OnTime(c, target, t, deadline, Poll(c, target, t + 5.0, deadline))
  {
    PollMissesNothing(c, target, t);
    PollFinds(c, target, t + 5.0, deadline);
    assert (t + 5.0) - 5.0 == t;
  }

  /** With at most one block a slot, a wait that starts behind its target never overshoots. */
  lemma {:induction false} NeverOvershoots(c: Chain, target: int, t: real, deadline: real)
    requires AtMostOneASlot(c) && c.head(t) < target
    ensures OnTime(c, target, t, deadline, Poll(c, target, t, deadline))
    decreases deadline - t
  {
    var next := t + SleepTime(target, c.head(t)) as real;
    PollStep(c, target, t, deadline);
    if c.fault(t).NoFault? && next < deadline {
      if c.head(next) >= target {
        ArrivedAfterPoll(c, target, t);
        PollOnTime(c, target, t, deadline);
      } else {
        NeverOvershoots(c, target, next, deadline);
      }
    }
  }

  lemma {:induction false} HeadAfter(c: Chain, gap: real, t: real, k: nat)
    requires BlocksWithin(c, gap)
    ensures c.head(t + gap * k as real) >= c.head(t) + k
  {
    if k == 0 {
      assert t + gap * 0.0 == t;
    } else {
      HeadAfter(c, gap, t, k - 1);
      var s := t + gap * (k - 1) as real;
      assert gap * k as real == gap * (k - 1) as real + gap;
      assert c.head(s + gap) >= c.head(s) + 1;
    }
  }

  /** A wait whose target has appeared by `arrival` ends within five seconds of it. */
  lemma {:induction false} EndsAfterArrival(c: Chain, target: int, t: real, arrival: real, deadline: real)
    requires AtMostOneASlot(c) && forall s :: c.fault(s).NoFault?
    requires t <= arrival + 5.0 && arrival + 5.0 < deadline
    requires forall s :: s >= arrival ==> c.head(s) >= target
    ensures var r := Poll(c, target, t, deadline);
            r.Got? && r.at <= arrival + 5.0
    decreases deadline - t
  {
    if c.head(t) < target {
      assert t < arrival;
      var next := t + SleepTime(target, c.head(t)) as real;
      if c.head(t) < target - 1 {
        LongSleepStaysBehind(c, target, t);
        assert next < arrival;
      }
      EndsAfterArrival(c, target, next, arrival, deadline);
    }
  }

  /** When a block comes at least every `gap` seconds, a wait for a block at most k ahead that meets no
      fault ends in time, provided k gaps and one poll fit in the limit. */
  lemma EndsInTime(c: Chain, target: int, t: real, gap: real, k: nat, limit: real)
    requires AtMostOneASlot(c) && BlocksWithin(c, gap) && forall s :: c.fault(s).NoFault?
    requires target <= c.head(t) + k && gap * k as real + 5.0 < limit && gap >= 0.0
    ensures var r := Poll(c, target, t, t + limit);
            r.Got? && r.at <= t + gap * k as real + 5.0
  {
    var arrival := t + gap * k as real;
    HeadAfter(c, gap, t, k);
    assert gap * k as real >= 0.0;
    EndsAfterArrival(c, target, t, arrival, t + limit);
  }

  /** The executor's own limit suffices for every number of blocks between executions, as long as
      blocks come at least every 47 seconds, four slots less one second. */
  lemma LimitSuffices(c: Chain, target: int, t: real, gap: real, blocksBetween: int)
    requires AtMostOneASlot(c) && BlocksWithin(c, gap) && forall s :: c.fault(s).NoFault?
    requires 0.0 <= gap <= 47.0 && blocksBetween >= 0
    requires target <= c.head(t) + blocksBetween
    ensures Poll(c, target, t, t + WaitLimit(blocksBetween) as real).Got?
  {
    var n := blocksBetween as real;
    assert gap * n <= 47.0 * n;
    assert 47.0 * n + 5.0 < WaitLimit(blocksBetween) as real;
    EndsInTime(c, target, t, gap, blocksBetween, WaitLimit(blocksBetween) as real);
  }

  /** The limit of one wait: four slots for every block between executions, and at least 32 slots. */
  function Patience(blocksBetween: int): real {
    if blocksBetween > 8 then 48.0 * blocksBetween as real else 384.0
  }

  /** While the target does not appear, the wait cannot return it. */
  lemma {:induction false} NotBefore(c: Chain, target: int, t: real, deadline: real)
    requires forall s :: c.fault(s).NoFault?
    requires forall s :: s < deadline ==> c.head(s) < target
    requires t < deadline
    ensures Poll(c, target, t, deadline).TimedOut?
    decreases deadline - t
  {
    var next := t + SleepTime(target, c.head(t)) as real;
    if next < deadline {
      NotBefore(c, target, next, deadline);
    }
  }

  /** With no fault, and a target that appears at `arrival` and stays, a wait gives up when that is past its limit,
      and obtains a block when that is more than five seconds before it. */
  lemma LimitIs(c: Chain, target: int, t: real, arrival: real, blocksBetween: int)
    requires AtMostOneASlot(c) && forall s :: c.fault(s).NoFault?
    requires t <= arrival && forall s :: c.head(s) >= target <==> s >= arrival
    ensures var r := Poll(c, target, t, t + WaitLimit(blocksBetween) as real);
            && (arrival >= t + Patience(blocksBetween) ==> r.TimedOut?)
            && (arrival + 5.0 < t + Patience(blocksBetween) ==> r.Got? && arrival <= r.at <= arrival + 5.0)
  {
    var deadline := t + WaitLimit(blocksBetween) as real;
    assert WaitLimit(blocksBetween) as real == Patience(blocksBetween);
    if arrival >= deadline {
      NotBefore(c, target, t, deadline);
    } else if arrival + 5.0 < deadline {
      EndsAfterArrival(c, target, t, arrival, deadline);
      var moments := PollMeaning(c, target, t, deadline);
    }
  }

  // ------------------------------------------------------------------
  // Spacing of executions
  // ------------------------------------------------------------------

  /** How the executed function ends; the last two stop the daemon. */
  datatype Execution = Truthy | Falsy | Raises | Stuck | LostProvider

  /** One completed cycle: the block it obtained, if its wait did not raise, and whether the function
      returned a success code. */
  datatype Cycle = Cycle(block: Option<int>, success: bool)

  function StepOf(n: int, c: Cycle): int {
    if c.success then n else 1
  }

  /** `_next_expected_block` after one cycle. */
  function Next(n: int, next: int, c: Cycle): int {
    (if c.block.Some? then c.block.value else next) + StepOf(n, c)
  }

  function NextAfter(n: int, cycles: seq<Cycle>): int
    decreases |cycles|
  {
    if cycles == [] then 0 else Next(n, NextAfter(n, cycles[..|cycles| - 1]), cycles[|cycles| - 1])
  }

  /** Every wait returned a block that was due. */
  ghost predicate IsRun(n: int, cycles: seq<Cycle>) {
    forall i :: 0 <= i < |cycles| && cycles[i].block.Some? ==> cycles[i].block.value >= NextAfter(n, cycles[..i])
  }

  function Steps(n: int, cycles: seq<Cycle>): int {
    if cycles == [] then 0 else Steps(n, cycles[..|cycles| - 1]) + StepOf(n, cycles[|cycles| - 1])
  }

  lemma {:induction false} NextIsSpaced(n: int, cycles: seq<Cycle>, i: nat)
    requires IsRun(n, cycles) && i < |cycles| && cycles[i].block.Some?
    ensures NextAfter(n, cycles) >= cycles[i].block.value + Steps(n, cycles[i..])
    decreases |cycles|
  {
    var k := |cycles| - 1;
    var init, tail := cycles[..k], cycles[i..];
    assert tail[..|tail| - 1] == cycles[i..k] && tail[|tail| - 1] == cycles[k];
    assert Steps(n, tail) == Steps(n, cycles[i..k]) + StepOf(n, cycles[k]);
    assert NextAfter(n, cycles) == Next(n, NextAfter(n, init), cycles[k]);
    assert cycles[k].block.Some? ==> cycles[k].block.value >= NextAfter(n, init);
    if i < k {
      assert forall j :: 0 <= j < k ==> init[..j] == cycles[..j];
      NextIsSpaced(n, init, i);
      assert init[i..] == cycles[i..k];
    } else {
      assert cycles[i..k] == [];
    }
  }

  /** Over every run, with swallowed exceptions included: two cycles that obtained blocks are at least
      as far apart as the steps taken between them. */
  lemma Spacing(n: int, cycles: seq<Cycle>, i: nat, j: nat)
    requires IsRun(n, cycles) && i < j < |cycles| && cycles[i].block.Some? && cycles[j].block.Some?
    ensures cycles[j].block.value >= cycles[i].block.value + Steps(n, cycles[i..j])
  {
    var upto := cycles[..j];
    assert forall k :: 0 <= k < j ==> upto[..k] == cycles[..k];
    NextIsSpaced(n, upto, i);
    assert upto[i..] == cycles[i..j];
  }

  /** The expected block advances in every cycle, whatever happens in it, exactly when at least one
      block lies between executions. */
  lemma AdvancesIff(n: int)
    ensures (forall next: int, c: Cycle :: (c.block.Some? ==> c.block.value >= next) ==> Next(n, next, c) > next)
            <==> n >= 1
  {
    if n < 1 {
      var c := Cycle(Some(0), true);
      assert c.block.value >= 0 && Next(n, 0, c) <= 0;
    }
  }

  // ------------------------------------------------------------------
  // The executor
  // ------------------------------------------------------------------

  class Executor {
    const blocksBetweenExecution: int
    var nextExpectedBlock: int
    /** Every completed cycle so far. */
    ghost var cycles: seq<Cycle>

    ghost predicate Valid()
      reads this
    {
      IsRun(blocksBetweenExecution, cycles) && nextExpectedBlock == NextAfter(blocksBetweenExecution, cycles)
    }

    constructor (blocksBetweenExecution: int)
      ensures Valid() && cycles == [] && nextExpectedBlock == 0
      ensures this.blocksBetweenExecution == blocksBetweenExecution
    {
      this.blocksBetweenExecution := blocksBetweenExecution;
      nextExpectedBlock := 0;
      cycles := [];
    }

    /** `_wait_until_next_block`, entered at time `now`. */
    method WaitUntilNextBlock(c: Chain, now: real) returns (r: Wait)
      modifies this`nextExpectedBlock
      ensures r == Poll(c, old(nextExpectedBlock), now, now + WaitLimit(blocksBetweenExecution) as real)
      ensures nextExpectedBlock == if r.Got? then r.block else old(nextExpectedBlock)
      ensures r.Got? ==> r.block >= old(nextExpectedBlock)
    {
      var deadline := now + WaitLimit(blocksBetweenExecution) as real;
      var t := now;
      while true
        invariant nextExpectedBlock == old(nextExpectedBlock)
        invariant Poll(c, nextExpectedBlock, t, deadline) == Poll(c, nextExpectedBlock, now, deadline)
        invariant t == now || t < deadline
        decreases deadline - t
      {
        if c.fault(t) == RpcFails {
          return Failed;
        }
        if c.fault(t) == NoActiveProvider {
          return NoProvider;
        }
        var latest := c.head(t);
        if latest >= nextExpectedBlock {
          nextExpectedBlock := latest;
          return Got(latest, t);
        }
        var next := t + SleepTime(nextExpectedBlock, latest) as real;
        if next >= deadline {
          return TimedOut;
        }
        t := next;
      }
    }

    /** The end of a cycle whose wait gave `block`: N blocks after a success, the next block otherwise. */
    method CompleteCycle(block: Option<int>, success: bool)
      requires IsRun(blocksBetweenExecution, cycles)
      requires block.Some? ==> nextExpectedBlock == block.value >= NextAfter(blocksBetweenExecution, cycles)
      requires block.None? ==> nextExpectedBlock == NextAfter(blocksBetweenExecution, cycles)
      modifies this
      ensures Valid() && cycles == old(cycles) + [Cycle(block, success)]
      ensures nextExpectedBlock == old(nextExpectedBlock) + if success then blocksBetweenExecution else 1
    {
      if success {
        nextExpectedBlock := nextExpectedBlock + blocksBetweenExecution;
      } else {
        nextExpectedBlock := nextExpectedBlock + 1;
      }
      RunSnoc(blocksBetweenExecution, cycles, Cycle(block, success));
      cycles := cycles + [Cycle(block, success)];
    }

    /** `_wait_for_new_block_and_execute`: `execute` is how the function ends, called with no block when
        the wait raised an ordinary exception. False means that the daemon stops. */
    method WaitForNewBlockAndExecute(c: Chain, now: real, execute: Option<int> -> Execution) returns (runs: bool)
      requires Valid()
      modifies this
      ensures var wait := Poll(c, old(nextExpectedBlock), now, now + WaitLimit(blocksBetweenExecution) as real);
              var block := if wait.Got? then Some(wait.block) else None;
              && runs == (!wait.TimedOut? && !wait.NoProvider?
                          && !execute(block).Stuck? && !execute(block).LostProvider?)
              && (runs ==> Valid() && cycles == old(cycles) + [Cycle(block, execute(block).Truthy?)])
              && (runs ==> nextExpectedBlock ==
                           Next(blocksBetweenExecution, old(nextExpectedBlock), Cycle(block, execute(block).Truthy?)))
    {
      var wait := WaitUntilNextBlock(c, now);
      if wait.TimedOut? || wait.NoProvider? {
        return false;
      }
      var block := if wait.Got? then Some(wait.block) else None;
      var result := execute(block);
      if result.Stuck? || result.LostProvider? {
        return false;
      }
      CompleteCycle(block, result.Truthy?);
      runs := true;
    }
  }

  lemma RunSnoc(n: int, cycles: seq<Cycle>, c: Cycle)
    requires IsRun(n, cycles) && (c.block.Some? ==> c.block.value >= NextAfter(n, cycles))
    ensures IsRun(n, cycles + [c]) && NextAfter(n, cycles + [c]) == Next(n, NextAfter(n, cycles), c)
  {
    var all := cycles + [c];
    assert all[..|cycles|] == cycles;
    assert forall i :: 0 <= i <= |cycles| ==> all[..i] == cycles[..i];
  }
}
