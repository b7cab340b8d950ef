/** Whole runs of the depositor bot of src/bots/depositor.py: messages that block it, the heartbeats of its modules,
    and the modules it takes for healthy. */
module DepositorRuns {
  import opened Depositor
  import opened HandlerLoop
  import opened Messages
  import opened Sorting

  ghost predicate AllAllowed(g: Config, run: seq<CycleView>) {
    forall i :: 0 <= i < |run| ==> DigestsOfAllowed(run[i], g.whitelist)
  }

  /** Executions one after another; they all have digests of allowed modules only. */
  ghost function ExecutorOf(g: Config): Handler<BotState, CycleView> {
    (s: BotState, v: CycleView, k: nat) =>
      (if DigestsOfAllowed(v, g.whitelist) then ExecutionOf(g, s, v).state else s, false)
  }

  /** The state of a bot that started with nothing after the first k of these executions. */
  ghost function StateAfter(g: Config, run: seq<CycleView>, k: nat): BotState
    requires k <= |run|
  {
    After(ExecutorOf(g), run, BotState([], [], []), k)
  }

  /** Once stored, a message that cannot be read stays, */
  lemma StaysStored(g: Config, run: seq<CycleView>, n: nat, m: Message, j: nat)
    requires NeverRead(g.filters, m) && n <= j <= |run| && m in StateAfter(g, run, n).store
    ensures m in StateAfter(g, run, j).store
  {
    var handle, holds := ExecutorOf(g), (k: nat, s: BotState) => m in s.store;
    forall k: nat, s | n <= k < |run| && holds(k, s)
      ensures holds(k + 1, handle(s, run[k], k).0)
    {
      if DigestsOfAllowed(run[k], g.whitelist) {
        ExecutionBlocked(g, s, run[k], m);
      }
    }
    Kept(handle, run, BotState([], [], []), n, j, holds);
  }

  /** so that no later execution sends anything, and each raises that has a module to look at. */
  lemma BlockedForGood(c: Crypto, g: Config, run: seq<CycleView>, n: nat, m: Message, j: nat)
    requires AreFilters(g.filters, c) && AllAllowed(g, run) && n <= j < |run|
    requires m in StateAfter(g, run, n).store && Admitted(m) && Unreadable(m)
    ensures var o := ExecutionOf(g, StateAfter(g, run, j), run[j]);
            && o.calls == [] && m in o.state.store
            && (AllowedIds(run[j], g.whitelist) != [] ==> o.result.Err?)
  {
    NeverReadIff(c, g.filters, m);
    StaysStored(g, run, n, m, j);
    ExecutionBlocked(g, StateAfter(g, run, j), run[j], m);
  }

  /** The clock of the executions does not go back, and the bot's start came first. */
  ghost predicate ClockForward(g: Config, run: seq<CycleView>) {
    && (forall i :: 0 <= i < |run| ==> g.start <= run[i].now)
    && (forall i, j :: 0 <= i < j < |run| ==> run[i].now <= run[j].now)
  }

  lemma MonotoneAppend(before: seq<Beat>, all: seq<Beat>, now: real, start: real, ids: seq<int>)
    requires Monotone(before, start) && BeatsAt(before, all, now, ids)
    requires start <= now && forall b :: b in before ==> b.time <= now
    ensures Monotone(all, start) && forall b :: b in all ==> b.time <= now
  {
    assert forall k :: 0 <= k < |before| ==> all[k] == before[k] && before[k] in before;
  }

  lemma NextForward(g: Config, s: BotState, v: CycleView)
    requires DigestsOfAllowed(v, g.whitelist) && Monotone(s.beats, g.start)
    requires g.start <= v.now && forall b :: b in s.beats ==> b.time <= v.now
    ensures var after := ExecutionOf(g, s, v).state.beats;
            Monotone(after, g.start) && forall b :: b in after ==> b.time <= v.now
  {
    var made := ExecutionMeaning(g, s, v);
    MonotoneAppend(s.beats, ExecutionOf(g, s, v).state.beats, v.now, g.start, AllowedIds(v, g.whitelist));
  }

  /** The heartbeats of the first k executions do not go back, nor past the last of these executions. */
  ghost predicate BeatsUpTo(g: Config, run: seq<CycleView>, k: nat, s: BotState) {
    && k <= |run| && Monotone(s.beats, g.start)
    && forall b :: b in s.beats ==> k > 0 && b.time <= run[k - 1].now
  }

  /** Under such a clock that is so over the whole run. */
  lemma BeatsForward(g: Config, run: seq<CycleView>, k: nat)
    requires AllAllowed(g, run) && ClockForward(g, run) && k <= |run|
    ensures BeatsUpTo(g, run, k, StateAfter(g, run, k))
  {
    var handle, holds := ExecutorOf(g), (i: nat, s: BotState) => BeatsUpTo(g, run, i, s);
    forall i: nat, s | i < |run| && holds(i, s)
      ensures holds(i + 1, handle(s, run[i], i).0)
    {
      NextForward(g, s, run[i]);
    }
    Kept(handle, run, BotState([], [], []), 0, k, holds);
  }

  // ------------------------------------------------------------------
  // Quorums seen
  // ------------------------------------------------------------------

  /** Of heartbeats added for turns in order, one is new exactly when some turn for its module saw a quorum. */
  lemma SeenBeats(ids: seq<int>, now: real, before: seq<Beat>, sees: nat -> bool, n: nat, turns: seq<nat>,
                  all: seq<Beat>, b: Beat)
    requires n <= |ids| && forall k: nat :: k in turns <==> k < n && sees(k)
    requires before <= all && |all| == |before| + |turns|
    requires forall i :: 0 <= i < |turns| ==> turns[i] < |ids| && all[|before| + i] == Beat(now, ids[turns[i]])
    ensures b in all <==> b in before || (b.time == now && exists k: nat :: k < n && sees(k) && ids[k] == b.moduleId)
  {
    var m := |before|;
    if b in all {
      var j :| 0 <= j < |all| && all[j] == b;
      if j < m {
        assert before[j] == b;
      } else {
        assert turns[j - m] in turns && all[m + (j - m)] == b;
      }
    }
    forall k: nat | k < n && sees(k) && Beat(now, ids[k]) == b
      ensures b in all
    {
      assert k in turns;
      var i :| 0 <= i < |turns| && turns[i] == k;
      assert all[m + i] == b;
    }
  }

  /** A turn before the n-th is for this module and sees a quorum. */
  ghost predicate SomeSees(handle: Handler<Pulse, int>, f: Filters, ids: seq<int>, gather: nat -> GatherView, p: Pulse,
                           n: nat, id: int)
    requires n <= |ids|
  {
    exists k: nat :: k < n && ids[k] == id && SeesQuorum(handle, f, ids, gather, p, k)
  }

  /** The turns that see a quorum, as a function of their number alone. */
  function Seeing(handle: Handler<Pulse, int>, f: Filters, ids: seq<int>, gather: nat -> GatherView, p: Pulse)
    : nat -> bool
  {
    (k: nat) => k < |ids| && SeesQuorum(handle, f, ids, gather, p, k)
  }

  lemma SeenNew(handle: Handler<Pulse, int>, f: Filters, ids: seq<int>, gather: nat -> GatherView, now: real, p: Pulse,
                n: nat, turns: seq<nat>, all: seq<Beat>, b: Beat, sees: nat -> bool)
    requires n <= |ids| && AreSeen(handle, f, ids, gather, now, p, n, turns, all)
    requires forall k: nat :: sees(k) <==> k < |ids| && SeesQuorum(handle, f, ids, gather, p, k)
    ensures b in all <==> b in p.beats || (b.time == now && SomeSees(handle, f, ids, gather, p, n, b.moduleId))
  {
    SeenBeats(ids, now, p.beats, sees, n, turns, all, b);
    assert forall k: nat :: k < n ==> (sees(k) <==> SeesQuorum(handle, f, ids, gather, p, k));
  }

  /** The heartbeats that the gathering loop leaves. */
  lemma BeatsGathered(handle: Handler<Pulse, int>, f: Filters, ids: seq<int>, gather: nat -> GatherView, now: real,
                      p: Pulse, b: Beat)
    requires IsGatherer(handle, f, gather, now)
    ensures var r := RunFrom(handle, ids, 0, p);
            && Started(r) <= |ids|
            && (b in r.state.beats
                <==> || b in p.beats
                     || (b.time == now && SomeSees(handle, f, ids, gather, p, Started(r), b.moduleId)))
  {
    var n := Started(RunFrom(handle, ids, 0, p));
    RunEnds(handle, ids, p);
    var turns := BeatsInOrder(handle, f, ids, gather, now, p, n);
    SeenNew(handle, f, ids, gather, now, p, n, turns, After(handle, ids, p, n).beats, b,
            Seeing(handle, f, ids, gather, p));
  }

  /** Some turn that the execution starts is for this module and sees a quorum. */
  ghost predicate SeenIn(g: Config, s: BotState, v: CycleView, id: int) {
    var n := Started(GatherAll(g, s, v));
    && n <= |AllowedIds(v, g.whitelist)|
    && SomeSees(GathererOf(g.filters, v.gather, v.now), g.filters, AllowedIds(v, g.whitelist), v.gather,
                Pulse(s.store, s.beats), n, id)
  }

  /** An execution's heartbeats are the earlier ones and one, at the time it reads, for each module it sees a quorum
      for. */
  lemma BeatsOfExecution(g: Config, s: BotState, v: CycleView, b: Beat)
    requires DigestsOfAllowed(v, g.whitelist)
    ensures b in ExecutionOf(g, s, v).state.beats <==> b in s.beats || (b.time == v.now && SeenIn(g, s, v, b.moduleId))
  {
    ExecutionBeats(g, s, v);
    BeatsGathered(GathererOf(g.filters, v.gather, v.now), g.filters, AllowedIds(v, g.whitelist), v.gather, v.now,
                  Pulse(s.store, s.beats), b);
  }

  /** The i-th execution sees a quorum for the module. */
  ghost predicate SeenAt(g: Config, run: seq<CycleView>, id: int, i: nat) {
    i < |run| && SeenIn(g, StateAfter(g, run, i), run[i], id)
  }

  lemma BeatsStep(g: Config, run: seq<CycleView>, k: nat, b: Beat)
    requires AllAllowed(g, run) && k < |run|
    ensures b in StateAfter(g, run, k + 1).beats
            <==> b in StateAfter(g, run, k).beats || (run[k].now == b.time && SeenAt(g, run, b.moduleId, k))
  {
    BeatsOfExecution(g, StateAfter(g, run, k), run[k], b);
  }

  /** What is never taken back holds exactly when some step has brought it. */
  lemma {:induction false} BroughtIff(holds: nat -> bool, brings: nat -> bool, n: nat)
    requires !holds(0) && forall k: nat :: k < n ==> (holds(k + 1) <==> holds(k) || brings(k))
    ensures holds(n) <==> exists k: nat :: k < n && brings(k)
  {
    if n > 0 {
      BroughtIff(holds, brings, n - 1);
    }
  }

  /** After which executions there is this heartbeat, and which of them saw the quorum for it. */
  ghost function HasBeat(g: Config, run: seq<CycleView>, b: Beat): nat -> bool {
    (i: nat) => i <= |run| && b in StateAfter(g, run, i).beats
  }

  ghost function SeesBeat(g: Config, run: seq<CycleView>, b: Beat): nat -> bool {
    (i: nat) => i < |run| && SeenAt(g, run, b.moduleId, i) && run[i].now == b.time
  }

  lemma BeatStep(g: Config, run: seq<CycleView>, b: Beat, i: nat)
    requires AllAllowed(g, run) && i < |run|
    ensures HasBeat(g, run, b)(i + 1) <==> HasBeat(g, run, b)(i) || SeesBeat(g, run, b)(i)
  {
    BeatsStep(g, run, i, b);
  }

  lemma BeatsInRun(g: Config, run: seq<CycleView>, k: nat, b: Beat)
    requires AllAllowed(g, run) && k <= |run|
    ensures b in StateAfter(g, run, k).beats
            <==> exists i: nat :: i < k && SeenAt(g, run, b.moduleId, i) && run[i].now == b.time
  {
    var holds, brings := HasBeat(g, run, b), SeesBeat(g, run, b);
    forall i: nat | i < k
      ensures holds(i + 1) <==> holds(i) || brings(i)
    {
      BeatStep(g, run, b, i);
    }
    BroughtIff(holds, brings, k);
    assert forall i: nat :: i < k ==> (brings(i) <==> SeenAt(g, run, b.moduleId, i) && run[i].now == b.time);
  }

  /** t is the latest of the bot's start and the times of the first k executions that saw a quorum for the module. */
  ghost predicate IsLatest(g: Config, run: seq<CycleView>, k: nat, id: int, t: real)
    requires k <= |run|
  {
    && t >= g.start
    && (forall i: nat :: i < k && SeenAt(g, run, id, i) ==> run[i].now <= t)
    && (t == g.start || exists i: nat :: i < k && SeenAt(g, run, id, i) && run[i].now == t)
  }

  /** At every point of a run under a forward clock that is what each heartbeat is. */
  lemma HeartbeatInRun(g: Config, run: seq<CycleView>, k: nat, id: int)
    requires AllAllowed(g, run) && ClockForward(g, run) && k <= |run| && id in g.whitelist
    ensures IsLatest(g, run, k, id, HeartBeats(g.whitelist, g.start, StateAfter(g, run, k).beats)[id])
  {
    var beats := StateAfter(g, run, k).beats;
    var t := LastBeat(beats, id, g.start);
    BeatsForward(g, run, k);
    HeartbeatIsLatest(beats, id, g.start);
    forall i: nat | i < k && SeenAt(g, run, id, i)
      ensures run[i].now <= t
    {
      BeatsInRun(g, run, k, Beat(run[i].now, id));
      assert Beat(run[i].now, id) in beats;
    }
    BeatsInRun(g, run, k, Beat(t, id));
  }

  /** Deposits to the module are allowed, it has keys to deposit, and the bot started or some execution up to the k-th
      saw a quorum for it no longer ago than the retention. */
  ghost predicate FreshAt(g: Config, run: seq<CycleView>, k: nat, id: int)
    requires k < |run|
  {
    var h := run[k].health(id);
    && h.canDeposit && h.keysAmount >= 1
    && (|| h.now - g.start <= g.retention
        || exists i: nat :: i <= k && SeenAt(g, run, id, i) && h.now - run[i].now <= g.retention)
  }

  /** The heartbeats by which the k-th execution chooses. */
  ghost function BeatsAtChoice(g: Config, run: seq<CycleView>, k: nat): (r: map<int, real>)
    requires k < |run|
    ensures r.Keys == g.whitelist
  {
    HeartBeats(g.whitelist, g.start, GatherAll(g, StateAfter(g, run, k), run[k]).state.beats)
  }

  /** Exactly those modules are taken for healthy. */
  lemma HealthyIff(g: Config, run: seq<CycleView>, k: nat, id: int)
    requires AllAllowed(g, run) && ClockForward(g, run) && k < |run| && id in g.whitelist
    ensures HealthyModule(run[k].health, BeatsAtChoice(g, run, k), g.retention, id) <==> FreshAt(g, run, k, id)
  {
    ExecutionBeats(g, StateAfter(g, run, k), run[k]);
    HeartbeatInRun(g, run, k + 1, id);
    FreshByLatest(g, run, k, id, BeatsAtChoice(g, run, k)[id]);
  }

  lemma FreshByLatest(g: Config, run: seq<CycleView>, k: nat, id: int, t: real)
    requires k < |run| && IsLatest(g, run, k + 1, id, t)
    ensures FreshAt(g, run, k, id)
            <==> && run[k].health(id).canDeposit && run[k].health(id).keysAmount >= 1
                 && run[k].health(id).now - t <= g.retention
  {
  }

  /** So the k-th execution chooses nothing exactly when no module of the router's answer is fresh; otherwise the
      modules in order of active validators up to the first fresh one. */
  lemma ChosenInRun(g: Config, run: seq<CycleView>, k: nat)
    requires AllAllowed(g, run) && ClockForward(g, run) && k < |run|
    requires Preferred(g, StateAfter(g, run, k), run[k]).Some?
    ensures var tried := Preferred(g, StateAfter(g, run, k), run[k]).value;
            var digests := run[k].digests.value;
            var sorted := SortBy(digests, ActiveValidators());
            && |tried| <= |sorted| == |digests|
            && (tried == [] <==> forall d :: d in digests ==> !FreshAt(g, run, k, d.moduleId))
            && forall i :: 0 <= i < |tried| ==>
                 tried[i] == sorted[i].moduleId && (FreshAt(g, run, k, tried[i]) <==> i == |tried| - 1)
  {
    var digests, beats := run[k].digests.value, BeatsAtChoice(g, run, k);
    var sorted := SortBy(digests, ActiveValidators());
    SortLength(digests, ActiveValidators());
    forall d | d in digests
      ensures d.moduleId in beats
      ensures HealthyModule(run[k].health, beats, g.retention, d.moduleId) <==> FreshAt(g, run, k, d.moduleId)
    {
      assert d.moduleId in AllowedIds(run[k], g.whitelist);
      HealthyIff(g, run, k, d.moduleId);
    }
    ChoiceMeaning(digests, run[k].health, beats, g.retention);
  }
}
