/** A loop over messages whose handlers act on some state and may raise, as in src/bots/unvetter.py,
    src/bots/pauser.py and src/bots/depositor.py: how far it gets, and the state it leaves. */
module HandlerLoop {
  import opened Wrappers

  /** What the k-th handler makes of a state and its message, and whether the loop stops there. */
  type Handler<!S, !M> = (S, M, nat) -> (S, bool)

  /** How a loop ends: the handlers that let it go on, whether the next one stopped it, and the state. */
  datatype Run<S> = Run(passed: nat, stopped: bool, state: S)

  /** The loop over `ms` from the k-th message on. */
  function RunFrom<S, M>(handle: Handler<S, M>, ms: seq<M>, k: nat, s: S): (r: Run<S>)
    requires k <= |ms|
    ensures k <= r.passed <= |ms|
    decreases |ms| - k
  {
    if k == |ms| then Run(k, false, s)
    else
      var (s', stops) := handle(s, ms[k], k);
      if stops then Run(k, true, s') else RunFrom(handle, ms, k + 1, s')
  }

  /** The state that the handlers of the first k messages leave. */
  function After<S, M>(handle: Handler<S, M>, ms: seq<M>, s: S, k: nat): S
    requires k <= |ms|
    decreases k, |ms|
  {
    if k == 0 then s else handle(After(handle, ms, s, k - 1), ms[k - 1], k - 1).0
  }

  /** The handler of the k-th message stops the loop, in the state that the earlier ones leave. */
  predicate StopsAt<S, M>(handle: Handler<S, M>, ms: seq<M>, s: S, k: nat)
    requires k < |ms|
  {
    handle(After(handle, ms, s, k), ms[k], k).1
  }

  /** Run r is the loop over `ms` on state s: it stops exactly at the first message whose handler stops it in
      the state that the earlier handlers leave, if there is one, and leaves the state of the handlers started. */
  ghost predicate RunsTo<S, M>(handle: Handler<S, M>, ms: seq<M>, s: S, r: Run<S>) {
    && r.passed <= |ms|
    && (forall j :: 0 <= j < r.passed ==> !StopsAt(handle, ms, s, j))
    && (r.stopped <==> r.passed < |ms|)
    && (r.stopped ==> StopsAt(handle, ms, s, r.passed))
    && r.state == After(handle, ms, s, if r.stopped then r.passed + 1 else r.passed)
  }

  lemma {:induction false} RunFromMeaning<S, M>(handle: Handler<S, M>, ms: seq<M>, s: S, k: nat)
    requires k <= |ms| && forall j :: 0 <= j < k ==> !StopsAt(handle, ms, s, j)
    ensures RunsTo(handle, ms, s, RunFrom(handle, ms, k, After(handle, ms, s, k)))
    decreases |ms| - k
  {
    if k < |ms| && !StopsAt(handle, ms, s, k) {
      RunFromMeaning(handle, ms, s, k + 1);
    }
  }

  /** The recursive form is such a run, and there is no other. */
  lemma RunMeaning<S, M>(handle: Handler<S, M>, ms: seq<M>, s: S, r: Run<S>)
    ensures r == RunFrom(handle, ms, 0, s) <==> RunsTo(handle, ms, s, r)
  {
    RunFromMeaning(handle, ms, s, 0);
    var q := RunFrom(handle, ms, 0, s);
    if RunsTo(handle, ms, s, r) {
      assert r.stopped ==> StopsAt(handle, ms, s, r.passed);
      assert q.stopped ==> StopsAt(handle, ms, s, q.passed);
    }
  }

  /** The handlers started: those that let the loop go on and the one that stops it. */
  function Started<S>(r: Run<S>): nat {
    if r.stopped then r.passed + 1 else r.passed
  }

  /** The same in terms of the handlers started. */
  lemma RunEnds<S, M>(handle: Handler<S, M>, ms: seq<M>, s: S)
    ensures var r := RunFrom(handle, ms, 0, s);
            var n := Started(r);
            && n <= |ms| && r.state == After(handle, ms, s, n)
            && (forall k: nat :: k + 1 < n ==> !StopsAt(handle, ms, s, k))
            && (n < |ms| ==> n > 0 && StopsAt(handle, ms, s, n - 1))
  {
    RunMeaning(handle, ms, s, RunFrom(handle, ms, 0, s));
  }

  /** The same when `goesOn` says which handlers let the loop go on: it passes all messages exactly when all do, and
      otherwise ends at the first that does not. */
  lemma RunReturns<S, M>(handle: Handler<S, M>, ms: seq<M>, s: S, goesOn: nat -> bool)
    requires forall k: nat :: k < |ms| ==> (StopsAt(handle, ms, s, k) <==> !goesOn(k))
    ensures var r := RunFrom(handle, ms, 0, s);
            && (r.stopped <==> r.passed < |ms|)
            && (forall k: nat :: k < r.passed ==> goesOn(k))
            && (r.stopped ==> !goesOn(r.passed))
  {
    RunMeaning(handle, ms, s, RunFrom(handle, ms, 0, s));
  }

  /** What the handlers have brought about one of them has. */
  lemma {:induction false} BroughtBy<S, M>(handle: Handler<S, M>, ms: seq<M>, s: S, n: nat, holds: S -> bool)
    returns (k: nat)
    requires n <= |ms| && !holds(s) && holds(After(handle, ms, s, n))
    ensures k < n && !holds(After(handle, ms, s, k)) && holds(After(handle, ms, s, k + 1))
    decreases n
  {
    if holds(After(handle, ms, s, n - 1)) {
      k := BroughtBy(handle, ms, s, n - 1, holds);
    } else {
      k := n - 1;
    }
  }

  /** What holds of the state before some message and is kept by every handler from there on holds later. */
  lemma {:induction false} Kept<S(!new), M>(handle: Handler<S, M>, ms: seq<M>, s: S, n: nat, j: nat,
                                            holds: (nat, S) -> bool)
    requires n <= j <= |ms| && holds(n, After(handle, ms, s, n))
    requires forall k: nat, t {:trigger handle(t, ms[k], k)} ::
               n <= k < |ms| && holds(k, t) ==> holds(k + 1, handle(t, ms[k], k).0)
    ensures holds(j, After(handle, ms, s, j))
    decreases j
  {
    if n < j {
      Kept(handle, ms, s, n, j - 1, holds);
    }
  }

  // ------------------------------------------------------------------
  // What a loop gives out, in order
  // ------------------------------------------------------------------

  /** These are the turns before the n-th that give something out, in order. */
  ghost predicate AreTurns<O>(gives: nat -> Option<O>, n: nat, turns: seq<nat>) {
    && (forall i, j :: 0 <= i < j < |turns| ==> turns[i] < turns[j])
    && (forall k: nat :: k in turns <==> k < n && gives(k).Some?)
  }

  lemma TurnsSnoc<O>(gives: nat -> Option<O>, n: nat, turns: seq<nat>)
    requires AreTurns(gives, n, turns)
    ensures AreTurns(gives, n + 1, if gives(n).Some? then turns + [n] else turns)
  {
    if gives(n).Some? {
      var all := turns + [n];
      forall i, j | 0 <= i < j < |all|
        ensures all[i] < all[j]
      {
        assert turns[i] in turns;
      }
    }
  }

  /** What they give out. */
  function Given<O>(gives: nat -> Option<O>, turns: seq<nat>): (r: seq<O>)
    requires forall i :: 0 <= i < |turns| ==> gives(turns[i]).Some?
    ensures |r| == |turns|
    ensures forall i :: 0 <= i < |turns| ==> r[i] == gives(turns[i]).value
  {
    seq(|turns|, i requires 0 <= i < |turns| => gives(turns[i]).value)
  }

  /** The k-th handler adds what this turn gives to a list in the state. */
  ghost predicate Adds<S, M, O>(handle: Handler<S, M>, ms: seq<M>, s: S, list: S -> seq<O>, gives: nat -> Option<O>,
                                k: nat)
    requires k < |ms|
  {
    list(After(handle, ms, s, k + 1))
    == list(After(handle, ms, s, k)) + if gives(k).Some? then [gives(k).value] else []
  }

  /** One more turn. */
  lemma GivenSnoc<O>(gives: nat -> Option<O>, n: nat, before: seq<nat>, start: seq<O>, all: seq<O>)
    returns (turns: seq<nat>)
    requires AreTurns(gives, n, before)
    requires all == start + Given(gives, before) + if gives(n).Some? then [gives(n).value] else []
    ensures AreTurns(gives, n + 1, turns) && all == start + Given(gives, turns)
  {
    TurnsSnoc(gives, n, before);
    if gives(n).Some? {
      turns := before + [n];
      assert Given(gives, turns) == Given(gives, before) + [gives(n).value];
    } else {
      turns := before;
    }
  }

  /** If every handler adds at most one element to a list, the list gains these elements in the order of the turns
      that give them, one for each. */
  lemma {:induction false} GivenInOrder<S, M, O>(handle: Handler<S, M>, ms: seq<M>, s: S, n: nat, list: S -> seq<O>,
                                                 gives: nat -> Option<O>) returns (turns: seq<nat>)
    requires n <= |ms| && forall k: nat :: k < n ==> Adds(handle, ms, s, list, gives, k)
    ensures AreTurns(gives, n, turns)
    ensures list(After(handle, ms, s, n)) == list(s) + Given(gives, turns)
    decreases n
  {
    if n == 0 {
      turns := [];
      assert list(s) + [] == list(s);
    } else {
      var before := GivenInOrder(handle, ms, s, n - 1, list, gives);
      assert Adds(handle, ms, s, list, gives, n - 1);
      turns := GivenSnoc(gives, n - 1, before, list(s), list(After(handle, ms, s, n)));
    }
  }
}
