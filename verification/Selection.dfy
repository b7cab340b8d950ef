/** Picking elements out of a list, in order. */
module Selection {

  /** `some` holds the elements of `all` at these positions, in their order, and they are exactly those of the elements
      that `keep` picks. */
  ghost predicate Selects<T>(all: seq<T>, some: seq<T>, keep: T -> bool, at: seq<nat>) {
    && |at| == |some|
    && (forall i, j :: 0 <= i < j < |at| ==> at[i] < at[j])
    && (forall i :: 0 <= i < |at| ==> at[i] < |all| && some[i] == all[at[i]])
    && (forall k: nat :: k in at <==> k < |all| && keep(all[k]))
  }

  function Shifted(at: seq<nat>): (r: seq<nat>)
    ensures |r| == |at| && forall i :: 0 <= i < |at| ==> r[i] == at[i] + 1
  {
    seq(|at|, i requires 0 <= i < |at| => at[i] + 1)
  }

  lemma ShiftedHolds(at: seq<nat>, k: nat)
    ensures k in Shifted(at) <==> k > 0 && k - 1 in at
  {
    if k in Shifted(at) {
      var i :| 0 <= i < |at| && Shifted(at)[i] == k;
      assert at[i] == k - 1;
    }
    if k > 0 && k - 1 in at {
      var i :| 0 <= i < |at| && at[i] == k - 1;
      assert Shifted(at)[i] == k;
    }
  }

  /** These positions and elements belong together, the first of the list included. */
  lemma FrontPlaces<T>(all: seq<T>, rest: seq<T>, at: seq<nat>, some: seq<T>, at': seq<nat>)
    requires all != [] && |at| == |rest| && some == [all[0]] + rest && at' == [0] + Shifted(at)
    requires forall i :: 0 <= i < |at| ==> at[i] < |all[1..]| && rest[i] == all[1..][at[i]]
    ensures |at'| == |some| && forall i :: 0 <= i < |at'| ==> at'[i] < |all| && some[i] == all[at'[i]]
  {
    forall i | 0 <= i < |at'|
      ensures at'[i] < |all| && some[i] == all[at'[i]]
    {
      if i > 0 {
        assert at'[i] == at[i - 1] + 1 && some[i] == rest[i - 1];
      }
    }
  }

  lemma FrontAscends(at: seq<nat>, at': seq<nat>)
    requires at' == [0] + Shifted(at) && forall i, j :: 0 <= i < j < |at| ==> at[i] < at[j]
    ensures forall i, j :: 0 <= i < j < |at'| ==> at'[i] < at'[j]
  {
    forall i, j | 0 <= i < j < |at'|
      ensures at'[i] < at'[j]
    {
      assert at'[j] == at[j - 1] + 1;
      assert i > 0 ==> at'[i] == at[i - 1] + 1;
    }
  }

  lemma FrontHolds(at: seq<nat>, at': seq<nat>, k: nat)
    requires at' == [0] + Shifted(at)
    ensures k in at' <==> k == 0 || k - 1 in at
  {
    ShiftedHolds(at, k);
  }

  /** One element in front that is picked, */
  lemma SelectsFirst<T>(all: seq<T>, rest: seq<T>, keep: T -> bool, at: seq<nat>)
    requires all != [] && keep(all[0]) && Selects(all[1..], rest, keep, at)
    ensures Selects(all, [all[0]] + rest, keep, [0] + Shifted(at))
  {
    var at', some := [0] + Shifted(at), [all[0]] + rest;
    FrontPlaces(all, rest, at, some, at');
    FrontAscends(at, at');
    forall k: nat
      ensures k in at' <==> k < |all| && keep(all[k])
    {
      FrontHolds(at, at', k);
    }
  }

  /** or not. */
  lemma SelectsLater<T>(all: seq<T>, rest: seq<T>, keep: T -> bool, at: seq<nat>)
    requires all != [] && !keep(all[0]) && Selects(all[1..], rest, keep, at)
    ensures Selects(all, rest, keep, Shifted(at))
  {
    forall k: nat
      ensures k in Shifted(at) <==> k < |all| && keep(all[k])
    {
      ShiftedHolds(at, k);
    }
  }

  lemma SelectsCons<T>(all: seq<T>, rest: seq<T>, keep: T -> bool, at: seq<nat>) returns (at': seq<nat>)
    requires all != [] && Selects(all[1..], rest, keep, at)
    ensures Selects(all, (if keep(all[0]) then [all[0]] else []) + rest, keep, at')
  {
    if keep(all[0]) {
      SelectsFirst(all, rest, keep, at);
      at' := [0] + Shifted(at);
    } else {
      SelectsLater(all, rest, keep, at);
      assert [] + rest == rest;
      at' := Shifted(at);
    }
  }
}
