/** Quorum selection of src/bots/depositor.py: messages grouped by block hash and guardian. */
module Quorum {
  import opened Messages
  import opened OrderedDict
  import opened Wrappers

  type DepositMessage = m: Message | m.Deposit?
    witness Deposit("", 0, 0, "", "", 0, Signature("", ""), NoVersion)

  type Group = Dict<string, DepositMessage>

  // ------------------------------------------------------------------
  // The computation
  // ------------------------------------------------------------------

  function GroupFor(d: Dict<string, Group>, hash: string): Group {
    match Lookup(d, hash)
    case Some(g) => g
    case None => []
  }

  /** `d[blockHash][guardianAddress] = message` on a defaultdict of dicts. */
  function GroupStep(d: Dict<string, Group>, m: DepositMessage): Dict<string, Group> {
    Put(d, m.blockHash, Put(GroupFor(d, m.blockHash), m.guardianAddress, m))
  }

  function Grouped(ms: seq<DepositMessage>): Dict<string, Group>
    decreases |ms|
  {
    if ms == [] then [] else GroupStep(Grouped(ms[..|ms| - 1]), ms[|ms| - 1])
  }

  /** The first group from position i on that has q messages. */
  function FirstLarge(groups: seq<Group>, q: int, i: nat): Option<seq<DepositMessage>>
    requires i <= |groups|
    decreases |groups| - i
  {
    if i == |groups| then None
    else if |groups[i]| >= q then Some(Values(groups[i]))
    else FirstLarge(groups, q, i + 1)
  }

  function SelectedQuorum(ms: seq<DepositMessage>, q: int): Option<seq<DepositMessage>> {
    FirstLarge(Values(Grouped(ms)), q, 0)
  }

  /** The two loops of `_get_quorum` over the filtered messages. */
  method SelectQuorum(filtered: seq<DepositMessage>, minSigns: int) returns (r: Option<seq<DepositMessage>>)
    ensures r == SelectedQuorum(filtered, minSigns)
  {
    var messagesByBlockHash: Dict<string, Group> := [];
    for i := 0 to |filtered|
      invariant messagesByBlockHash == Grouped(filtered[..i])
    {
      assert filtered[..i + 1][..i] == filtered[..i];
      var m := filtered[i];
      var group := GroupFor(messagesByBlockHash, m.blockHash);
      group := Put(group, m.guardianAddress, m);
      messagesByBlockHash := Put(messagesByBlockHash, m.blockHash, group);
    }
    assert filtered[..|filtered|] == filtered;
    var maxQuorumSize := 0;
    var groups := Values(messagesByBlockHash);
    for i := 0 to |groups|
      invariant FirstLarge(groups, minSigns, i) == SelectedQuorum(filtered, minSigns)
    {
      var unified := Values(groups[i]);
      if |unified| >= minSigns {
        return Some(unified);
      }
      maxQuorumSize := if |unified| > maxQuorumSize then |unified| else maxQuorumSize;
    }
    r := None;
  }

  // ------------------------------------------------------------------
  // The meaning
  // ------------------------------------------------------------------

  /** The last message of a guardian for a block hash. */
  function LastOf(ms: seq<DepositMessage>, hash: string, guardian: string): Option<DepositMessage>
    decreases |ms|
  {
    if ms == [] then None
    else
      var m := ms[|ms| - 1];
      if m.blockHash == hash && m.guardianAddress == guardian then Some(m)
      else LastOf(ms[..|ms| - 1], hash, guardian)
  }

  /** The distinct guardians that signed a block hash. */
  ghost function Guardians(ms: seq<DepositMessage>, hash: string): set<string> {
    set m | m in ms && m.blockHash == hash :: m.guardianAddress
  }

  /** The position of the first message with a block hash, or the length. */
  function FirstIndex(ms: seq<DepositMessage>, hash: string): (i: nat)
    ensures i <= |ms|
    ensures i < |ms| ==> ms[i].blockHash == hash
    ensures forall j :: 0 <= j < i ==> ms[j].blockHash != hash
  {
    if ms == [] || ms[0].blockHash == hash then 0 else 1 + FirstIndex(ms[1..], hash)
  }

  /** Exactly one message for each guardian of the hash, namely that guardian's last one. */
  ghost predicate LastPerGuardian(ms: seq<DepositMessage>, hash: string, chosen: seq<DepositMessage>) {
    && (forall i, j :: 0 <= i < j < |chosen| ==> chosen[i].guardianAddress != chosen[j].guardianAddress)
    && (forall i :: 0 <= i < |chosen| ==> LastOf(ms, hash, chosen[i].guardianAddress) == Some(chosen[i]))
    && (forall g :: g in Guardians(ms, hash) ==> exists i :: 0 <= i < |chosen| && chosen[i].guardianAddress == g)
  }

  /** The position of a guardian's first message with a block hash, or the length. */
  function FirstVote(ms: seq<DepositMessage>, hash: string, guardian: string): (i: nat)
    ensures i <= |ms|
    ensures i < |ms| ==> ms[i].blockHash == hash && ms[i].guardianAddress == guardian
    ensures forall j :: 0 <= j < i ==> ms[j].blockHash != hash || ms[j].guardianAddress != guardian
  {
    if ms == [] || (ms[0].blockHash == hash && ms[0].guardianAddress == guardian) then 0
    else 1 + FirstVote(ms[1..], hash, guardian)
  }

  /** The chosen messages stand in the order in which their guardians first voted for the hash. */
  ghost predicate InVoteOrder(ms: seq<DepositMessage>, hash: string, chosen: seq<DepositMessage>) {
    forall i, j :: 0 <= i < j < |chosen| ==>
      FirstVote(ms, hash, chosen[i].guardianAddress) < FirstVote(ms, hash, chosen[j].guardianAddress)
  }

  lemma {:induction false} LastOfIff(ms: seq<DepositMessage>, hash: string, g: string)
    ensures LastOf(ms, hash, g).Some? <==> g in Guardians(ms, hash)
    ensures LastOf(ms, hash, g).Some? ==>
              var m := LastOf(ms, hash, g).value; m in ms && m.blockHash == hash && m.guardianAddress == g
    decreases |ms|
  {
    if ms != [] {
      var init, m := ms[..|ms| - 1], ms[|ms| - 1];
      LastOfIff(init, hash, g);
      assert ms == init + [m];
      assert forall x :: x in ms <==> x in init || x == m;
      assert m in ms;
    }
  }

  /** The dictionary holds each guardian's last message under its block hash. */
  lemma {:induction false} GroupedLookup(ms: seq<DepositMessage>, hash: string, g: string)
    ensures Lookup(GroupFor(Grouped(ms), hash), g) == LastOf(ms, hash, g)
    decreases |ms|
  {
    if ms != [] {
      var init, m := ms[..|ms| - 1], ms[|ms| - 1];
      var d := Grouped(init);
      var group := Put(GroupFor(d, m.blockHash), m.guardianAddress, m);
      GroupedLookup(init, hash, g);
      LookupPut(d, m.blockHash, group, hash);
      LookupPut(GroupFor(d, m.blockHash), m.guardianAddress, m, g);
    }
  }

  /** The block hashes in order of first appearance. */
  function Hashes(ms: seq<DepositMessage>): seq<string>
    decreases |ms|
  {
    if ms == [] then []
    else
      var before, hash := Hashes(ms[..|ms| - 1]), ms[|ms| - 1].blockHash;
      if hash in before then before else before + [hash]
  }

  /** The dictionary's keys, once each, in that order. */
  lemma {:induction false} GroupedKeys(ms: seq<DepositMessage>)
    ensures WellFormed(Grouped(ms)) && Keys(Grouped(ms)) == Hashes(ms)
    decreases |ms|
  {
    if ms != [] {
      var init, m := ms[..|ms| - 1], ms[|ms| - 1];
      GroupedKeys(init);
      var d := Grouped(init);
      PutKeys(d, m.blockHash, Put(GroupFor(d, m.blockHash), m.guardianAddress, m));
    }
  }

  lemma FirstIndexSnoc(ms: seq<DepositMessage>, m: DepositMessage, hash: string)
    ensures FirstIndex(ms + [m], hash) ==
            if FirstIndex(ms, hash) < |ms| then FirstIndex(ms, hash)
            else if m.blockHash == hash then |ms| else |ms| + 1
  {
    var i, all := FirstIndex(ms, hash), ms + [m];
    var j := FirstIndex(all, hash);
    assert forall k :: 0 <= k < |ms| ==> all[k] == ms[k];
    assert all[|ms|] == m;
  }

  lemma {:induction false} HashesOccur(ms: seq<DepositMessage>, hash: string)
    ensures hash in Hashes(ms) <==> FirstIndex(ms, hash) < |ms|
    decreases |ms|
  {
    if ms != [] {
      var init, m := ms[..|ms| - 1], ms[|ms| - 1];
      HashesOccur(init, hash);
      HashesOccur(init, m.blockHash);
      assert ms == init + [m];
      FirstIndexSnoc(init, m, hash);
    }
  }

  lemma {:induction false} HashesOrdered(ms: seq<DepositMessage>, i: nat, j: nat)
    requires i < j < |Hashes(ms)|
    ensures FirstIndex(ms, Hashes(ms)[i]) < FirstIndex(ms, Hashes(ms)[j])
    decreases |ms|
  {
    var init, m := ms[..|ms| - 1], ms[|ms| - 1];
    var before := Hashes(init);
    assert ms == init + [m];
    FirstIndexSnoc(init, m, Hashes(ms)[i]);
    FirstIndexSnoc(init, m, Hashes(ms)[j]);
    HashesOccur(init, Hashes(ms)[i]);
    HashesOccur(init, Hashes(ms)[j]);
    assert Hashes(ms)[i] in before;
    if j < |before| {
      HashesOrdered(init, i, j);
      assert Hashes(ms)[j] in before;
    } else {
      assert Hashes(ms)[j] == m.blockHash && m.blockHash !in before;
    }
  }

  /** Every group is keyed by the guardians of its messages, once each. */
  ghost predicate GroupShape(g: Group) {
    WellFormed(g) && forall k :: 0 <= k < |g| ==> g[k].0 == g[k].1.guardianAddress
  }

  lemma PutShape(g: Group, m: DepositMessage)
    requires GroupShape(g)
    ensures GroupShape(Put(g, m.guardianAddress, m))
  {
    PutKeys(g, m.guardianAddress, m);
  }

  lemma {:induction false} GroupedShape(ms: seq<DepositMessage>, hash: string)
    ensures GroupShape(GroupFor(Grouped(ms), hash))
    decreases |ms|
  {
    if ms != [] {
      var init, m := ms[..|ms| - 1], ms[|ms| - 1];
      var d := Grouped(init);
      GroupedShape(init, hash);
      PutShape(GroupFor(d, hash), m);
      LookupPut(d, m.blockHash, Put(GroupFor(d, m.blockHash), m.guardianAddress, m), hash);
    }
  }

  /** The keys of a group are the guardians of its hash. */
  lemma GroupKeys(ms: seq<DepositMessage>, hash: string, g: Group)
    requires g == GroupFor(Grouped(ms), hash)
    ensures forall x :: x in Keys(g) <==> x in Guardians(ms, hash)
  {
    forall x
      ensures x in Keys(g) <==> x in Guardians(ms, hash)
    {
      GroupedLookup(ms, hash, x);
      LastOfIff(ms, hash, x);
      assert x in Keys(g) <==> Has(g, x);
    }
  }

  /** So its size counts them, and its values are their last messages. */
  lemma GroupSize(ms: seq<DepositMessage>, hash: string, g: Group)
    requires g == GroupFor(Grouped(ms), hash) && GroupShape(g)
    ensures |g| == |Guardians(ms, hash)|
    ensures LastPerGuardian(ms, hash, Values(g))
  {
    var ks, chosen := Keys(g), Values(g);
    GroupKeys(ms, hash, g);
    DistinctCount(ks);
    assert (set x | x in ks) == Guardians(ms, hash);
    forall i | 0 <= i < |g|
      ensures chosen[i].guardianAddress == ks[i] && LastOf(ms, hash, ks[i]) == Some(chosen[i])
    {
      LookupAt(g, i);
      GroupedLookup(ms, hash, g[i].0);
    }
    forall x | x in Guardians(ms, hash)
      ensures exists i :: 0 <= i < |g| && chosen[i].guardianAddress == x
    {
      var i :| 0 <= i < |ks| && ks[i] == x;
      assert chosen[i].guardianAddress == x;
    }
  }

  lemma FirstVoteSnoc(ms: seq<DepositMessage>, m: DepositMessage, hash: string, guardian: string)
    ensures FirstVote(ms + [m], hash, guardian) ==
            if FirstVote(ms, hash, guardian) < |ms| then FirstVote(ms, hash, guardian)
            else if m.blockHash == hash && m.guardianAddress == guardian then |ms| else |ms| + 1
  {
    var i, all := FirstVote(ms, hash, guardian), ms + [m];
    var j := FirstVote(all, hash, guardian);
    assert forall k :: 0 <= k < |ms| ==> all[k] == ms[k];
    assert all[|ms|] == m;
  }

  /** The guardians of a group, in its order. */
  function Voters(ms: seq<DepositMessage>, hash: string): seq<string> {
    Keys(GroupFor(Grouped(ms), hash))
  }

  /** They are those with a first vote. */
  lemma VotersVoted(ms: seq<DepositMessage>, hash: string, x: string)
    ensures x in Voters(ms, hash) <==> FirstVote(ms, hash, x) < |ms|
  {
    GroupKeys(ms, hash, GroupFor(Grouped(ms), hash));
    if x in Guardians(ms, hash) {
      var m :| m in ms && m.blockHash == hash && m.guardianAddress == x;
      var i :| 0 <= i < |ms| && ms[i] == m;
    }
    var i := FirstVote(ms, hash, x);
    assert i < |ms| ==> ms[i] in ms;
  }

  /** A new guardian's first vote puts it last. */
  lemma VotersSnoc(ms: seq<DepositMessage>, m: DepositMessage, hash: string)
    ensures Voters(ms + [m], hash) == if m.blockHash == hash && m.guardianAddress !in Voters(ms, hash)
                                      then Voters(ms, hash) + [m.guardianAddress] else Voters(ms, hash)
  {
    var d := Grouped(ms);
    assert (ms + [m])[..|ms|] == ms;
    LookupPut(d, m.blockHash, Put(GroupFor(d, m.blockHash), m.guardianAddress, m), hash);
    PutKeys(GroupFor(d, hash), m.guardianAddress, m);
  }

  /** The keys of a group stand in the order of these first votes. */
  lemma {:induction false} VotersOrdered(ms: seq<DepositMessage>, hash: string, i: nat, j: nat)
    requires i < j < |Voters(ms, hash)|
    ensures FirstVote(ms, hash, Voters(ms, hash)[i]) < FirstVote(ms, hash, Voters(ms, hash)[j])
    decreases |ms|
  {
    var init, m := ms[..|ms| - 1], ms[|ms| - 1];
    assert ms == init + [m];
    VotersSnoc(init, m, hash);
    FirstVoteSnoc(init, m, hash, Voters(ms, hash)[i]);
    FirstVoteSnoc(init, m, hash, Voters(ms, hash)[j]);
    VotersVoted(init, hash, Voters(ms, hash)[i]);
    VotersVoted(init, hash, Voters(ms, hash)[j]);
    if j < |Voters(init, hash)| {
      VotersOrdered(init, hash, i, j);
    }
  }

  lemma {:induction false} DistinctCount(ks: seq<string>)
    requires forall i, j :: 0 <= i < j < |ks| ==> ks[i] != ks[j]
    ensures |set x | x in ks| == |ks|
  {
    if ks != [] {
      DistinctCount(ks[1..]);
      assert (set x | x in ks) == {ks[0]} + set x | x in ks[1..];
    }
  }

  /** The i-th group belongs to the i-th hash: its size counts that hash's guardians, and its values
      are their last messages, in the order of their first ones. */
  lemma GroupMeaning(ms: seq<DepositMessage>, i: nat)
    requires i < |Hashes(ms)|
    ensures |Grouped(ms)| == |Hashes(ms)|
    ensures var g := Grouped(ms)[i].1;
            && |g| == |Guardians(ms, Hashes(ms)[i])|
            && LastPerGuardian(ms, Hashes(ms)[i], Values(g)) && InVoteOrder(ms, Hashes(ms)[i], Values(g))
  {
    var d := Grouped(ms);
    GroupedKeys(ms);
    LookupAt(d, i);
    GroupedShape(ms, d[i].0);
    GroupSize(ms, d[i].0, d[i].1);
    GroupVotes(ms, d[i].0, d[i].1);
  }

  lemma GroupVotes(ms: seq<DepositMessage>, hash: string, g: Group)
    requires g == GroupFor(Grouped(ms), hash) && GroupShape(g)
    ensures InVoteOrder(ms, hash, Values(g))
  {
    var chosen := Values(g);
    forall i, j | 0 <= i < j < |chosen|
      ensures FirstVote(ms, hash, chosen[i].guardianAddress) < FirstVote(ms, hash, chosen[j].guardianAddress)
    {
      VotersOrdered(ms, hash, i, j);
      assert Keys(g)[i] == chosen[i].guardianAddress && Keys(g)[j] == chosen[j].guardianAddress;
    }
  }

  /** A message standing before the first one of the k-th hash, or any message when k is past the last
      hash, has a hash that comes before the k-th. */
  lemma EarlierHash(ms: seq<DepositMessage>, k: nat, i: nat) returns (j: nat)
    requires i < |ms| && k <= |Hashes(ms)|
    requires k < |Hashes(ms)| ==> i < FirstIndex(ms, Hashes(ms)[k])
    ensures j < k && Hashes(ms)[j] == ms[i].blockHash
  {
    var hash := ms[i].blockHash;
    HashesOccur(ms, hash);
    j :| 0 <= j < |Hashes(ms)| && Hashes(ms)[j] == hash;
    if k < j {
      HashesOrdered(ms, k, j);
    }
  }

  /** No block hash that occurs among the messages has q distinct guardians. */
  ghost predicate NoQuorum(ms: seq<DepositMessage>, q: int) {
    forall i :: 0 <= i < |ms| ==> |Guardians(ms, ms[i].blockHash)| < q
  }

  /** `chosen` is the quorum for the first-appearing block hash that q distinct guardians signed: the last
      message of each, in the order of their first ones. */
  ghost predicate IsQuorum(ms: seq<DepositMessage>, q: int, hash: string, chosen: seq<DepositMessage>) {
    && FirstIndex(ms, hash) < |ms|
    && |chosen| == |Guardians(ms, hash)| >= q
    && LastPerGuardian(ms, hash, chosen) && InVoteOrder(ms, hash, chosen)
    && forall i :: 0 <= i < FirstIndex(ms, hash) ==> |Guardians(ms, ms[i].blockHash)| < q
  }

  lemma {:induction false} FirstLargeMeaning(groups: seq<Group>, q: int, i: nat) returns (k: nat)
    requires i <= |groups|
    ensures i <= k <= |groups|
    ensures forall j :: i <= j < k ==> |groups[j]| < q
    ensures k < |groups| ==> |groups[k]| >= q
    ensures FirstLarge(groups, q, i) == if k < |groups| then Some(Values(groups[k])) else None
    decreases |groups| - i
  {
    if i == |groups| || |groups[i]| >= q {
      k := i;
    } else {
      k := FirstLargeMeaning(groups, q, i + 1);
    }
  }

  /** The groups before the k-th are too small, so the hashes seen before it are no quorum. */
  lemma TooFewBefore(ms: seq<DepositMessage>, q: int, k: nat, i: nat)
    requires i < |ms| && k <= |Hashes(ms)| == |Grouped(ms)|
    requires forall j :: 0 <= j < k ==> |Grouped(ms)[j].1| < q
    requires k < |Hashes(ms)| ==> i < FirstIndex(ms, Hashes(ms)[k])
    ensures |Guardians(ms, ms[i].blockHash)| < q
  {
    var j := EarlierHash(ms, k, i);
    GroupMeaning(ms, j);
  }

  /** A selected group is the quorum of its hash, and not empty. */
  lemma SelectedIsQuorum(ms: seq<DepositMessage>, q: int, k: nat)
    requires k < |Hashes(ms)| == |Grouped(ms)|
    requires |Grouped(ms)[k].1| >= q && forall j :: 0 <= j < k ==> |Grouped(ms)[j].1| < q
    ensures IsQuorum(ms, q, Hashes(ms)[k], Values(Grouped(ms)[k].1)) && Grouped(ms)[k].1 != []
  {
    var hash := Hashes(ms)[k];
    GroupMeaning(ms, k);
    assert hash in Hashes(ms);
    HashesOccur(ms, hash);
    var first := ms[FirstIndex(ms, hash)];
    assert first in ms && first.guardianAddress in Guardians(ms, hash);
    forall i | 0 <= i < FirstIndex(ms, hash)
      ensures |Guardians(ms, ms[i].blockHash)| < q
    {
      TooFewBefore(ms, q, k, i);
    }
  }

  /** The selection refines its declarative meaning, for every required number q: nothing exactly when
      no hash has q guardians, and otherwise a quorum, never empty. */
  lemma SelectionMeaning(ms: seq<DepositMessage>, q: int) returns (hash: string)
    ensures SelectedQuorum(ms, q).None? <==> NoQuorum(ms, q)
    ensures SelectedQuorum(ms, q).Some? ==> IsQuorum(ms, q, hash, SelectedQuorum(ms, q).value)
    ensures SelectedQuorum(ms, q).Some? ==> SelectedQuorum(ms, q).value != []
  {
    GroupedKeys(ms);
    var groups := Values(Grouped(ms));
    var k := FirstLargeMeaning(groups, q, 0);
    hash := "";
    if k < |groups| {
      hash := Hashes(ms)[k];
      SelectedIsQuorum(ms, q, k);
    } else {
      forall i | 0 <= i < |ms|
        ensures |Guardians(ms, ms[i].blockHash)| < q
      {
        TooFewBefore(ms, q, k, i);
      }
    }
  }

  /** So the first message of a quorum, whose payload is sent, is the last vote of the guardian who was the
      first to vote for the hash. */
  lemma FirstOfQuorum(ms: seq<DepositMessage>, q: int, hash: string, chosen: seq<DepositMessage>)
    requires IsQuorum(ms, q, hash, chosen)
    ensures chosen != [] && LastOf(ms, hash, ms[FirstIndex(ms, hash)].guardianAddress) == Some(chosen[0])
  {
    var first := FirstIndex(ms, hash);
    var g := ms[first].guardianAddress;
    assert ms[first] in ms && g in Guardians(ms, hash);
    var i :| 0 <= i < |chosen| && chosen[i].guardianAddress == g;
    assert FirstVote(ms, hash, g) == first;
    assert FirstVote(ms, hash, chosen[0].guardianAddress) >= first by {
      LastOfIff(ms, hash, chosen[0].guardianAddress);
      VoteNotEarlier(ms, hash, chosen[0].guardianAddress);
    }
  }

  lemma VoteNotEarlier(ms: seq<DepositMessage>, hash: string, guardian: string)
    requires FirstIndex(ms, hash) < |ms|
    ensures FirstVote(ms, hash, guardian) >= FirstIndex(ms, hash)
  {
  }
}
