/** Pairwise anti-entropy over replicas of a state-based replicated data type. */
module AntiEntropies {
  import opened Basics
  import opened Folds

  // ---- laws of a merge ----

  ghost predicate Semilattice<S(!new)>(merge: (S, S) -> S) {
    Associative(merge) && Commutative(merge) && forall s :: merge(s, s) == s
  }

  ghost predicate Below<S(!new)>(merge: (S, S) -> S, x: S, y: S) { merge(x, y) == y }

  /** The join of a list of states is an upper bound of each of them. */
  lemma {:induction false} JoinIsAbove<S(!new)>(merge: (S, S) -> S, states: seq<S>, i: nat)
    requires Semilattice(merge) && i < |states|
    ensures Below(merge, states[i], Fold(merge, states))
  {
    var x := states[i];
    if |states| > 1 {
      FoldExtract(merge, states, i);
      var rest := Fold(merge, states[..i] + states[i + 1..]);
      assert merge(x, merge(rest, x)) == merge(x, merge(x, rest)) == merge(merge(x, x), rest) == merge(rest, x);
    }
  }

  /** What one sweep needs of a merge: it is idempotent, and merging a state once more into a merge it began adds
      nothing. */
  ghost predicate Absorbing<S(!new)>(merge: (S, S) -> S) {
    (forall s :: merge(s, s) == s) && forall x, y :: merge(x, merge(x, y)) == merge(x, y)
  }

  lemma {:induction false} SemilatticeAbsorbs<S(!new)>(merge: (S, S) -> S)
    requires Semilattice(merge)
    ensures Absorbing(merge)
  {
    forall x, y ensures merge(x, merge(x, y)) == merge(x, y) { assert merge(merge(x, x), y) == merge(x, merge(x, y)); }
  }

  // ---- one sweep over all pairs ----

  /** Both partners of an exchange end with the merge. */
  function SyncAt<S>(merge: (S, S) -> S, states: seq<S>, i: nat, j: nat): (next: seq<S>)
    requires i < j < |states|
    ensures |next| == |states|
  {
    var m := merge(states[i], states[j]);
    states[i := m][j := m]
  }

  /** The rest of the lexicographic sweep, from pair (i, j) on. */
  function Sweep<S>(merge: (S, S) -> S, states: seq<S>, i: nat, j: nat): (next: seq<S>)
    requires i < j
    ensures |next| == |states|
    decreases |states| - i, |states| - j
  {
    if i + 1 >= |states| then states
    else if j >= |states| then Sweep(merge, states, i + 1, i + 2)
    else Sweep(merge, SyncAt(merge, states, i, j), i, j + 1)
  }

  ghost predicate AllAt<S>(states: seq<S>, s: S) { forall k | 0 <= k < |states| :: states[k] == s }

  /** The merge of the first k states, in order. */
  function Prefix<S>(merge: (S, S) -> S, init: seq<S>, k: nat): S
    requires 1 <= k <= |init|
  {
    Fold(merge, init[..k])
  }

  lemma {:induction false} PrefixStep<S>(merge: (S, S) -> S, init: seq<S>, k: nat)
    requires 1 <= k < |init|
    ensures Prefix(merge, init, k + 1) == merge(Prefix(merge, init, k), init[k])
  {
    FoldSnoc(merge, init[..k], init[k]);
    assert init[..k] + [init[k]] == init[..k + 1];
  }

  /** Every prefix merged with the next longer one is that one. */
  ghost predicate Chain<S>(merge: (S, S) -> S, init: seq<S>) {
    forall k | 1 <= k < |init| :: merge(Prefix(merge, init, k), Prefix(merge, init, k + 1)) == Prefix(merge, init, k + 1)
  }

  lemma {:induction false} PrefixesChain<S(!new)>(merge: (S, S) -> S, init: seq<S>)
    requires Absorbing(merge)
    ensures Chain(merge, init)
  {
    hide Prefix;
    forall k | 1 <= k < |init|
      ensures merge(Prefix(merge, init, k), Prefix(merge, init, k + 1)) == Prefix(merge, init, k + 1)
    {
      PrefixStep(merge, init, k);
    }
  }

  /** In the rows after the first, replica k starts from the merge of the first k + 1 states, and every exchange meets
      two neighbouring prefixes. */
  lemma {:induction false} LaterRows<S>(merge: (S, S) -> S, init: seq<S>, states: seq<S>, i: nat, j: nat)
    requires Chain(merge, init) && |states| == |init| && 1 <= i < j <= |init|
    requires forall k | 0 <= k < i :: states[k] == Prefix(merge, init, |init|)
    requires states[i] == Prefix(merge, init, j)
    requires forall k | i < k < |init| :: states[k] == Prefix(merge, init, k + 1)
    ensures AllAt(Sweep(merge, states, i, j), Prefix(merge, init, |init|))
    decreases |init| - i, |init| - j
  {
    hide Prefix;
    if i + 1 < |init| {
      if j >= |init| {
        LaterRows(merge, init, states, i + 1, i + 2);
      } else {
        assert merge(states[i], states[j]) == Prefix(merge, init, j + 1);
        LaterRows(merge, init, SyncAt(merge, states, i, j), i, j + 1);
      }
    }
  }

  /** Row 0 collects everything in the first replica and leaves each prefix with the replica that completed it. */
  lemma {:induction false} FirstRow<S>(merge: (S, S) -> S, init: seq<S>, states: seq<S>, j: nat)
    requires Chain(merge, init) && |states| == |init| >= 2 && 1 <= j <= |init|
    requires states[0] == Prefix(merge, init, j)
    requires forall k | 1 <= k < j :: states[k] == Prefix(merge, init, k + 1)
    requires forall k | j <= k < |init| :: states[k] == init[k]
    ensures AllAt(Sweep(merge, states, 0, j), Prefix(merge, init, |init|))
    decreases |init| - j
  {
    hide Prefix;
    if j >= |init| {
      LaterRows(merge, init, states, 1, 2);
    } else {
      PrefixStep(merge, init, j);
      FirstRow(merge, init, SyncAt(merge, states, 0, j), j + 1);
    }
  }

  /** One lexicographic sweep of all pairs leaves every replica at the merge of all the states before it, in order. */
  lemma {:induction false} SweepReachesJoin<S(!new)>(merge: (S, S) -> S, states: seq<S>)
    requires Absorbing(merge) && states != []
    ensures AllAt(Sweep(merge, states, 0, 1), Fold(merge, states))
  {
    assert states[..|states|] == states && states[..1] == [states[0]];
    if |states| >= 2 {
      PrefixesChain(merge, states);
      FirstRow(merge, states, states, 1);
    }
  }

  ghost predicate SweepAgrees<S>(merge: (S, S) -> S, states: seq<S>) {
    states != [] ==> AllAt(Sweep(merge, states, 0, 1), Fold(merge, states))
  }

  /** For an idempotent merge, a sweep makes all replicas agree on the merge of all states, from any states, exactly
      when the merge absorbs. Neither commutativity nor associativity is needed. */
  lemma {:induction false} SweepAgreesIff<S(!new)>(merge: (S, S) -> S)
    requires forall s :: merge(s, s) == s
    ensures (forall states: seq<S> :: SweepAgrees(merge, states)) <==> Absorbing(merge)
  {
    if Absorbing(merge) {
      forall states: seq<S> ensures SweepAgrees(merge, states) {
        if states != [] { SweepReachesJoin(merge, states); }
      }
    }
    if forall states: seq<S> :: SweepAgrees(merge, states) {
      forall x, y ensures merge(x, merge(x, y)) == merge(x, y) {
        assert SweepAgrees(merge, [x, x, y]);
        SweepOfThree(merge, x, y);
      }
    }
  }

  lemma {:induction false} SweepOfThree<S>(merge: (S, S) -> S, x: S, y: S)
    requires merge(x, x) == x
    ensures Sweep(merge, [x, x, y], 0, 1)[1] == merge(x, merge(x, y))
    ensures Fold(merge, [x, x, y]) == merge(x, y)
  {
    var xy := merge(x, y);
    var s := SyncAt(merge, [x, x, y], 0, 1);
    assert s == [x, x, y];
    var t := SyncAt(merge, s, 0, 2);
    assert t == [xy, x, xy];
    var u := SyncAt(merge, t, 1, 2);
    assert Sweep(merge, u, 1, 3) == u;
    assert Sweep(merge, t, 0, 3) == Sweep(merge, t, 1, 2) == Sweep(merge, u, 1, 3);
    assert Sweep(merge, s, 0, 2) == Sweep(merge, t, 0, 3);
    FoldSnoc(merge, [x], x);
    FoldSnoc(merge, [x] + [x], y);
    assert [x] + [x] + [y] == [x, x, y];
  }

  /** The join of equal states is that state. */
  lemma {:induction false} JoinOfEqual<S(!new)>(merge: (S, S) -> S, states: seq<S>, s: S)
    requires Absorbing(merge) && states != [] && AllAt(states, s)
    ensures Fold(merge, states) == s
    decreases |states|
  {
    if |states| > 1 { JoinOfEqual(merge, states[..|states| - 1], s); }
  }

  // ---- the reconciler ----

  datatype SyncRecord<+H> = SyncRecord(round: nat, a: int, b: int, aBefore: H, bBefore: H, merged: H, changed: bool)

  datatype Report<+H> = Report(converged: bool, rounds: nat, finalHash: Option<H>)

  ghost predicate Listed<S>(replicas: map<int, S>, ids: seq<int>) { forall k | 0 <= k < |ids| :: ids[k] in replicas }

  ghost predicate Alike<S, H>(replicas: map<int, S>, hash: S -> H) {
    forall x, y | x in replicas && y in replicas :: hash(replicas[x]) == hash(replicas[y])
  }

  /** The states of the listed replicas, in listing order. */
  function StatesOf<S>(replicas: map<int, S>, ids: seq<int>): (states: seq<S>)
    requires Listed(replicas, ids)
    ensures |states| == |ids|
  {
    seq(|ids|, k requires 0 <= k < |ids| => replicas[ids[k]])
  }

  lemma {:induction false} SyncedStates<S>(merge: (S, S) -> S, replicas: map<int, S>, ids: seq<int>, i: nat, j: nat)
    requires Ascending(ids) && Listed(replicas, ids) && i < j < |ids|
    ensures var m := merge(replicas[ids[i]], replicas[ids[j]]);
      Listed(replicas[ids[i] := m][ids[j] := m], ids) &&
      StatesOf(replicas[ids[i] := m][ids[j] := m], ids) == SyncAt(merge, StatesOf(replicas, ids), i, j)
  {
  }

  /** Replica names are ranks; `hash` is the state hash by which the reconciler compares states. */
  class AntiEntropy<S(!new), H(==,!new)> {
    var replicas: map<int, S>
    var history: seq<SyncRecord<H>>
    const merge: (S, S) -> S
    const hash: S -> H

    constructor (replicas: map<int, S>, merge: (S, S) -> S, hash: S -> H)
      ensures this.replicas == replicas && this.merge == merge && this.hash == hash && history == []
    {
      this.replicas, this.merge, this.hash := replicas, merge, hash;
      history := [];
    }

    ghost function States(): (states: seq<S>)
      reads this
    {
      StatesOf(replicas, Sorted(replicas.Keys))
    }

    /** A symmetric exchange; refused when a name is not registered. */
    method Sync(a: int, b: int, round: nat) returns (record: Option<SyncRecord<H>>)
      modifies this
      ensures record.None? <==> a !in old(replicas) || b !in old(replicas)
      ensures record.None? ==> replicas == old(replicas) && history == old(history)
      ensures record.Some? ==>
        var x, y := old(replicas[a]), old(replicas[b]);
        && replicas == old(replicas)[a := merge(x, y)][b := merge(x, y)]
        && record.value == SyncRecord(round, a, b, hash(x), hash(y), hash(merge(x, y)),
             hash(x) != hash(merge(x, y)) || hash(y) != hash(merge(x, y)))
        && history == old(history) + [record.value]
    {
      if a !in replicas || b !in replicas {
        return None;
      }
      var ra, rb := replicas[a], replicas[b];
      var ha, hb := hash(ra), hash(rb);
      var merged := merge(ra, rb);
      var mh := hash(merged);
      replicas := replicas[a := merged];
      replicas := replicas[b := merged];
      var rec := SyncRecord(round, a, b, ha, hb, mh, ha != mh || hb != mh);
      history := history + [rec];
      return Some(rec);
    }

    /** One round: all pairs of ids in lexicographic order. */
    method SweepRound(ids: seq<int>, round: nat) returns (changed: bool)
      requires ids == Sorted(replicas.Keys)
      modifies this
      ensures replicas.Keys == old(replicas.Keys)
      ensures States() == Sweep(merge, old(States()), 0, 1)
      ensures forall s | AllAt(old(States()), s) && merge(s, s) == s :: !changed && States() == old(States())
    {
      hide Sorted, Ascending;
      changed := false;
      var n := |ids|;
      ghost var before := States();
      var i := 0;
      while i + 1 < n
        invariant replicas.Keys == old(replicas.Keys)
        invariant Sweep(merge, before, 0, 1) == Sweep(merge, States(), i, i + 1)
        invariant forall s | AllAt(before, s) && merge(s, s) == s :: !changed && States() == before
        decreases n - i
      {
        for j := i + 1 to n
          invariant replicas.Keys == old(replicas.Keys)
          invariant Sweep(merge, before, 0, 1) == Sweep(merge, States(), i, j)
          invariant forall s | AllAt(before, s) && merge(s, s) == s :: !changed && States() == before
        {
          SyncedStates(merge, replicas, ids, i, j);
          assert ids[i] in ids && ids[j] in ids;
          var was := replicas;
          ghost var now := States();
          var rec := Sync(ids[i], ids[j], round);
          assert replicas.Keys == was.Keys;
          assert States() == SyncAt(merge, now, i, j);
          changed := changed || rec.value.changed;
        }
        i := i + 1;
      }
    }

    /**
     * Rounds until one changes nothing. With at least one round every replica ends at the join of all the
     * initial states, the report says so, and no third round is ever run.
     */
    method Converge(maxRounds: nat) returns (report: Report<H>)
      requires Absorbing(merge)
      modifies this
      ensures replicas.Keys == old(replicas.Keys)
      ensures |replicas| >= 2 && maxRounds >= 1 ==>
        report.converged && 1 <= report.rounds <= Min(2, maxRounds) && AllAt(States(), Fold(merge, old(States())))
      ensures |replicas| < 2 || maxRounds == 0 ==> replicas == old(replicas) && report.rounds == 0
      ensures report.converged <==> Alike(replicas, hash)
      ensures report.finalHash.Some? ==> report.converged && forall x | x in replicas :: report.finalHash == Some(hash(replicas[x]))
    {
      hide Absorbing, Sorted;
      var ids := Sorted(replicas.Keys);
      if |ids| < 2 {
        OnlyOne(replicas, ids);
        return Report(true, 0, if |ids| == 1 then Some(hash(replicas[ids[0]])) else None);
      }
      ghost var top := Fold(merge, States());
      var rounds, stop := 0, false;
      while rounds < maxRounds && !stop
        invariant replicas.Keys == old(replicas.Keys) && Sorted(replicas.Keys) == ids
        invariant rounds <= maxRounds && rounds <= 2 && (rounds == 2 ==> stop)
        invariant rounds == 0 ==> replicas == old(replicas) && !stop
        invariant rounds >= 1 ==> AllAt(States(), top)
        decreases maxRounds - rounds
      {
        ghost var before := States();
        var changed := SweepRound(ids, rounds);
        SweepReachesJoin(merge, before);
        if rounds == 1 {
          JoinOfEqual(merge, before, top);
          SelfMerge(merge, top);
        }
        var same := SameHashes(ids);
        AllSame(replicas, ids, top, hash);
        if same && !changed {
          stop := true;
        }
        rounds := rounds + 1;
      }
      var same := SameHashes(ids);
      if rounds >= 1 { AllSame(replicas, ids, top, hash); }
      return Report(same, rounds, if same then Some(hash(replicas[ids[0]])) else None);
    }

    /** Whether all replicas hash alike. */
    method SameHashes(ids: seq<int>) returns (same: bool)
      requires ids == Sorted(replicas.Keys) && |ids| >= 1
      ensures same <==> Alike(replicas, hash)
    {
      hide Sorted, Ascending;
      same := true;
      ghost var other := 0;
      assert forall x :: x in ids <==> x in replicas;
      assert ids[0] in ids;
      var first := hash(replicas[ids[0]]);
      for k := 0 to |ids|
        invariant same ==> forall x | 0 <= x < k :: ids[x] in replicas && hash(replicas[ids[x]]) == first
        invariant !same ==> other in replicas && hash(replicas[other]) != first
      {
        assert ids[k] in ids;
        if hash(replicas[ids[k]]) != first {
          same, other := false, ids[k];
        }
      }
      if same {
        forall x | x in replicas ensures hash(replicas[x]) == first {
          assert x in ids;
        }
      } else {
        Unlike(replicas, hash, other, ids[0]);
      }
    }
  }

  lemma {:induction false} Unlike<S, H>(replicas: map<int, S>, hash: S -> H, x: int, y: int)
    requires x in replicas && y in replicas && hash(replicas[x]) != hash(replicas[y])
    ensures !Alike(replicas, hash)
  {
  }

  lemma {:induction false} SelfMerge<S(!new)>(merge: (S, S) -> S, s: S)
    requires Absorbing(merge)
    ensures merge(s, s) == s
  {
  }

  lemma {:induction false} AllSame<S, H>(replicas: map<int, S>, ids: seq<int>, s: S, hash: S -> H)
    requires ids == Sorted(replicas.Keys)
    ensures AllAt(StatesOf(replicas, ids), s) ==> forall x | x in replicas :: hash(replicas[x]) == hash(s)
  {
    if AllAt(StatesOf(replicas, ids), s) {
      forall x | x in replicas ensures replicas[x] == s {
        assert x in ids;
        var k :| 0 <= k < |ids| && ids[k] == x;
        assert StatesOf(replicas, ids)[k] == s;
      }
    }
  }

  lemma {:induction false} OnlyOne<S>(replicas: map<int, S>, ids: seq<int>)
    requires ids == Sorted(replicas.Keys) && |ids| < 2
    ensures |ids| == |replicas.Keys|
    ensures forall x | x in replicas :: |ids| == 1 && x == ids[0]
  {
    forall x | x in replicas ensures |ids| == 1 && x == ids[0] {
      assert x in ids;
    }
  }
}
