/** The merges of the replicated data types, and where they are semilattices. */
module Crdts {
  import opened Basics
  import opened Folds
  import opened AntiEntropies

  // ---- counters ----

  /** Per-replica counts; a missing entry counts zero. Increments are never negative. */
  type Counts = map<int, nat>

  function Get(c: Counts, k: int): nat { if k in c then c[k] else 0 }

  /** The entrywise maximum over the union of the keys. */
  function MergeCounts(a: Counts, b: Counts): (m: Counts)
    ensures m.Keys == a.Keys + b.Keys
    ensures forall k :: Get(m, k) == Max(Get(a, k), Get(b, k))
  {
    map k | k in a.Keys + b.Keys :: Max(Get(a, k), Get(b, k))
  }

  lemma {:induction false} SameCounts(a: Counts, b: Counts)
    requires a.Keys == b.Keys && forall k :: Get(a, k) == Get(b, k)
    ensures a == b
  {
    forall k | k in a ensures a[k] == b[k] { assert Get(a, k) == Get(b, k); }
  }

  /** GCounter: merge is associative, commutative and idempotent. */
  lemma {:induction false} GCounterLaws()
    ensures Semilattice(MergeCounts)
  {
    hide MergeCounts;
    forall a: Counts, b: Counts, c: Counts ensures MergeCounts(MergeCounts(a, b), c) == MergeCounts(a, MergeCounts(b, c)) {
      SameCounts(MergeCounts(MergeCounts(a, b), c), MergeCounts(a, MergeCounts(b, c)));
    }
    forall a: Counts, b: Counts ensures MergeCounts(a, b) == MergeCounts(b, a) {
      SameCounts(MergeCounts(a, b), MergeCounts(b, a));
    }
    forall a: Counts ensures MergeCounts(a, a) == a {
      SameCounts(MergeCounts(a, a), a);
    }
  }

  datatype PNCounter = PNCounter(positive: Counts, negative: Counts)

  function MergePN(a: PNCounter, b: PNCounter): (m: PNCounter)
  {
    PNCounter(MergeCounts(a.positive, b.positive), MergeCounts(a.negative, b.negative))
  }

  lemma {:induction false} PNCounterLaws()
    ensures Semilattice(MergePN)
  {
    hide MergeCounts;
    GCounterLaws();
    assert forall a: PNCounter, b: PNCounter, c: PNCounter :: MergePN(MergePN(a, b), c) == MergePN(a, MergePN(b, c));
  }

  // ---- sets ----

  function MergeSets<T(==)>(a: set<T>, b: set<T>): set<T> { a + b }

  lemma {:induction false} GSetLaws<T(!new)>()
    ensures Semilattice<set<T>>(MergeSets)
  {
    assert forall a: set<T>, b: set<T>, c: set<T> :: MergeSets(MergeSets(a, b), c) == MergeSets(a, MergeSets(b, c));
    assert forall a: set<T>, b: set<T> :: MergeSets(a, b) == MergeSets(b, a);
    assert forall a: set<T> :: MergeSets(a, a) == a;
  }

  /** A tag is a replica's name and the value its counter had. */
  datatype Tag = Tag(replica: nat, number: nat)

  datatype ORSet<E(==)> = ORSet(adds: set<(E, Tag)>, removed: set<Tag>, counter: nat)

  function MergeOR<E(==)>(a: ORSet<E>, b: ORSet<E>): ORSet<E>
  {
    ORSet(a.adds + b.adds, a.removed + b.removed, Max(a.counter, b.counter))
  }

  lemma {:induction false} ORSetLaws<E(!new)>()
    ensures Semilattice<ORSet<E>>(MergeOR)
  {
    forall a: ORSet<E>, b: ORSet<E>, c: ORSet<E> ensures MergeOR(MergeOR(a, b), c) == MergeOR(a, MergeOR(b, c)) {
      assert (a.adds + b.adds) + c.adds == a.adds + (b.adds + c.adds);
      assert (a.removed + b.removed) + c.removed == a.removed + (b.removed + c.removed);
    }
    forall a: ORSet<E>, b: ORSet<E> ensures MergeOR(a, b) == MergeOR(b, a) {
      assert a.adds + b.adds == b.adds + a.adds && a.removed + b.removed == b.removed + a.removed;
    }
    forall a: ORSet<E> ensures MergeOR(a, a) == a {
      assert a.adds + a.adds == a.adds && a.removed + a.removed == a.removed;
    }
  }

  // ---- last-writer-wins register ----

  datatype Policy = Lamport | WallClock | VersionVector

  /** Writers and values stand for their places in the orders of names and of canonical texts. */
  datatype Register = Register(value: int, timestamp: int, writer: int, version: Counts)

  /** Later in the total order: timestamp, then writer, then canonical value. */
  predicate Later(a: Register, b: Register) {
    if a.timestamp != b.timestamp then a.timestamp > b.timestamp
    else if a.writer != b.writer then a.writer > b.writer
    else a.value > b.value
  }

  /** The version vector is at least the other everywhere and above it somewhere. */
  predicate VersionAbove(a: Register, b: Register) {
    && (forall k | k in a.version.Keys + b.version.Keys :: Get(a.version, k) >= Get(b.version, k))
    && (exists k | k in a.version.Keys + b.version.Keys :: Get(a.version, k) > Get(b.version, k))
  }

  /** The source's test, with its fall-through: a dominated register is still compared by timestamp. */
  predicate Dominates(policy: Policy, a: Register, b: Register) {
    (policy == VersionVector && VersionAbove(a, b)) || Later(a, b)
  }

  function MergeRegisters(policy: Policy, a: Register, b: Register): (m: Register)
  {
    var win := if Dominates(policy, a, b) then a else b;
    Register(win.value, win.timestamp, win.writer, MergeCounts(a.version, b.version))
  }

  /** With a clock policy the merge is a semilattice. */
  lemma {:induction false} ClockRegisterLaws(policy: Policy)
    requires policy != VersionVector
    ensures Semilattice((a: Register, b: Register) => MergeRegisters(policy, a, b))
  {
    hide MergeCounts;
    GCounterLaws();
    var merge := (a: Register, b: Register) => MergeRegisters(policy, a, b);
    forall a: Register, b: Register, c: Register ensures merge(merge(a, b), c) == merge(a, merge(b, c)) {
      assert MergeCounts(MergeCounts(a.version, b.version), c.version) == MergeCounts(a.version, MergeCounts(b.version, c.version));
    }
    forall a: Register, b: Register ensures merge(a, b) == merge(b, a) {
      assert MergeCounts(a.version, b.version) == MergeCounts(b.version, a.version);
    }
    forall a: Register ensures merge(a, a) == a {
      assert MergeCounts(a.version, a.version) == a.version;
    }
  }

  /** Every policy's merge absorbs, so a sweep converges for all of them, also where the merge does not commute. */
  lemma {:induction false} RegistersAbsorb(policy: Policy)
    ensures Absorbing((a: Register, b: Register) => MergeRegisters(policy, a, b))
  {
    hide MergeCounts;
    GCounterLaws();
    SemilatticeAbsorbs(MergeCounts);
    var merge := (a: Register, b: Register) => MergeRegisters(policy, a, b);
    forall a: Register ensures merge(a, a) == a { assert MergeCounts(a.version, a.version) == a.version; }
    forall a: Register, b: Register ensures merge(a, merge(a, b)) == merge(a, b) {
      var m := merge(a, b);
      assert MergeCounts(a.version, m.version) == m.version;
      NotAboveMerged(a, m, b);
    }
  }

  lemma {:induction false} NotAboveMerged(a: Register, m: Register, b: Register)
    requires m.version == MergeCounts(a.version, b.version)
    ensures !VersionAbove(a, m)
  {
    forall k ensures Get(a.version, k) <= Get(m.version, k) {}
  }

  /** A register that dominates by version although it comes earlier in the total order. */
  predicate OrdersClash(a: Register, b: Register) { VersionAbove(a, b) && Later(b, a) }

  /** With the version-vector policy two registers merge to the same register from both sides exactly when the orders do not clash. */
  lemma {:induction false} VersionMergeCommutesIff(a: Register, b: Register)
    ensures MergeRegisters(VersionVector, a, b) == MergeRegisters(VersionVector, b, a) <==> !OrdersClash(a, b) && !OrdersClash(b, a)
  {
    hide MergeCounts;
    GCounterLaws();
    assert MergeCounts(a.version, b.version) == MergeCounts(b.version, a.version);
    if VersionAbove(a, b) && VersionAbove(b, a) {
      VersionAboveIsStrict(a, b);
    }
  }

  lemma {:induction false} VersionAboveIsStrict(a: Register, b: Register)
    requires VersionAbove(a, b)
    ensures !VersionAbove(b, a)
  {
    var k :| k in a.version.Keys + b.version.Keys && Get(a.version, k) > Get(b.version, k);
    assert k in b.version.Keys + a.version.Keys;
  }

  /** The clash is real: one replica writes with an explicit earlier timestamp after having seen a later one. */
  lemma {:induction false} VersionMergeClashes()
    ensures var first := Register(7, 5, 1, map[1 := 5]);
      var second := Register(8, 1, 2, map[1 := 5, 2 := 1]);
      && OrdersClash(second, first)
      && MergeRegisters(VersionVector, first, second).value == 7
      && MergeRegisters(VersionVector, second, first).value == 8
  {
    var first := Register(7, 5, 1, map[1 := 5]);
    var second := Register(8, 1, 2, map[1 := 5, 2 := 1]);
    assert 2 in second.version.Keys + first.version.Keys && Get(second.version, 2) > Get(first.version, 2);
    VersionAboveIsStrict(second, first);
  }

  // ---- which write a register keeps ----

  /** Written later: a greater timestamp, then a greater writer, then a greater canonical value. */
  predicate Outdoes(a: Register, b: Register) {
    || a.timestamp > b.timestamp
    || (a.timestamp == b.timestamp && a.writer > b.writer)
    || (a.timestamp == b.timestamp && a.writer == b.writer && a.value > b.value)
  }

  predicate SameWrite(a: Register, b: Register) {
    a.value == b.value && a.timestamp == b.timestamp && a.writer == b.writer
  }

  /** The version counts at least as much everywhere, and more somewhere. */
  ghost predicate Ahead(a: Register, b: Register) {
    (forall k :: Get(a.version, k) >= Get(b.version, k)) && exists k :: Get(a.version, k) > Get(b.version, k)
  }

  lemma {:induction false} AheadIsAbove(a: Register, b: Register)
    ensures Ahead(a, b) <==> VersionAbove(a, b)
  {
    forall k | k !in a.version.Keys + b.version.Keys ensures Get(a.version, k) == Get(b.version, k) == 0 {}
    if Ahead(a, b) {
      var k :| Get(a.version, k) > Get(b.version, k);
      assert k in a.version.Keys + b.version.Keys;
    }
  }

  /** What the merge of two registers keeps: the write of the left one if, under the version-vector policy, its version
      is ahead; else the later write of the two. The versions are merged entry by entry. */
  lemma {:induction false} MergeKeeps(policy: Policy, a: Register, b: Register)
    ensures var m := MergeRegisters(policy, a, b);
      && (SameWrite(m, a) || SameWrite(m, b))
      && (policy == VersionVector && Ahead(a, b) ==> SameWrite(m, a))
      && (!(policy == VersionVector && Ahead(a, b)) ==> !Outdoes(a, m) && !Outdoes(b, m))
      && m.version.Keys == a.version.Keys + b.version.Keys
      && (forall k :: Get(m.version, k) == Max(Get(a.version, k), Get(b.version, k)))
  {
    AheadIsAbove(a, b);
  }

  /** The state has the latest write of the list and the entrywise maximum of its versions. */
  ghost predicate LatestOf(s: Register, states: seq<Register>) {
    && (exists i | 0 <= i < |states| :: SameWrite(s, states[i]))
    && (forall i | 0 <= i < |states| :: !Outdoes(states[i], s))
    && (forall k, i | 0 <= i < |states| :: Get(s.version, k) >= Get(states[i].version, k))
    && (forall k :: exists i | 0 <= i < |states| :: Get(s.version, k) == Get(states[i].version, k))
  }

  lemma {:induction false} FoldIsLatest(policy: Policy, states: seq<Register>)
    requires policy != VersionVector && states != []
    ensures LatestOf(Fold((a: Register, b: Register) => MergeRegisters(policy, a, b), states), states)
    decreases |states|
  {
    var merge := (a: Register, b: Register) => MergeRegisters(policy, a, b);
    if |states| > 1 {
      var n := |states| - 1;
      var before := Fold(merge, states[..n]);
      FoldIsLatest(policy, states[..n]);
      MergeKeeps(policy, before, states[n]);
      assert Fold(merge, states) == MergeRegisters(policy, before, states[n]);
      LatestSnoc(before, states, MergeRegisters(policy, before, states[n]));
    } else {
      assert SameWrite(states[0], states[0]);
    }
  }

  lemma {:induction false} LatestSnoc(before: Register, states: seq<Register>, m: Register)
    requires |states| > 1 && LatestOf(before, states[..|states| - 1])
    requires SameWrite(m, before) || SameWrite(m, states[|states| - 1])
    requires !Outdoes(before, m) && !Outdoes(states[|states| - 1], m)
    requires forall k :: Get(m.version, k) == Max(Get(before.version, k), Get(states[|states| - 1].version, k))
    ensures LatestOf(m, states)
  {
    var n := |states| - 1;
    if SameWrite(m, before) {
      var i :| 0 <= i < n && SameWrite(before, states[..n][i]);
      assert SameWrite(m, states[i]);
    }
    forall i | 0 <= i < |states| ensures !Outdoes(states[i], m) {
      if i < n { assert !Outdoes(states[..n][i], before); }
    }
    forall k, i | 0 <= i < |states| ensures Get(m.version, k) >= Get(states[i].version, k) {
      if i < n { assert Get(before.version, k) >= Get(states[..n][i].version, k); }
    }
    forall k ensures exists i | 0 <= i < |states| :: Get(m.version, k) == Get(states[i].version, k) {
      var i :| 0 <= i < n && Get(before.version, k) == Get(states[..n][i].version, k);
      assert Get(m.version, k) == Get(states[i].version, k) || Get(m.version, k) == Get(states[n].version, k);
    }
  }

  /** Under a clock policy, after one sweep every replica holds the latest write of all replicas. */
  lemma {:induction false} SweepKeepsLatest(policy: Policy, states: seq<Register>, r: nat)
    requires policy != VersionVector && r < |states|
    ensures LatestOf(Sweep((a: Register, b: Register) => MergeRegisters(policy, a, b), states, 0, 1)[r], states)
  {
    hide LatestOf, MergeRegisters, Sweep;
    RegistersAbsorb(policy);
    SweepReachesJoin((a: Register, b: Register) => MergeRegisters(policy, a, b), states);
    FoldIsLatest(policy, states);
  }
}
