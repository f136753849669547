/**
 * Runs of an observed-remove set: replicas add, remove and exchange states in any order. What a replica
 * contains is explained by which updates have reached it, not by tags.
 */
module ObservedRemove {
  import opened Basics
  import opened Folds
  import opened AntiEntropies
  import opened Crdts

  // ---- operations ----

  /** A local add mints a tag from the replica's name and its counter. */
  function Added<E(==)>(s: ORSet<E>, replica: nat, e: E): ORSet<E> {
    ORSet(s.adds + {(e, Tag(replica, s.counter + 1))}, s.removed, s.counter + 1)
  }

  function TagsOf<E(==)>(s: ORSet<E>, e: E): (tags: set<Tag>)
    ensures forall t :: t in tags <==> (e, t) in s.adds
  {
    set p | p in s.adds && p.0 == e :: p.1
  }

  /** A local remove marks the tags of the element that are here now. */
  function Removed<E(==)>(s: ORSet<E>, e: E): ORSet<E> {
    s.(removed := s.removed + TagsOf(s, e))
  }

  ghost predicate Contains<E>(s: ORSet<E>, e: E) { exists t :: (e, t) in s.adds && t !in s.removed }

  class Replica<E(==)> {
    const name: nat
    var state: ORSet<E>

    constructor (name: nat)
      ensures this.name == name && state == ORSet({}, {}, 0)
    {
      this.name := name;
      state := ORSet({}, {}, 0);
    }

    method Add(e: E) returns (tag: Tag)
      modifies this
      ensures state == Added(old(state), name, e)
      ensures (e, tag) in state.adds && tag == Tag(name, old(state).counter + 1)
    {
      state := state.(counter := state.counter + 1);
      tag := Tag(name, state.counter);
      state := state.(adds := state.adds + {(e, tag)});
    }

    method Remove(e: E) returns (tags: set<Tag>)
      modifies this
      ensures state == Removed(old(state), e) && tags == TagsOf(old(state), e)
    {
      tags := TagsOf(state, e);
      state := state.(removed := state.removed + tags);
    }

    method Merge(other: ORSet<E>)
      modifies this
      ensures state == MergeOR(old(state), other)
    {
      state := ORSet(state.adds + other.adds, state.removed + other.removed, Max(state.counter, other.counter));
    }
  }

  // ---- runs ----

  datatype Event<E> = Add(r: nat, e: E) | Remove(r: nat, e: E) | Sync(a: nat, b: nat) {
    predicate Valid(n: nat) { if Sync? then a < n && b < n && a != b else r < n }
  }

  ghost predicate ValidRun<E>(run: seq<Event<E>>, n: nat) { forall i | 0 <= i < |run| :: run[i].Valid(n) }

  function Step<E(==)>(states: seq<ORSet<E>>, ev: Event<E>): (next: seq<ORSet<E>>)
    requires ev.Valid(|states|)
    ensures |next| == |states|
  {
    match ev
    case Add(r, e) => states[r := Added(states[r], r, e)]
    case Remove(r, e) => states[r := Removed(states[r], e)]
    case Sync(a, b) => var m := MergeOR(states[a], states[b]); states[a := m][b := m]
  }

  /** The replicas' states after a run from empty replicas. */
  function After<E(==)>(run: seq<Event<E>>, n: nat): (states: seq<ORSet<E>>)
    requires ValidRun(run, n)
    ensures |states| == n
  {
    if run == [] then seq(n, _ => ORSet({}, {}, 0))
    else Step(After(run[..|run| - 1], n), run[|run| - 1])
  }

  /** The updates that have reached replica r: its own, and whatever its partners knew at each exchange. */
  ghost function Known<E>(run: seq<Event<E>>, r: nat): (k: set<nat>)
    ensures forall i | i in k :: i < |run| && !run[i].Sync?
  {
    if run == [] then {}
    else
      var last, front := |run| - 1, run[..|run| - 1];
      match run[last]
      case Add(q, _) => if q == r then Known(front, r) + {last} else Known(front, r)
      case Remove(q, _) => if q == r then Known(front, r) + {last} else Known(front, r)
      case Sync(a, b) => if r == a || r == b then Known(front, a) + Known(front, b) else Known(front, r)
  }

  ghost predicate IsAdd<E>(run: seq<Event<E>>, i: nat, e: E) { i < |run| && run[i].Add? && run[i].e == e }

  /** Remove j saw add i of the same element: it had reached the removing replica before. */
  ghost predicate Observes<E>(run: seq<Event<E>>, j: nat, i: nat) {
    j < |run| && run[j].Remove? && i in Known(run[..j], run[j].r) && run[i].Add? && run[i].e == run[j].e
  }

  /** The tag that add i mints. */
  ghost function Minted<E>(run: seq<Event<E>>, n: nat, i: nat): Tag
    requires ValidRun(run, n) && i < |run| && run[i].Add?
  {
    Tag(run[i].r, After(run[..i], n)[run[i].r].counter + 1)
  }

  // ---- tags are minted once ----

  /** No tag anywhere is ahead of the counter of the replica that minted it, and counters never go back. */
  lemma {:induction false} CounterBounds<E>(run: seq<Event<E>>, n: nat, i: nat)
    requires ValidRun(run, n) && i < |run| && run[i].Add?
    ensures Minted(run, n, i).number <= After(run, n)[run[i].r].counter
    decreases |run|
  {
    var last := |run| - 1;
    assert run[..i] == run[..last][..i] || i == last;
    if i < last { CounterBounds(run[..last], n, i); }
  }

  /** Two adds never mint the same tag. */
  lemma {:induction false} TagsAreFresh<E>(run: seq<Event<E>>, n: nat, i: nat, j: nat)
    requires ValidRun(run, n) && i < j < |run| && run[i].Add? && run[j].Add?
    ensures Minted(run, n, i) != Minted(run, n, j)
  {
    CounterBounds(run[..j], n, i);
    assert run[..j][..i] == run[..i];
  }

  // ---- what a state means ----

  ghost predicate Adds<E>(run: seq<Event<E>>, n: nat, i: nat, e: E, t: Tag)
    requires ValidRun(run, n)
  {
    IsAdd(run, i, e) && Minted(run, n, i) == t
  }

  ghost predicate Removes<E>(run: seq<Event<E>>, n: nat, i: nat, j: nat, t: Tag)
    requires ValidRun(run, n)
  {
    Observes(run, j, i) && Minted(run, n, i) == t
  }

  /** The state holds the tags of the known adds, and has removed the tags that known removes had seen. */
  ghost predicate Explained<E(!new)>(run: seq<Event<E>>, n: nat, s: ORSet<E>, known: set<nat>)
    requires ValidRun(run, n)
  {
    && (forall e, t :: (e, t) in s.adds <==> exists i | i in known :: Adds(run, n, i, e, t))
    && (forall t :: t in s.removed <==> exists i, j :: j in known && Removes(run, n, i, j, t))
  }

  /** Facts about updates do not change when the run goes on. */
  lemma {:induction false} Extends<E>(run: seq<Event<E>>, n: nat, i: nat, j: nat, e: E, t: Tag)
    requires ValidRun(run, n) && run != [] && j < |run| - 1
    ensures i < |run| - 1 ==> (Adds(run, n, i, e, t) <==> Adds(run[..|run| - 1], n, i, e, t))
    ensures Removes(run, n, i, j, t) <==> Removes(run[..|run| - 1], n, i, j, t)
  {
    hide After, Known;
    var front := run[..|run| - 1];
    assert i < |front| ==> front[..i] == run[..i];
    assert front[..j] == run[..j];
  }

  lemma {:induction false} ExplainedOn<E(!new)>(run: seq<Event<E>>, n: nat, s: ORSet<E>, known: set<nat>)
    requires ValidRun(run, n) && run != [] && forall i | i in known :: i < |run| - 1
    requires Explained(run[..|run| - 1], n, s, known)
    ensures Explained(run, n, s, known)
  {
    var front := run[..|run| - 1];
    hide Adds, Removes;
    forall e, t ensures (e, t) in s.adds <==> exists i | i in known :: Adds(run, n, i, e, t) {
      forall i | i in known ensures Adds(run, n, i, e, t) <==> Adds(front, n, i, e, t) { Extends(run, n, i, i, e, t); }
    }
    forall t ensures t in s.removed <==> exists i, j :: j in known && Removes(run, n, i, j, t) {
      forall i: nat, j | j in known ensures Removes(run, n, i, j, t) <==> Removes(front, n, i, j, t) { ExtendsRemove(run, n, i, j, t); }
    }
  }

  lemma {:induction false} ExtendsRemove<E>(run: seq<Event<E>>, n: nat, i: nat, j: nat, t: Tag)
    requires ValidRun(run, n) && run != [] && j < |run| - 1
    ensures Removes(run, n, i, j, t) <==> Removes(run[..|run| - 1], n, i, j, t)
  {
    hide After, Known;
    var front := run[..|run| - 1];
    assert front[..j] == run[..j];
    assert i < |front| ==> front[..i] == run[..i];
  }

  lemma {:induction false} ExplainedMerge<E(!new)>(run: seq<Event<E>>, n: nat, s: ORSet<E>, k: set<nat>, t: ORSet<E>,
        l: set<nat>)
    requires ValidRun(run, n) && Explained(run, n, s, k) && Explained(run, n, t, l)
    ensures Explained(run, n, MergeOR(s, t), k + l)
  {
    hide Adds, Removes;
  }

  lemma {:induction false} ExplainedAdd<E(!new)>(run: seq<Event<E>>, n: nat, s: ORSet<E>, known: set<nat>)
    requires ValidRun(run, n) && run != [] && run[|run| - 1].Add?
    requires s == After(run[..|run| - 1], n)[run[|run| - 1].r] && Explained(run, n, s, known)
    ensures Explained(run, n, Added(s, run[|run| - 1].r, run[|run| - 1].e), known + {|run| - 1})
  {
    var last := |run| - 1;
    var tag := Tag(run[last].r, s.counter + 1);
    assert forall e, t :: Adds(run, n, last, e, t) <==> e == run[last].e && t == tag;
    assert forall i, t :: !Removes(run, n, i, last, t);
    hide Adds, Removes, After;
  }

  lemma {:induction false} ExplainedRemove<E(!new)>(run: seq<Event<E>>, n: nat, s: ORSet<E>)
    requires ValidRun(run, n) && run != [] && run[|run| - 1].Remove?
    requires Explained(run, n, s, Known(run[..|run| - 1], run[|run| - 1].r))
    ensures Explained(run, n, Removed(s, run[|run| - 1].e), Known(run[..|run| - 1], run[|run| - 1].r) + {|run| - 1})
  {
    var last := |run| - 1;
    var known, e := Known(run[..last], run[last].r), run[last].e;
    assert forall i, t :: Removes(run, n, i, last, t) <==> i in known && Adds(run, n, i, e, t);
    assert forall e, t :: !Adds(run, n, last, e, t);
    hide Adds, Removes, Known;
  }

  /** In every run every replica's state is explained by what has reached it. */
  lemma {:induction false} StatesAreExplained<E(!new)>(run: seq<Event<E>>, n: nat, r: nat)
    requires ValidRun(run, n) && r < n
    ensures Explained(run, n, After(run, n)[r], Known(run, r))
    decreases |run|
  {
    hide Explained;
    if run == [] {
      ExplainedEmpty<E>(n);
    } else {
      var last, front := |run| - 1, run[..|run| - 1];
      StatesAreExplained(front, n, r);
      ExplainedOn(run, n, After(front, n)[r], Known(front, r));
      match run[last]
      case Add(q, e) =>
        if q == r { ExplainedAdd(run, n, After(front, n)[r], Known(front, r)); }
      case Remove(q, e) =>
        if q == r { ExplainedRemove(run, n, After(front, n)[r]); }
      case Sync(a, b) =>
        if r == a || r == b {
          StatesAreExplained(front, n, a);
          StatesAreExplained(front, n, b);
          ExplainedOn(run, n, After(front, n)[a], Known(front, a));
          ExplainedOn(run, n, After(front, n)[b], Known(front, b));
          ExplainedMerge(run, n, After(front, n)[a], Known(front, a), After(front, n)[b], Known(front, b));
        }
    }
  }

  lemma {:induction false} ExplainedEmpty<E(!new)>(n: nat)
    ensures Explained<E>([], n, ORSet({}, {}, 0), {})
  {
  }

  /** An add that no remove among the known updates had seen. */
  ghost predicate Survives<E>(run: seq<Event<E>>, known: set<nat>, i: nat, e: E) {
    i in known && IsAdd(run, i, e) && forall j | j in known :: !Observes(run, j, i)
  }

  /** An element is present exactly when some known add of it was not observed by any known remove. */
  lemma {:induction false} ContainsIff<E(!new)>(run: seq<Event<E>>, n: nat, r: nat, e: E)
    requires ValidRun(run, n) && r < n
    ensures Contains(After(run, n)[r], e) <==> exists i :: Survives(run, Known(run, r), i, e)
  {
    StatesAreExplained(run, n, r);
    ExplainedContains(run, n, After(run, n)[r], Known(run, r), e);
  }

  lemma {:induction false} ExplainedContains<E(!new)>(run: seq<Event<E>>, n: nat, s: ORSet<E>, known: set<nat>, e: E)
    requires ValidRun(run, n) && Explained(run, n, s, known)
    ensures Contains(s, e) <==> exists i :: Survives(run, known, i, e)
  {
    hide After, Known, Observes;
    if Contains(s, e) {
      var t :| (e, t) in s.adds && t !in s.removed;
      var i :| i in known && Adds(run, n, i, e, t);
      forall j | j in known ensures Observes(run, j, i) ==> Removes(run, n, i, j, t) {
      }
      assert Survives(run, known, i, e);
    }
    if i :| Survives(run, known, i, e) {
      var t := Minted(run, n, i);
      assert Adds(run, n, i, e, t);
      if t in s.removed {
        var k, j :| j in known && Removes(run, n, k, j, t);
        SameTagSameAdd(run, n, i, k, j, t);
        assert false;
      }
    }
  }

  lemma {:induction false} SameTagSameAdd<E>(run: seq<Event<E>>, n: nat, i: nat, k: nat, j: nat, t: Tag)
    requires ValidRun(run, n) && i < |run| && run[i].Add? && Minted(run, n, i) == t && Removes(run, n, k, j, t)
    ensures k == i && Observes(run, j, i)
  {
    if i < k { TagsAreFresh(run, n, i, k); }
    if k < i { TagsAreFresh(run, n, k, i); }
  }

  // ---- after convergence ----

  /** Every update of the run. */
  ghost function Updates<E>(run: seq<Event<E>>): set<nat> { set i: nat | i < |run| && !run[i].Sync? }

  ghost function KnownAll<E>(run: seq<Event<E>>, n: nat): (k: seq<set<nat>>)
    ensures |k| == n
  {
    seq(n, r requires 0 <= r < n => Known(run, r))
  }

  /** An update has reached the replica it was made on. */
  lemma {:induction false} OwnUpdates<E>(run: seq<Event<E>>, n: nat, i: nat)
    requires ValidRun(run, n) && i < |run| && !run[i].Sync?
    ensures i in Known(run, run[i].r)
    decreases |run|
  {
    if i < |run| - 1 { OwnUpdates(run[..|run| - 1], n, i); }
  }

  lemma {:induction false} JoinIsBounded(states: seq<set<nat>>, bound: set<nat>)
    requires states != [] && forall k | 0 <= k < |states| :: states[k] <= bound
    ensures Fold(MergeSets, states) <= bound
    decreases |states|
  {
    if |states| > 1 { JoinIsBounded(states[..|states| - 1], bound); }
  }

  /** What the replicas know together is every update. */
  lemma {:induction false} TogetherAllKnown<E>(run: seq<Event<E>>, n: nat)
    requires ValidRun(run, n) && n > 0
    ensures Fold(MergeSets, KnownAll(run, n)) == Updates(run)
  {
    GSetLaws<nat>();
    JoinIsBounded(KnownAll(run, n), Updates(run));
    forall i | i in Updates(run) ensures i in Fold(MergeSets, KnownAll(run, n)) {
      OwnUpdates(run, n, i);
      JoinIsAbove(MergeSets, KnownAll(run, n), run[i].r);
      assert i in KnownAll(run, n)[run[i].r];
    }
  }

  /** A sweep of exchanges takes explained states to states explained by the swept knowledge. */
  lemma {:induction false} SweepIsExplained<E(!new)>(run: seq<Event<E>>, n: nat, states: seq<ORSet<E>>,
        known: seq<set<nat>>, i: nat, j: nat)
    requires ValidRun(run, n) && i < j && |states| == |known|
    requires forall r | 0 <= r < |states| :: Explained(run, n, states[r], known[r])
    ensures forall r | 0 <= r < |states| :: Explained(run, n, Sweep(MergeOR, states, i, j)[r], Sweep(MergeSets, known, i, j)[r])
    decreases |states| - i, |states| - j
  {
    hide Explained, After;
    if i + 1 < |states| {
      if j >= |states| {
        SweepIsExplained(run, n, states, known, i + 1, i + 2);
      } else {
        ExplainedMerge(run, n, states[i], known[i], states[j], known[j]);
        SweepIsExplained(run, n, SyncAt(MergeOR, states, i, j), SyncAt(MergeSets, known, i, j), i, j + 1);
      }
    }
  }

  /**
   * After any run and one sweep of anti-entropy, on every replica: an element is present exactly when some add of it
   * was not observed by any remove. In particular an add concurrent with every remove survives.
   */
  lemma {:induction false} ConvergedContainsIff<E(!new)>(run: seq<Event<E>>, n: nat, r: nat, e: E)
    requires ValidRun(run, n) && r < n
    ensures Contains(Sweep(MergeOR, After(run, n), 0, 1)[r], e) <==>
      exists i :: Survives(run, Updates(run), i, e)
  {
    hide Explained, After, Known;
    forall q | 0 <= q < n ensures Explained(run, n, After(run, n)[q], KnownAll(run, n)[q]) { StatesAreExplained(run, n, q); }
    SweepIsExplained(run, n, After(run, n), KnownAll(run, n), 0, 1);
    GSetLaws<nat>();
    SemilatticeAbsorbs<set<nat>>(MergeSets);
    SweepReachesJoin(MergeSets, KnownAll(run, n));
    TogetherAllKnown(run, n);
    ExplainedContains(run, n, Sweep(MergeOR, After(run, n), 0, 1)[r], Updates(run), e);
  }
}
