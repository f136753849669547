/** Runs of a grow-only counter: after anti-entropy the value is the sum of all increments, none lost and none counted twice. */
module CounterRuns {
  import opened Basics
  import opened Folds
  import opened AntiEntropies
  import opened Crdts

  datatype Event = Increment(r: nat, amount: nat) | Sync(a: nat, b: nat) {
    predicate Valid(n: nat) { if Sync? then a < n && b < n && a != b else r < n }
  }

  ghost predicate ValidRun(run: seq<Event>, n: nat) { forall i | 0 <= i < |run| :: run[i].Valid(n) }

  /** A replica raises its own entry. */
  function Incremented(c: Counts, r: nat, amount: nat): Counts {
    var total: nat := Get(c, r) + amount;
    c[r := total]
  }

  function Step(states: seq<Counts>, ev: Event): (next: seq<Counts>)
    requires ev.Valid(|states|)
    ensures |next| == |states|
  {
    match ev
    case Increment(r, k) => states[r := Incremented(states[r], r, k)]
    case Sync(a, b) => var m := MergeCounts(states[a], states[b]); states[a := m][b := m]
  }

  function After(run: seq<Event>, n: nat): (states: seq<Counts>)
    requires ValidRun(run, n)
    ensures |states| == n
  {
    if run == [] then seq(n, _ => map[]) else Step(After(run[..|run| - 1], n), run[|run| - 1])
  }

  /** What one replica has counted itself. */
  function Counted(run: seq<Event>, r: nat): nat {
    if run == [] then 0
    else
      var last := run[|run| - 1];
      Counted(run[..|run| - 1], r) + (if last.Increment? && last.r == r then last.amount else 0)
  }

  /** What has been counted altogether. */
  function Increments(run: seq<Event>): nat {
    if run == [] then 0
    else
      var last := run[|run| - 1];
      Increments(run[..|run| - 1]) + (if last.Increment? then last.amount else 0)
  }

  // ---- the value of a state ----

  function SumOf(c: Counts, keys: seq<int>): nat {
    if keys == [] then 0 else SumOf(c, keys[..|keys| - 1]) + Get(c, keys[|keys| - 1])
  }

  /** The value of a counter: the sum of its entries. */
  function Value(c: Counts): nat { SumOf(c, Sorted(c.Keys)) }

  /** The entries of replicas 0 to n - 1. */
  function SumTo(c: Counts, n: nat): nat {
    if n == 0 then 0 else SumTo(c, n - 1) + Get(c, n - 1)
  }

  lemma {:induction false} SumOfRange(c: Counts, keys: seq<int>, n: nat)
    requires Ascending(keys) && (forall k | k in keys :: 0 <= k < n) && forall k | 0 <= k < n && k !in keys :: Get(c, k) == 0
    ensures SumOf(c, keys) == SumTo(c, n)
    decreases n
  {
    var last := |keys| - 1;
    assert keys != [] ==> keys[last] in keys;
    if n > 0 {
      if keys != [] && keys[last] == n - 1 {
        var front := keys[..last];
        forall k | k in front ensures 0 <= k < n - 1 {
          var i :| 0 <= i < last && keys[i] == k;
          assert keys[i] in keys;
        }
        forall k | k in keys && k != n - 1 ensures k in front {
          var i :| 0 <= i < |keys| && keys[i] == k;
          assert front[i] == k;
        }
        SumOfRange(c, front, n - 1);
      } else {
        forall k | k in keys ensures k < n - 1 {
          var i :| 0 <= i < |keys| && keys[i] == k;
          assert i < last ==> keys[i] < keys[last];
        }
        SumOfRange(c, keys, n - 1);
      }
    }
  }

  lemma {:induction false} ValueIsSum(c: Counts, n: nat)
    requires forall k | k in c :: 0 <= k < n
    ensures Value(c) == SumTo(c, n)
  {
    SumOfRange(c, Sorted(c.Keys), n);
  }

  // ---- runs ----

  /** An entry never exceeds what its replica has counted. */
  ghost predicate Bounded(run: seq<Event>, c: Counts, n: nat) {
    (forall k | k in c :: 0 <= k < n) && forall k: nat | k < n :: Get(c, k) <= Counted(run, k)
  }

  lemma {:induction false} RunsAreBounded(run: seq<Event>, n: nat, r: nat)
    requires ValidRun(run, n) && r < n
    ensures Bounded(run, After(run, n)[r], n) && Get(After(run, n)[r], r) == Counted(run, r)
    decreases |run|
  {
    if run != [] {
      hide Bounded, Counted, MergeCounts;
      var front, last := run[..|run| - 1], run[|run| - 1];
      RunsAreBounded(front, n, r);
      BoundedOn(run, After(front, n)[r], n);
      CountedStep(run, r);
      match last
      case Increment(q, k) =>
        if q == r { BoundedIncrement(run, After(front, n)[r], n); }
      case Sync(a, b) =>
        RunsAreBounded(front, n, a);
        RunsAreBounded(front, n, b);
        BoundedOn(run, After(front, n)[a], n);
        BoundedOn(run, After(front, n)[b], n);
        BoundedMerge(run, After(front, n)[a], After(front, n)[b], n);
        EntryBound(front, After(front, n)[a], n, r);
        EntryBound(front, After(front, n)[b], n, r);
    } else {
      assert After(run, n)[r] == map[];
    }
  }

  lemma {:induction false} CountedStep(run: seq<Event>, k: nat)
    requires run != []
    ensures var last := run[|run| - 1];
      Counted(run, k) == Counted(run[..|run| - 1], k) + (if last.Increment? && last.r == k then last.amount else 0)
  {
  }

  lemma {:induction false} EntryBound(run: seq<Event>, c: Counts, n: nat, k: nat)
    requires Bounded(run, c, n) && k < n
    ensures Get(c, k) <= Counted(run, k)
  {
  }

  lemma {:induction false} BoundedOn(run: seq<Event>, c: Counts, n: nat)
    requires run != [] && Bounded(run[..|run| - 1], c, n)
    ensures Bounded(run, c, n)
  {
    hide Get;
    forall k: nat | k < n ensures Get(c, k) <= Counted(run, k) { CountedStep(run, k); }
  }

  lemma {:induction false} BoundedIncrement(run: seq<Event>, c: Counts, n: nat)
    requires run != [] && run[|run| - 1].Increment? && run[|run| - 1].r < n && Bounded(run[..|run| - 1], c, n)
    ensures Bounded(run, Incremented(c, run[|run| - 1].r, run[|run| - 1].amount), n)
  {
    forall k: nat | k < n ensures Get(Incremented(c, run[|run| - 1].r, run[|run| - 1].amount), k) <= Counted(run, k) { CountedStep(run, k); }
  }

  lemma {:induction false} BoundedMerge(run: seq<Event>, a: Counts, b: Counts, n: nat)
    requires Bounded(run, a, n) && Bounded(run, b, n)
    ensures Bounded(run, MergeCounts(a, b), n)
  {
    hide MergeCounts;
  }

  lemma {:induction false} JoinIsBounded(run: seq<Event>, states: seq<Counts>, n: nat)
    requires states != [] && forall k | 0 <= k < |states| :: Bounded(run, states[k], n)
    ensures Bounded(run, Fold(MergeCounts, states), n)
    decreases |states|
  {
    hide MergeCounts;
    if |states| > 1 { JoinIsBounded(run, states[..|states| - 1], n); }
  }

  lemma {:induction false} SumOfCounted(run: seq<Event>, c: Counts, n: nat, m: nat)
    requires m <= n && ValidRun(run, n) && forall k: nat | k < n :: Get(c, k) == Counted(run, k)
    ensures SumTo(c, m) == CountedTo(run, m)
    decreases m
  {
    if m > 0 { SumOfCounted(run, c, n, m - 1); }
  }

  function CountedTo(run: seq<Event>, m: nat): nat {
    if m == 0 then 0 else CountedTo(run, m - 1) + Counted(run, m - 1)
  }

  lemma {:induction false} CountedToStep(run: seq<Event>, m: nat)
    requires run != []
    ensures var last := run[|run| - 1];
      CountedTo(run, m) == CountedTo(run[..|run| - 1], m) + (if last.Increment? && last.r < m then last.amount else 0)
    decreases m
  {
    if m > 0 { CountedToStep(run, m - 1); }
  }

  lemma {:induction false} NothingCounted(m: nat)
    ensures CountedTo([], m) == 0
    decreases m
  {
    if m > 0 { NothingCounted(m - 1); }
  }

  lemma {:induction false} CountedIsIncrements(run: seq<Event>, n: nat)
    requires ValidRun(run, n)
    ensures CountedTo(run, n) == Increments(run)
    decreases |run|
  {
    if run == [] {
      NothingCounted(n);
    } else {
      CountedIsIncrements(run[..|run| - 1], n);
      CountedToStep(run, n);
    }
  }

  /** After any run and one sweep of anti-entropy every replica's value is the sum of all increments of the run. */
  lemma {:induction false} ConvergedValue(run: seq<Event>, n: nat, r: nat)
    requires ValidRun(run, n) && r < n
    ensures Value(Sweep(MergeCounts, After(run, n), 0, 1)[r]) == Increments(run)
  {
    hide MergeCounts, After, Counted;
    var states := After(run, n);
    var join := Fold(MergeCounts, states);
    GCounterLaws();
    SemilatticeAbsorbs(MergeCounts);
    SweepReachesJoin(MergeCounts, states);
    forall k | 0 <= k < n ensures Bounded(run, states[k], n) { RunsAreBounded(run, n, k); }
    JoinIsBounded(run, states, n);
    forall k: nat | k < n ensures Get(join, k) == Counted(run, k) {
      RunsAreBounded(run, n, k);
      JoinIsAbove(MergeCounts, states, k);
      assert Get(join, k) == Max(Get(states[k], k), Get(join, k));
    }
    ValueIsSum(join, n);
    SumOfCounted(run, join, n, n);
    CountedIsIncrements(run, n);
  }

  // ---- the counter that also decrements ----

  /** An increment or a decrement by any amount, or an exchange. */
  datatype SignedEvent = Plus(r: nat, amount: int) | Minus(r: nat, amount: int) | Exchange(a: nat, b: nat) {
    predicate Valid(n: nat) { if Exchange? then a < n && b < n && a != b else r < n }

    /** Which of the two counters an update raises: a negative amount turns to the other one. */
    predicate Raises(plus: bool)
      requires !Exchange?
    {
      plus == if Plus? then amount >= 0 else amount < 0
    }

    function Size(): nat
      requires !Exchange?
    {
      if amount >= 0 then amount else -amount
    }

    function Change(): int { match this case Plus(_, k) => k case Minus(_, k) => 0 - k case Exchange(_, _) => 0 }
  }

  ghost predicate ValidSigned(run: seq<SignedEvent>, n: nat) { forall i | 0 <= i < |run| :: run[i].Valid(n) }

  function SignedStep(states: seq<PNCounter>, ev: SignedEvent): (next: seq<PNCounter>)
    requires ev.Valid(|states|)
    ensures |next| == |states|
  {
    match ev
    case Exchange(a, b) => var m := MergePN(states[a], states[b]); states[a := m][b := m]
    case _ =>
      var s := states[ev.r];
      states[ev.r :=
        if ev.Raises(true) then s.(positive := Incremented(s.positive, ev.r, ev.Size()))
        else s.(negative := Incremented(s.negative, ev.r, ev.Size()))]
  }

  function SignedAfter(run: seq<SignedEvent>, n: nat): (states: seq<PNCounter>)
    requires ValidSigned(run, n)
    ensures |states| == n
  {
    if run == [] then seq(n, _ => PNCounter(map[], map[])) else SignedStep(SignedAfter(run[..|run| - 1], n), run[|run| - 1])
  }

  function SignedValue(c: PNCounter): int { Value(c.positive) - Value(c.negative) }

  /** All that was added less all that was taken away. */
  function Balance(run: seq<SignedEvent>): int {
    if run == [] then 0 else Balance(run[..|run| - 1]) + run[|run| - 1].Change()
  }

  /** The run as one of the two counters sees it. */
  function OneSign(run: seq<SignedEvent>, plus: bool): seq<Event> {
    if run == [] then []
    else
      var before, ev := OneSign(run[..|run| - 1], plus), run[|run| - 1];
      if ev.Exchange? then before + [Sync(ev.a, ev.b)]
      else if ev.Raises(plus) then before + [Increment(ev.r, ev.Size())]
      else before
  }

  lemma {:induction false} OneSignIsValid(run: seq<SignedEvent>, plus: bool, n: nat)
    requires ValidSigned(run, n)
    ensures ValidRun(OneSign(run, plus), n)
    decreases |run|
  {
    if run != [] { OneSignIsValid(run[..|run| - 1], plus, n); }
  }

  lemma {:induction false} AfterSnoc(run: seq<Event>, ev: Event, n: nat)
    requires ValidRun(run, n) && ev.Valid(n)
    ensures ValidRun(run + [ev], n) && After(run + [ev], n) == Step(After(run, n), ev)
    ensures Increments(run + [ev]) == Increments(run) + if ev.Increment? then ev.amount else 0
  {
    assert (run + [ev])[..|run|] == run;
  }

  /** The entries of one sign. */
  function Part(c: PNCounter, plus: bool): Counts { if plus then c.positive else c.negative }

  lemma {:induction false} PartsRun(run: seq<SignedEvent>, plus: bool, n: nat)
    requires ValidSigned(run, n)
    ensures ValidRun(OneSign(run, plus), n)
    ensures forall r | 0 <= r < n :: Part(SignedAfter(run, n)[r], plus) == After(OneSign(run, plus), n)[r]
    decreases |run|
  {
    hide MergeCounts, Incremented;
    OneSignIsValid(run, plus, n);
    if run != [] {
      var front := run[..|run| - 1];
      PartsRun(front, plus, n);
      var ev := run[|run| - 1];
      if ev.Exchange? {
        AfterSnoc(OneSign(front, plus), Sync(ev.a, ev.b), n);
      } else {
        AfterSnoc(OneSign(front, plus), Increment(ev.r, ev.Size()), n);
      }
    }
  }

  lemma {:induction false} PartsSweep(states: seq<PNCounter>, parts: seq<Counts>, plus: bool, i: nat, j: nat)
    requires i < j && |parts| == |states| && forall r | 0 <= r < |states| :: parts[r] == Part(states[r], plus)
    ensures forall r | 0 <= r < |states| :: Sweep(MergeCounts, parts, i, j)[r] == Part(Sweep(MergePN, states, i, j)[r], plus)
    decreases |states| - i, |states| - j
  {
    hide MergeCounts;
    if i + 1 < |states| {
      if j >= |states| {
        PartsSweep(states, parts, plus, i + 1, i + 2);
      } else {
        PartsSweep(SyncAt(MergePN, states, i, j), SyncAt(MergeCounts, parts, i, j), plus, i, j + 1);
      }
    }
  }

  lemma {:induction false} BalanceIsDifference(run: seq<SignedEvent>, n: nat)
    requires ValidSigned(run, n)
    ensures Balance(run) == Increments(OneSign(run, true)) - Increments(OneSign(run, false))
    decreases |run|
  {
    if run != [] {
      var front, last := run[..|run| - 1], run[|run| - 1];
      BalanceIsDifference(front, n);
      OneSignIsValid(front, true, n);
      OneSignIsValid(front, false, n);
      if last.Exchange? {
        AfterSnoc(OneSign(front, true), Sync(last.a, last.b), n);
        AfterSnoc(OneSign(front, false), Sync(last.a, last.b), n);
      } else {
        AfterSnoc(OneSign(front, true), Increment(last.r, last.Size()), n);
        AfterSnoc(OneSign(front, false), Increment(last.r, last.Size()), n);
      }
    }
  }

  /** After any run of increments, decrements and exchanges and one sweep, every replica's value is the balance. */
  lemma {:induction false} ConvergedBalance(run: seq<SignedEvent>, n: nat, r: nat)
    requires ValidSigned(run, n) && r < n
    ensures SignedValue(Sweep(MergePN, SignedAfter(run, n), 0, 1)[r]) == Balance(run)
  {
    hide MergePN, MergeCounts, Sweep, SignedAfter, After, Value;
    forall plus: bool
      ensures Value(Part(Sweep(MergePN, SignedAfter(run, n), 0, 1)[r], plus)) == Increments(OneSign(run, plus))
    {
      PartsRun(run, plus, n);
      PartsSweep(SignedAfter(run, n), After(OneSign(run, plus), n), plus, 0, 1);
      ConvergedValue(OneSign(run, plus), n, r);
    }
    BalanceIsDifference(run, n);
    var end := Sweep(MergePN, SignedAfter(run, n), 0, 1)[r];
    assert Value(Part(end, true)) - Value(Part(end, false)) == SignedValue(end);
  }
}
