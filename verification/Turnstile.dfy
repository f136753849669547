/** The submission-order turnstile of the threaded runner, as interleaved steps of a FIFO thread pool.
    A job is two arbitrary state changes: what a task does up to calling its body, and the rest. Either may raise. */
module Turnstile {
  import opened Basics

  datatype Job<!S> = Job(begin: S -> Exit<S>, finish: S -> Exit<S>)

  /** Where a pool thread stands with the job it holds. */
  datatype Phase =
    | Idle
    | Entering(job: nat)  // about to take the lock and test the turn
    | Sleeping(job: nat)  // waiting on the condition variable
    | Inside(job: nat)    // admitted, nothing executed yet
    | Running(job: nat)   // first half executed
    | Leaving(job: nat)   // executed or raised; about to advance the turn and notify
  {
    predicate Admitted() { Inside? || Running? || Leaving? }
  }

  /** `failed` holds the jobs whose future has an exception. */
  datatype Pool<S> = Pool(submitted: nat, next: nat, threads: seq<Phase>, turn: nat, shared: S, failed: set<nat>)

  datatype Step = Submit | Take(w: nat) | Check(w: nat) | Begin(w: nat) | Finish(w: nat) | Release(w: nat)

  ghost function Done<S>(job: Job<S>, s: S): Exit<S> {
    var b := job.begin(s);
    if b.raised then b else job.finish(b.state)
  }

  /** The state after the first `k` jobs, each of them run whether or not one before it raised. */
  ghost function AllRun<S>(jobs: seq<Job<S>>, k: nat, s: S): S
    requires k <= |jobs|
  {
    if k == 0 then s else Done(jobs[k - 1], AllRun(jobs, k - 1, s)).state
  }

  ghost predicate RaisesAt<S>(jobs: seq<Job<S>>, i: nat, s: S) {
    i < |jobs| && Done(jobs[i], AllRun(jobs, i, s)).raised
  }

  ghost predicate FirstRaise<S>(jobs: seq<Job<S>>, i: nat, s: S) {
    RaisesAt(jobs, i, s) && forall j: nat | j < i :: !RaisesAt(jobs, j, s)
  }

  /** The serial runner: one job after the other, until one raises. */
  ghost function Serial<S>(jobs: seq<Job<S>>, k: nat, s: S): Exit<S>
    requires k <= |jobs|
  {
    if k == 0 then Exit(s, false)
    else var before := Serial(jobs, k - 1, s); if before.raised then before else Done(jobs[k - 1], before.state)
  }

  function NotifyAll(threads: seq<Phase>): (r: seq<Phase>)
    ensures |r| == |threads|
    ensures forall w | 0 <= w < |r| :: r[w] == if threads[w].Sleeping? then Entering(threads[w].job) else threads[w]
  {
    seq(|threads|, w requires 0 <= w < |threads| =>
      if threads[w].Sleeping? then Entering(threads[w].job) else threads[w])
  }

  ghost function Start<S>(workers: nat, s: S): Pool<S> {
    Pool(0, 0, seq(workers, _ => Idle), 0, s, {})
  }

  ghost predicate Enabled<S>(jobs: seq<Job<S>>, p: Pool<S>, t: Step) {
    match t
    case Submit => p.submitted < |jobs|
    case Take(w) => w < |p.threads| && p.threads[w].Idle? && p.next < p.submitted
    case Check(w) => w < |p.threads| && p.threads[w].Entering?
    case Begin(w) => w < |p.threads| && p.threads[w].Inside? && p.threads[w].job < |jobs|
    case Finish(w) => w < |p.threads| && p.threads[w].Running? && p.threads[w].job < |jobs|
    case Release(w) => w < |p.threads| && p.threads[w].Leaving?
  }

  ghost function After<S>(jobs: seq<Job<S>>, p: Pool<S>, t: Step): Pool<S>
    requires Enabled(jobs, p, t)
  {
    match t
    case Submit => p.(submitted := p.submitted + 1)
    case Take(w) => p.(threads := p.threads[w := Entering(p.next)], next := p.next + 1)
    case Check(w) =>
      var i := p.threads[w].job;
      p.(threads := p.threads[w := if p.turn == i then Inside(i) else Sleeping(i)])
    case Begin(w) =>
      var i := p.threads[w].job;
      var b := jobs[i].begin(p.shared);
      p.(threads := p.threads[w := if b.raised then Leaving(i) else Running(i)], shared := b.state,
         failed := if b.raised then p.failed + {i} else p.failed)
    case Finish(w) =>
      var i := p.threads[w].job;
      var b := jobs[i].finish(p.shared);
      p.(threads := p.threads[w := Leaving(i)], shared := b.state,
         failed := if b.raised then p.failed + {i} else p.failed)
    case Release(w) =>
      p.(threads := NotifyAll(p.threads[w := Idle]), turn := p.turn + 1)
  }

  ghost predicate Holds(threads: seq<Phase>, w: int, i: nat) {
    0 <= w < |threads| && !threads[w].Idle? && threads[w].job == i
  }

  ghost predicate IsHeld(threads: seq<Phase>, i: nat) { exists w :: Holds(threads, w, i) }

  ghost predicate SomeRunning(threads: seq<Phase>) { exists w :: 0 <= w < |threads| && threads[w].Running? }

  ghost predicate SomeLeaving(threads: seq<Phase>) { exists w :: 0 <= w < |threads| && threads[w].Leaving? }

  /** Exactly the jobs turn..next are held, by one thread each; only the turn's job is admitted; and nobody sleeps
      through its turn. */
  ghost predicate Orderly<S>(jobs: seq<Job<S>>, p: Pool<S>) {
    && p.turn <= p.next <= p.submitted <= |jobs|
    && (forall w, i: nat | Holds(p.threads, w, i) :: p.turn <= i < p.next)
    && (forall v, w, i: nat | Holds(p.threads, v, i) && Holds(p.threads, w, i) :: v == w)
    && (forall i: nat | p.turn <= i < p.next :: IsHeld(p.threads, i))
    && (forall w | 0 <= w < |p.threads| :: p.threads[w].Admitted() ==> p.threads[w].job == p.turn)
    && (forall w | 0 <= w < |p.threads| :: p.threads[w].Sleeping? ==> p.threads[w].job != p.turn)
  }

  /** The shared state is the one after `turn` jobs, advanced by what the admitted thread has already executed, and
      the failed jobs are those that raise. */
  ghost predicate InStep<S>(jobs: seq<Job<S>>, s0: S, p: Pool<S>)
    requires p.turn <= |jobs|
  {
    var done := AllRun(jobs, p.turn, s0);
    var running := SomeRunning(p.threads) && p.turn < |jobs|;
    var leaving := SomeLeaving(p.threads) && p.turn < |jobs|;
    && (running ==> !jobs[p.turn].begin(done).raised && p.shared == jobs[p.turn].begin(done).state)
    && (!running && leaving ==> p.shared == AllRun(jobs, p.turn + 1, s0))
    && (!running && !leaving ==> p.shared == done)
    && (forall i: nat :: i in p.failed <==> RaisesAt(jobs, i, s0) && (i < p.turn || (i == p.turn && leaving)))
  }

  ghost predicate Inv<S>(jobs: seq<Job<S>>, s0: S, p: Pool<S>) { Orderly(jobs, p) && InStep(jobs, s0, p) }

  /** Held jobs stay held when the same threads hold the same jobs. */
  lemma {:induction false} SameHolders(threads: seq<Phase>, threads': seq<Phase>, i: nat)
    requires IsHeld(threads, i)
    requires forall w | Holds(threads, w, i) :: Holds(threads', w, i)
    ensures IsHeld(threads', i)
  {
    var w :| Holds(threads, w, i);
    assert Holds(threads', w, i);
  }

  lemma {:induction false} InvStart<S>(jobs: seq<Job<S>>, workers: nat, s0: S)
    ensures Inv(jobs, s0, Start(workers, s0))
  {}

  lemma {:induction false} InvSubmit<S>(jobs: seq<Job<S>>, s0: S, p: Pool<S>)
    requires Inv(jobs, s0, p) && Enabled(jobs, p, Submit)
    ensures Inv(jobs, s0, After(jobs, p, Submit))
  {}

  lemma {:induction false} InvTake<S>(jobs: seq<Job<S>>, s0: S, p: Pool<S>, w: nat)
    requires Inv(jobs, s0, p) && Enabled(jobs, p, Take(w))
    ensures Inv(jobs, s0, After(jobs, p, Take(w)))
  {
    var q := After(jobs, p, Take(w));
    assert forall v, i: nat :: Holds(q.threads, v, i) <==> (if v == w then i == p.next else Holds(p.threads, v, i));
    forall i: nat | q.turn <= i < q.next ensures IsHeld(q.threads, i) {
      if i < p.next {
        SameHolders(p.threads, q.threads, i);
      } else {
        assert Holds(q.threads, w, i);
      }
    }
    SameProgress(p, q, w);
  }

  lemma {:induction false} InvCheck<S>(jobs: seq<Job<S>>, s0: S, p: Pool<S>, w: nat)
    requires Inv(jobs, s0, p) && Enabled(jobs, p, Check(w))
    ensures Inv(jobs, s0, After(jobs, p, Check(w)))
  {
    var q := After(jobs, p, Check(w));
    assert forall v, i: nat :: Holds(q.threads, v, i) <==> Holds(p.threads, v, i);
    forall i: nat | q.turn <= i < q.next ensures IsHeld(q.threads, i) { SameHolders(p.threads, q.threads, i); }
    SameProgress(p, q, w);
  }

  /** A step that touches no executing thread leaves it open who is executing. */
  lemma {:induction false} SameProgress<S>(p: Pool<S>, q: Pool<S>, w: nat)
    requires w < |p.threads| == |q.threads|
    requires forall v | 0 <= v < |p.threads| && v != w :: p.threads[v] == q.threads[v]
    requires !p.threads[w].Running? && !p.threads[w].Leaving? && !q.threads[w].Running? && !q.threads[w].Leaving?
    ensures SomeRunning(p.threads) == SomeRunning(q.threads) && SomeLeaving(p.threads) == SomeLeaving(q.threads)
  {
    assert forall v | 0 <= v < |p.threads| :: p.threads[v].Running? <==> q.threads[v].Running?;
    assert forall v | 0 <= v < |p.threads| :: p.threads[v].Leaving? <==> q.threads[v].Leaving?;
  }

  lemma {:induction false} OneAdmitted<S>(jobs: seq<Job<S>>, p: Pool<S>, v: nat, w: nat)
    requires Orderly(jobs, p) && v < |p.threads| && w < |p.threads|
    requires p.threads[v].Admitted() && p.threads[w].Admitted()
    ensures v == w
  {
    assert Holds(p.threads, v, p.turn) && Holds(p.threads, w, p.turn);
  }

  lemma {:induction false} ExecuteIsOrderly<S>(jobs: seq<Job<S>>, p: Pool<S>, w: nat, t: Step)
    requires Orderly(jobs, p) && (t == Begin(w) || t == Finish(w)) && Enabled(jobs, p, t)
    ensures Orderly(jobs, After(jobs, p, t)) && p.threads[w].job == p.turn < |jobs|
    ensures forall v: nat | v < |p.threads| :: p.threads[v].Admitted() ==> v == w
  {
    var q := After(jobs, p, t);
    assert forall v, i: nat :: Holds(q.threads, v, i) <==> Holds(p.threads, v, i);
    forall i: nat | q.turn <= i < q.next ensures IsHeld(q.threads, i) { SameHolders(p.threads, q.threads, i); }
    forall v: nat | v < |p.threads| && p.threads[v].Admitted() ensures v == w {
      OneAdmitted(jobs, p, v, w);
    }
    assert Holds(p.threads, w, p.turn);
  }

  lemma {:induction false} InvExecute<S>(jobs: seq<Job<S>>, s0: S, p: Pool<S>, w: nat, t: Step)
    requires Inv(jobs, s0, p) && (t == Begin(w) || t == Finish(w)) && Enabled(jobs, p, t)
    ensures Inv(jobs, s0, After(jobs, p, t))
  {
    hide Orderly;
    var q := After(jobs, p, t);
    ExecuteIsOrderly(jobs, p, w, t);
    assert p.turn == q.turn < |jobs|;
    assert SomeRunning(p.threads) <==> p.threads[w].Running?;
    assert SomeRunning(q.threads) <==> q.threads[w].Running?;
    assert !SomeLeaving(p.threads);
    assert SomeLeaving(q.threads) <==> q.threads[w].Leaving?;
    assert AllRun(jobs, p.turn + 1, s0) == Done(jobs[p.turn], AllRun(jobs, p.turn, s0)).state;
  }

  lemma {:induction false} ReleaseIsOrderly<S>(jobs: seq<Job<S>>, p: Pool<S>, w: nat)
    requires Orderly(jobs, p) && Enabled(jobs, p, Release(w))
    ensures Orderly(jobs, After(jobs, p, Release(w))) && p.turn < |jobs|
    ensures forall v | 0 <= v < |p.threads| :: p.threads[v].Admitted() ==> v == w
  {
    var q := After(jobs, p, Release(w));
    assert Holds(p.threads, w, p.turn);
    assert forall v, i: nat :: Holds(q.threads, v, i) <==> Holds(p.threads, v, i) && v != w;
    forall i: nat | q.turn <= i < q.next ensures IsHeld(q.threads, i) {
      assert IsHeld(p.threads, i);
      SameHolders(p.threads, q.threads, i);
    }
    forall v: nat | v < |p.threads| && p.threads[v].Admitted() ensures v == w {
      OneAdmitted(jobs, p, v, w);
    }
    assert forall v | 0 <= v < |q.threads| :: !q.threads[v].Admitted() && !q.threads[v].Sleeping?;
  }

  lemma {:induction false} InvRelease<S>(jobs: seq<Job<S>>, s0: S, p: Pool<S>, w: nat)
    requires Inv(jobs, s0, p) && Enabled(jobs, p, Release(w))
    ensures Inv(jobs, s0, After(jobs, p, Release(w)))
  {
    hide Orderly;
    var q := After(jobs, p, Release(w));
    ReleaseIsOrderly(jobs, p, w);
    assert p.threads[w].Leaving?;
    assert SomeLeaving(p.threads) && !SomeRunning(p.threads);
    assert !SomeLeaving(q.threads) && !SomeRunning(q.threads);
  }

  lemma {:induction false} InvStep<S>(jobs: seq<Job<S>>, s0: S, p: Pool<S>, t: Step)
    requires Inv(jobs, s0, p) && Enabled(jobs, p, t)
    ensures Inv(jobs, s0, After(jobs, p, t))
  {
    match t
    case Submit => InvSubmit(jobs, s0, p);
    case Take(w) => InvTake(jobs, s0, p, w);
    case Check(w) => InvCheck(jobs, s0, p, w);
    case Begin(w) => InvExecute(jobs, s0, p, w, t);
    case Finish(w) => InvExecute(jobs, s0, p, w, t);
    case Release(w) => InvRelease(jobs, s0, p, w);
  }

  // ---- progress ----

  ghost predicate Finished<S>(jobs: seq<Job<S>>, p: Pool<S>) {
    p.submitted == p.next == p.turn == |jobs| && forall w | 0 <= w < |p.threads| :: p.threads[w].Idle?
  }

  /** With at least one thread the pool can always move until everything is finished: no deadlock, no lost wake-up. */
  lemma {:induction false} Progress<S>(jobs: seq<Job<S>>, s0: S, p: Pool<S>) returns (t: Step)
    requires Inv(jobs, s0, p) && !Finished(jobs, p) && |p.threads| >= 1
    ensures Enabled(jobs, p, t)
  {
    if p.submitted < |jobs| {
      t := Submit;
    } else if p.turn < p.next {
      assert IsHeld(p.threads, p.turn);
      var w :| Holds(p.threads, w, p.turn);
      if p.threads[w].Entering? {
        t := Check(w);
      } else if p.threads[w].Inside? {
        t := Begin(w);
      } else if p.threads[w].Running? {
        t := Finish(w);
      } else {
        t := Release(w);
      }
    } else {
      assert forall w | 0 <= w < |p.threads| && !p.threads[w].Idle? :: Holds(p.threads, w, p.threads[w].job);
      t := Take(0);
    }
  }

  // ---- termination ----

  function Rank(f: Phase): nat {
    match f case Entering(_) => 4 case Inside(_) => 3 case Running(_) => 2 case Leaving(_) => 1 case _ => 0
  }

  function Ranks(threads: seq<Phase>): (r: nat)
    ensures r <= 4 * |threads|
  {
    if threads == [] then 0 else Rank(threads[0]) + Ranks(threads[1..])
  }

  lemma {:induction false} RankUpdate(threads: seq<Phase>, w: nat, f: Phase)
    requires w < |threads|
    ensures Ranks(threads[w := f]) == Ranks(threads) - Rank(threads[w]) + Rank(f)
  {
    var u := threads[w := f];
    if w == 0 {
      assert u[1..] == threads[1..];
    } else {
      assert u[1..] == threads[1..][w - 1 := f];
      RankUpdate(threads[1..], w - 1, f);
    }
  }

  /** An upper bound on the number of steps still possible. */
  ghost function Budget<S>(jobs: seq<Job<S>>, p: Pool<S>): int {
    (3 * |jobs| - p.submitted - p.next - p.turn) * (4 * |p.threads| + 1) + Ranks(p.threads)
  }

  lemma {:induction false} BudgetDrops(k: int, k': int, m: nat, r: nat, r': nat)
    requires k' < k && r' <= m
    ensures k' * (m + 1) + r' < k * (m + 1) + r
  {
    assert k' * (m + 1) <= (k - 1) * (m + 1);
    assert (k - 1) * (m + 1) == k * (m + 1) - (m + 1);
  }

  lemma {:induction false} StepSpendsBudget<S>(jobs: seq<Job<S>>, p: Pool<S>, t: Step)
    requires Enabled(jobs, p, t)
    ensures Budget(jobs, After(jobs, p, t)) < Budget(jobs, p)
  {
    var q := After(jobs, p, t);
    var k, k' := 3 * |jobs| - p.submitted - p.next - p.turn, 3 * |jobs| - q.submitted - q.next - q.turn;
    assert |q.threads| == |p.threads|;
    if k' < k {
      BudgetDrops(k, k', 4 * |p.threads|, Ranks(p.threads), Ranks(q.threads));
    } else {
      RankUpdate(p.threads, t.w, q.threads[t.w]);
      assert q.threads == p.threads[t.w := q.threads[t.w]];
    }
  }

  ghost predicate Leads<S>(jobs: seq<Job<S>>, p: Pool<S>, q: Pool<S>) {
    exists t :: Enabled(jobs, p, t) && q == After(jobs, p, t)
  }

  /** A run: every state follows from the one before by some enabled step. */
  ghost predicate Run<S>(jobs: seq<Job<S>>, workers: nat, s0: S, run: seq<Pool<S>>) {
    && |run| > 0 && run[0] == Start(workers, s0)
    && forall k | 0 <= k < |run| - 1 :: Leads(jobs, run[k], run[k + 1])
  }

  lemma {:induction false} StepKeeps<S>(jobs: seq<Job<S>>, s0: S, p: Pool<S>, q: Pool<S>)
    requires Inv(jobs, s0, p) && Leads(jobs, p, q)
    ensures Inv(jobs, s0, q) && |q.threads| == |p.threads| && Budget(jobs, q) < Budget(jobs, p)
  {
    var t :| Enabled(jobs, p, t) && q == After(jobs, p, t);
    InvStep(jobs, s0, p, t);
    StepSpendsBudget(jobs, p, t);
  }

  lemma {:induction false} RunInvariant<S>(jobs: seq<Job<S>>, workers: nat, s0: S, run: seq<Pool<S>>, k: nat)
    requires Run(jobs, workers, s0, run) && k < |run|
    ensures Inv(jobs, s0, run[k]) && |run[k].threads| == workers
    ensures Budget(jobs, run[k]) + k <= Budget(jobs, run[0])
    decreases k
  {
    if k == 0 {
      InvStart(jobs, workers, s0);
    } else {
      RunInvariant(jobs, workers, s0, run, k - 1);
      StepKeeps(jobs, s0, run[k - 1], run[k - 1 + 1]);
    }
  }

  lemma {:induction false} IdleRanks(workers: nat)
    ensures Ranks(seq(workers, _ => Idle)) == 0
  {
    if workers > 0 {
      assert seq(workers, _ => Idle)[1..] == seq(workers - 1, _ => Idle);
      IdleRanks(workers - 1);
    }
  }

  lemma {:induction false} BudgetBounds<S>(jobs: seq<Job<S>>, s0: S, p: Pool<S>)
    requires Inv(jobs, s0, p)
    ensures 0 <= Budget(jobs, p)
  {
    var k := 3 * |jobs| - p.submitted - p.next - p.turn;
    assert k >= 0;
    assert k * (4 * |p.threads| + 1) >= 0;
  }

  ghost predicate Stuck<S>(jobs: seq<Job<S>>, p: Pool<S>) { forall t :: !Enabled(jobs, p, t) }

  /** Nothing can move exactly when everything is finished, and then every job has been run, whatever raised. */
  lemma {:induction false} StuckIsFinished<S>(jobs: seq<Job<S>>, s0: S, p: Pool<S>)
    requires Inv(jobs, s0, p) && |p.threads| >= 1
    ensures Stuck(jobs, p) <==> Finished(jobs, p)
    ensures Finished(jobs, p) ==> p.shared == AllRun(jobs, |jobs|, s0)
    ensures Finished(jobs, p) ==> forall i: nat :: i in p.failed <==> RaisesAt(jobs, i, s0)
  {
    if !Finished(jobs, p) {
      var t := Progress(jobs, s0, p);
    }
  }

  lemma {:induction false} StartBudget<S>(jobs: seq<Job<S>>, workers: nat, s0: S)
    ensures Budget(jobs, Start(workers, s0)) == 3 * |jobs| * (4 * workers + 1)
  {
    IdleRanks(workers);
  }

  /** In every run at most one thread is past the turnstile. */
  lemma {:induction false} MutualExclusion<S>(jobs: seq<Job<S>>, workers: nat, s0: S, run: seq<Pool<S>>, k: nat, v: nat,
        w: nat)
    requires Run(jobs, workers, s0, run) && k < |run| && v < |run[k].threads| && w < |run[k].threads|
    requires run[k].threads[v].Admitted() && run[k].threads[w].Admitted()
    ensures v == w
  {
    RunInvariant(jobs, workers, s0, run, k);
    OneAdmitted(jobs, run[k], v, w);
  }

  /** The serial runner is at the state after all jobs until one raises, and stays at the state that one leaves. */
  lemma {:induction false} SerialStops<S>(jobs: seq<Job<S>>, k: nat, s: S)
    requires k <= |jobs|
    ensures (forall j: nat | j < k :: !RaisesAt(jobs, j, s)) ==> Serial(jobs, k, s) == Exit(AllRun(jobs, k, s), false)
    ensures forall i: nat | i < k && FirstRaise(jobs, i, s) :: Serial(jobs, k, s) == Exit(AllRun(jobs, i + 1, s), true)
    decreases k
  {
    if k > 0 {
      SerialStops(jobs, k - 1, s);
      forall i: nat | i < k && FirstRaise(jobs, i, s)
        ensures Serial(jobs, k, s) == Exit(AllRun(jobs, i + 1, s), true)
      {
        if i == k - 1 { assert Serial(jobs, k - 1, s) == Exit(AllRun(jobs, i, s), false); }
      }
      if forall j: nat | j < k :: !RaisesAt(jobs, j, s) { assert !RaisesAt(jobs, k - 1, s); }
    }
  }

  lemma {:induction false} HasFirstRaise<S>(jobs: seq<Job<S>>, k: nat, s: S) returns (i: nat)
    requires RaisesAt(jobs, k, s)
    ensures i <= k && FirstRaise(jobs, i, s)
    decreases k
  {
    if j: nat :| j < k && RaisesAt(jobs, j, s) {
      i := HasFirstRaise(jobs, j, s);
    } else {
      i := k;
    }
  }

  lemma {:induction false} AllRunSplits<S>(jobs: seq<Job<S>>, i: nat, k: nat, s: S)
    requires i <= k <= |jobs|
    ensures AllRun(jobs, k, s) == AllRun(jobs[i..], k - i, AllRun(jobs, i, s))
    decreases k
  {
    if i < k { AllRunSplits(jobs, i, k - 1, s); }
  }

  /** The two runners leave the same state exactly when the jobs behind the first one to raise change nothing. */
  ghost predicate RunnersAgree<S>(jobs: seq<Job<S>>, s: S) {
    forall i: nat | FirstRaise(jobs, i, s) ::
      AllRun(jobs[i + 1..], |jobs| - i - 1, AllRun(jobs, i + 1, s)) == AllRun(jobs, i + 1, s)
  }

  lemma {:induction false} FirstRaiseIsUnique<S>(jobs: seq<Job<S>>, i: nat, j: nat, s: S)
    requires FirstRaise(jobs, i, s) && FirstRaise(jobs, j, s)
    ensures i == j
  {}

  lemma {:induction false} FirstRaises<S>(jobs: seq<Job<S>>, i: nat, s: S)
    requires FirstRaise(jobs, i, s)
    ensures i < |jobs| && RaisesAt(jobs, i, s)
  {}

  lemma {:induction false} AgreeAfter<S>(jobs: seq<Job<S>>, i: nat, s: S)
    requires FirstRaise(jobs, i, s)
    ensures Serial(jobs, |jobs|, s).raised
    ensures AllRun(jobs, |jobs|, s) == Serial(jobs, |jobs|, s).state <==> RunnersAgree(jobs, s)
  {
    hide FirstRaise, AllRun, Serial;
    SerialStops(jobs, |jobs|, s);
    assert i < |jobs| by { FirstRaises(jobs, i, s); }
    AllRunSplits(jobs, i + 1, |jobs|, s);
    forall j: nat | FirstRaise(jobs, j, s) ensures j == i { FirstRaiseIsUnique(jobs, i, j, s); }
  }

  lemma {:induction false} AgreeIff<S>(jobs: seq<Job<S>>, s: S)
    ensures Serial(jobs, |jobs|, s).raised <==> exists i: nat :: RaisesAt(jobs, i, s)
    ensures AllRun(jobs, |jobs|, s) == Serial(jobs, |jobs|, s).state <==> RunnersAgree(jobs, s)
  {
    hide AllRun, Serial, Done;
    if k: nat :| RaisesAt(jobs, k, s) {
      var i := HasFirstRaise(jobs, k, s);
      AgreeAfter(jobs, i, s);
    } else {
      SerialStops(jobs, |jobs|, s);
    }
  }

  /** Every schedule is finite, and one that cannot be continued has run all jobs in submission order, also behind a
      job that raised. It re-raises exactly when the serial runner raises, and leaves the serial runner's state
      exactly when nothing raises or what stands behind the first job that raises changes nothing. */
  lemma {:induction false} TurnstileIsSerial<S>(jobs: seq<Job<S>>, workers: nat, s0: S, run: seq<Pool<S>>)
    requires workers >= 1 && Run(jobs, workers, s0, run)
    ensures |run| <= 3 * |jobs| * (4 * workers + 1) + 1
    ensures Stuck(jobs, run[|run| - 1]) <==> Finished(jobs, run[|run| - 1])
    ensures Finished(jobs, run[|run| - 1]) ==> run[|run| - 1].shared == AllRun(jobs, |jobs|, s0)
    ensures Finished(jobs, run[|run| - 1]) ==>
      (run[|run| - 1].failed != {} <==> Serial(jobs, |jobs|, s0).raised)
    ensures Finished(jobs, run[|run| - 1]) ==> forall i: nat :: i in run[|run| - 1].failed <==> RaisesAt(jobs, i, s0)
    ensures Finished(jobs, run[|run| - 1]) ==>
      (run[|run| - 1].shared == Serial(jobs, |jobs|, s0).state <==> RunnersAgree(jobs, s0))
  {
    var last := |run| - 1;
    RunInvariant(jobs, workers, s0, run, last);
    StartBudget(jobs, workers, s0);
    BudgetBounds(jobs, s0, run[last]);
    StuckIsFinished(jobs, s0, run[last]);
    AgreeIff(jobs, s0);
    if Finished(jobs, run[last]) {
      if i :| i in run[last].failed { assert RaisesAt(jobs, i, s0); }
      if i: nat :| RaisesAt(jobs, i, s0) { assert i in run[last].failed; }
    }
  }
}
