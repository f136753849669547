/** The task runtime: tasks and their execution, quantum payload handles, the append-only log, and the runtime object.
    An exception that leaves a call also leaves the state changes made before it. */
module TaskRuntimes {
  import opened Basics
  import Turnstile

  type TaskId = string
  type WorkerId = string
  type PayloadId = string
  type World = map<string, int>

  datatype TaskState = Ready | Running | Done | Failed | Cancelled | TimedOut

  /** A task's result. Some values have no canonical text, such as a mapping with keys of mixed types: they cannot be
      hashed into an event. */
  datatype Output = Output(value: int, hashable: bool)

  /** `Escaped` is an exception outside the class that the runtime catches. */
  datatype Outcome = Returned(output: Output) | Raised(message: string) | Escaped

  /** A task body may read and write anything outside the runtime, the `World`. */
  datatype Task = Task(owner: WorkerId, fn: World -> (World, Outcome), cost: real, timeout: Option<real>,
                       logicalTime: nat, state: TaskState, result: Option<Output>)
  {
    predicate Settled() { state != Ready && state != Running }

    predicate TooLong() { timeout.Some? && cost > timeout.value }
  }

  datatype PayloadState = Live | Moved | Consumed

  datatype Handover = Handover(key: PayloadId, src: string, dst: string)

  datatype Delta = Delta(acquire: seq<PayloadId>, move: seq<Handover>, release: seq<PayloadId>, consume: seq<PayloadId>)

  const NO_DELTA: Delta := Delta([], [], [], [])

  datatype Operation =
    | SPAWN | TASK_START | TASK_DONE | TASK_FAIL | TASK_TIMEOUT | TASK_CANCEL | OWNERSHIP_TRANSFER | OWNERSHIP_RELEASE

  datatype Event = Event(time: nat, worker: WorkerId, operation: Operation, subject: string,
                         output: Option<Output>, ownership: Delta)

  /** `AlreadySettled` is a cancellation that returns false; the others are exceptions. */
  datatype Error = NotLive | CloneRejected | DuplicateTask | AlreadySettled | LogSealed

  datatype Result = Ok | Err(error: Error)

  /** A snapshot of the runtime. `held` lists each task's payload handles, `ownerOf` is the runtime's own index. */
  datatype Runtime = Runtime(
    workers: set<WorkerId>, tasks: map<TaskId, Task>, clock: nat, log: seq<Event>, sealed: bool,
    completed: map<WorkerId, nat>, world: World,
    payloads: map<PayloadId, PayloadState>, held: map<TaskId, seq<PayloadId>>, ownerOf: map<PayloadId, TaskId>)

  function Initial(workers: set<WorkerId>): Runtime {
    Runtime(workers, map[], 0, [], false, map[], map[], map[], map[], map[])
  }

  function Without(s: seq<PayloadId>, p: PayloadId): (r: seq<PayloadId>)
    ensures multiset(r) == multiset(s)[p := 0]
  {
    if s == [] then []
    else
      assert s == [s[0]] + s[1..];
      if s[0] == p then Without(s[1..], p) else [s[0]] + Without(s[1..], p)
  }

  /** Append an event, stamped with the given time or by a tick of the clock. A sealed log refuses before the tick, a
      value that cannot be hashed after it. */
  function Append(rt: Runtime, time: Option<nat>, w: WorkerId, op: Operation, subject: string,
        output: Option<Output>, d: Delta): Exit<Runtime>
  {
    if rt.sealed then Exit(rt, true)
    else
      var now := if time.Some? then time.value else rt.clock + 1;
      var ticked := if time.Some? then rt else rt.(clock := rt.clock + 1);
      if output.Some? && !output.value.hashable then Exit(ticked, true)
      else Exit(ticked.(log := rt.log + [Event(now, w, op, subject, output, d)]), false)
  }

  // ---- execution ----

  function Named(owner: WorkerId): WorkerId { if owner == "" then "-" else owner }

  function Settle(rt: Runtime, t: TaskId, state: TaskState, result: Option<Output>): Runtime
    requires t in rt.tasks
  {
    rt.(tasks := rt.tasks[t := rt.tasks[t].(state := state, result := result)])
  }

  /** Everything before the task body: a cancelled task does nothing, an over-long one times out. */
  function Begin(rt: Runtime, t: TaskId): Exit<Runtime> {
    if t !in rt.tasks || rt.tasks[t].state == Cancelled then Exit(rt, false)
    else
      var task := rt.tasks[t];
      var w := Named(task.owner);
      if task.TooLong() then Append(Settle(rt, t, TimedOut, task.result), None, w, TASK_TIMEOUT, t, None, NO_DELTA)
      else Append(Settle(rt, t, Running, task.result), Some(task.logicalTime), w, TASK_START, t, None, NO_DELTA)
  }

  function Credited(completed: map<WorkerId, nat>, w: WorkerId): map<WorkerId, nat> {
    if w == "" then completed else completed[w := (if w in completed then completed[w] else 0) + 1]
  }

  predicate KnownOwner(rt: Runtime, w: WorkerId) { w == "" || w in rt.workers }

  /** What follows the body: the owner is looked up, credited if the body returned, and the result is logged. */
  function Concluded(rt: Runtime, t: TaskId, outcome: Outcome): Exit<Runtime>
    requires t in rt.tasks
  {
    var task := rt.tasks[t];
    match outcome
    case Escaped => Exit(rt, true)
    case Returned(v) =>
      var mid := Settle(rt, t, Done, Some(v));
      if !KnownOwner(rt, task.owner) then Exit(mid, true)
      else
        var credited := mid.(completed := Credited(rt.completed, task.owner));
        Append(credited, None, Named(task.owner), TASK_DONE, t, Some(v), NO_DELTA)
    case Raised(_) =>
      var mid := Settle(rt, t, Failed, task.result);
      if !KnownOwner(rt, task.owner) then Exit(mid, true)
      else Append(mid, None, Named(task.owner), TASK_FAIL, t, task.result, NO_DELTA)
  }

  /** The body and what follows it. */
  function Finish(rt: Runtime, t: TaskId): Exit<Runtime> {
    if t !in rt.tasks || rt.tasks[t].state != Running then Exit(rt, false)
    else
      var (world, outcome) := rt.tasks[t].fn(rt.world);
      Concluded(rt.(world := world), t, outcome)
  }

  function Execute(rt: Runtime, t: TaskId): Exit<Runtime> {
    var b := Begin(rt, t);
    if b.raised then b else Finish(b.state, t)
  }

  /** Every task of the list, whether or not one before it raised. */
  function ExecuteAll(rt: Runtime, order: seq<TaskId>): Runtime {
    if order == [] then rt else Execute(ExecuteAll(rt, order[..|order| - 1]), order[|order| - 1]).state
  }

  /** The serial runner: the list up to the first task that raises. */
  function RunSerially(rt: Runtime, order: seq<TaskId>): Exit<Runtime> {
    if order == [] then Exit(rt, false)
    else
      var before := RunSerially(rt, order[..|order| - 1]);
      if before.raised then before else Execute(before.state, order[|order| - 1])
  }

  predicate OutcomeFails(rt: Runtime, task: Task, outcome: Outcome) {
    || outcome.Escaped?
    || !KnownOwner(rt, task.owner)
    || (outcome.Returned? && !outcome.output.hashable)
    || (outcome.Raised? && task.result.Some? && !task.result.value.hashable)
  }

  /** An execution raises when the log is sealed, the body's exception escapes, the owner is no worker of the
      federation, or the result cannot be hashed. */
  predicate Fails(rt: Runtime, t: TaskId) {
    t in rt.tasks && rt.tasks[t].state != Cancelled && 
    (rt.sealed || (!rt.tasks[t].TooLong() && OutcomeFails(rt, rt.tasks[t], rt.tasks[t].fn(rt.world).1)))
  }

  // ---- one execution ----

  function Halted(task: Task): TaskState { if task.TooLong() then TimedOut else Running }

  /** What no execution changes. */
  ghost predicate Kept(a: Runtime, b: Runtime) {
    && b.tasks.Keys == a.tasks.Keys && b.sealed == a.sealed && b.workers == a.workers
    && forall t | t in a.tasks :: SameTask(a.tasks[t], b.tasks[t])
  }

  ghost predicate SameTask(a: Task, b: Task) {
    && b.owner == a.owner && b.fn == a.fn && b.cost == a.cost && b.timeout == a.timeout
    && (b.state == Cancelled <==> a.state == Cancelled)
  }

  /** Only task `u` may differ, and the log only grows. */
  ghost predicate Step(a: Runtime, b: Runtime, u: TaskId) {
    && Kept(a, b) && |b.log| >= |a.log|
    && forall t | t in a.tasks && t != u :: b.tasks[t] == a.tasks[t]
  }

  lemma {:induction false} AppendStep(rt: Runtime, time: Option<nat>, w: WorkerId, op: Operation, subject: string,
        output: Option<Output>, u: TaskId)
    ensures Append(rt, time, w, op, subject, output, NO_DELTA).raised
      <==> rt.sealed || (output.Some? && !output.value.hashable)
    ensures Step(rt, Append(rt, time, w, op, subject, output, NO_DELTA).state, u)
    ensures var next := Append(rt, time, w, op, subject, output, NO_DELTA).state;
      next.tasks == rt.tasks && next.world == rt.world
    ensures rt.sealed ==> Append(rt, time, w, op, subject, output, NO_DELTA).state == rt
    ensures !Append(rt, time, w, op, subject, output, NO_DELTA).raised ==>
      |Append(rt, time, w, op, subject, output, NO_DELTA).state.log| == |rt.log| + 1
  {}

  lemma {:induction false} BeginStep(rt: Runtime, u: TaskId)
    requires u in rt.tasks && rt.tasks[u].state != Cancelled
    ensures Step(rt, Begin(rt, u).state, u) && Begin(rt, u).state.world == rt.world
    ensures Begin(rt, u).raised <==> rt.sealed
    ensures Begin(rt, u).state.tasks[u] == rt.tasks[u].(state := Halted(rt.tasks[u]))
    ensures rt.sealed ==> Begin(rt, u).state == Settle(rt, u, Halted(rt.tasks[u]), rt.tasks[u].result)
    ensures !rt.sealed ==> |Begin(rt, u).state.log| > |rt.log|
  {
    hide Append;
    var task := rt.tasks[u];
    AppendStep(Settle(rt, u, TimedOut, task.result), None, Named(task.owner), TASK_TIMEOUT, u, None, u);
    AppendStep(Settle(rt, u, Running, task.result), Some(task.logicalTime), Named(task.owner), TASK_START, u, None, u);
  }

  lemma {:induction false} ConcludedStep(rt: Runtime, u: TaskId, outcome: Outcome)
    requires u in rt.tasks && rt.tasks[u].state != Cancelled && !rt.sealed
    ensures Step(rt, Concluded(rt, u, outcome).state, u)
    ensures !Concluded(rt, u, outcome).raised ==> Concluded(rt, u, outcome).state.tasks[u].Settled()
    ensures Concluded(rt, u, outcome).raised <==> OutcomeFails(rt, rt.tasks[u], outcome)
  {
    hide Append, Credited;
    var task := rt.tasks[u];
    match outcome
    case Escaped =>
    case Returned(v) =>
      var mid := Settle(rt, u, Done, Some(v)).(completed := Credited(rt.completed, task.owner));
      AppendStep(mid, None, Named(task.owner), TASK_DONE, u, Some(v), u);
    case Raised(_) =>
      AppendStep(Settle(rt, u, Failed, task.result), None, Named(task.owner), TASK_FAIL, u, task.result, u);
  }

  lemma {:induction false} CancelledSkips(rt: Runtime, u: TaskId)
    requires u !in rt.tasks || rt.tasks[u].state == Cancelled
    ensures Execute(rt, u) == Exit(rt, false)
  {}

  lemma {:induction false} RaisesIff(rt: Runtime, u: TaskId)
    ensures Execute(rt, u).raised <==> Fails(rt, u)
    ensures Step(rt, Execute(rt, u).state, u)
    ensures u in rt.tasks && !Fails(rt, u) ==> Execute(rt, u).state.tasks[u].Settled()
    ensures u in rt.tasks && rt.tasks[u].state != Cancelled && !rt.sealed ==> |Execute(rt, u).state.log| > |rt.log|
  {
    hide Begin, Concluded;
    if u in rt.tasks && rt.tasks[u].state != Cancelled {
      BeginStep(rt, u);
      var mid := Begin(rt, u).state;
      if !rt.sealed && mid.tasks[u].state == Running {
        var (world, outcome) := mid.tasks[u].fn(mid.world);
        ConcludedStep(mid.(world := world), u, outcome);
      }
    } else {
      CancelledSkips(rt, u);
    }
  }

  // ---- the two runners ----

  function JobOf(t: TaskId): Turnstile.Job<Runtime> {
    Turnstile.Job((rt: Runtime) => Begin(rt, t), (rt: Runtime) => Finish(rt, t))
  }

  function Jobs(order: seq<TaskId>): (r: seq<Turnstile.Job<Runtime>>)
    ensures |r| == |order| && forall i | 0 <= i < |r| :: r[i] == JobOf(order[i])
  {
    seq(|order|, i requires 0 <= i < |order| => JobOf(order[i]))
  }

  lemma {:induction false} JobIsExecute(rt: Runtime, t: TaskId)
    ensures Turnstile.Done(JobOf(t), rt) == Execute(rt, t)
  {
    assert JobOf(t).begin(rt) == Begin(rt, t);
    if !Begin(rt, t).raised { assert JobOf(t).finish(Begin(rt, t).state) == Finish(Begin(rt, t).state, t); }
  }

  lemma {:induction false} JobsAreTasks(rt: Runtime, order: seq<TaskId>, k: nat)
    requires k <= |order|
    ensures Turnstile.AllRun(Jobs(order), k, rt) == ExecuteAll(rt, order[..k])
    ensures Turnstile.Serial(Jobs(order), k, rt) == RunSerially(rt, order[..k])
    ensures Turnstile.RaisesAt(Jobs(order), k, rt) <==> k < |order| && Fails(ExecuteAll(rt, order[..k]), order[k])
    decreases k
  {
    hide Execute, Fails, JobOf, Turnstile.Done;
    if k > 0 {
      JobsAreTasks(rt, order, k - 1);
      JobIsExecute(ExecuteAll(rt, order[..k - 1]), order[k - 1]);
      JobIsExecute(RunSerially(rt, order[..k - 1]).state, order[k - 1]);
      assert order[..k][..k - 1] == order[..k - 1] && order[..k][k - 1] == order[k - 1];
    }
    if k < |order| {
      JobIsExecute(ExecuteAll(rt, order[..k]), order[k]);
      RaisesIff(ExecuteAll(rt, order[..k]), order[k]);
    }
  }

  /** Where the serial runner stops. */
  ghost predicate StopsAt(rt: Runtime, order: seq<TaskId>, i: nat) {
    && i < |order| && Fails(ExecuteAll(rt, order[..i]), order[i])
    && forall j: nat | j < i :: !Fails(ExecuteAll(rt, order[..j]), order[j])
  }

  lemma {:induction false} StopsAtIsFirstRaise(rt: Runtime, order: seq<TaskId>, i: nat)
    ensures StopsAt(rt, order, i) <==> Turnstile.FirstRaise(Jobs(order), i, rt)
  {
    hide Fails, ExecuteAll;
    if i < |order| {
      forall j: nat | j <= i
        ensures Turnstile.RaisesAt(Jobs(order), j, rt) <==> Fails(ExecuteAll(rt, order[..j]), order[j])
      {
        JobsAreTasks(rt, order, j);
      }
    }
  }

  /** Executing `t` changes nothing: it is cancelled, or the log is sealed and already stopped it in this state. */
  predicate Inert(rt: Runtime, t: TaskId) {
    t in rt.tasks && rt.tasks[t].state != Cancelled ==> rt.sealed && rt.tasks[t].state == Halted(rt.tasks[t])
  }

  predicate Quiet(rt: Runtime, order: seq<TaskId>) { forall t | t in order :: Inert(rt, t) }

  lemma {:induction false} SealedStep(rt: Runtime, u: TaskId)
    ensures u in rt.tasks && rt.tasks[u].state != Cancelled && rt.sealed ==>
      Execute(rt, u).state.tasks[u].state == Halted(rt.tasks[u])
    ensures Inert(rt, u) ==> Execute(rt, u).state == rt
  {
    if u in rt.tasks && rt.tasks[u].state != Cancelled {
      hide Begin;
      BeginStep(rt, u);
      var task := rt.tasks[u];
      assert task.state == Halted(task) ==> task.(state := Halted(task), result := task.result) == task;
      assert rt.tasks[u := task] == rt.tasks;
    }
  }

  /** A list keeps what an execution keeps, and shows that a task on it was not cancelled: the log grew, or, when it
      is sealed, the task is halted. */
  lemma {:induction false} ExecuteAllKept(rt: Runtime, order: seq<TaskId>, t: TaskId)
    ensures Kept(rt, ExecuteAll(rt, order)) && |ExecuteAll(rt, order).log| >= |rt.log|
    ensures t in rt.tasks && t !in order ==> ExecuteAll(rt, order).tasks[t] == rt.tasks[t]
    ensures t in rt.tasks && t in order && rt.tasks[t].state != Cancelled && !rt.sealed ==>
      |ExecuteAll(rt, order).log| > |rt.log|
    ensures t in rt.tasks && t in order && rt.tasks[t].state != Cancelled && rt.sealed ==>
      ExecuteAll(rt, order).tasks[t].state == Halted(rt.tasks[t])
    decreases |order|
  {
    hide Execute;
    if order != [] {
      var k := |order| - 1;
      assert order == order[..k] + [order[k]];
      ExecuteAllKept(rt, order[..k], t);
      RaisesIff(ExecuteAll(rt, order[..k]), order[k]);
      SealedStep(ExecuteAll(rt, order[..k]), order[k]);
    }
  }

  lemma {:induction false} AllInert(rt: Runtime, order: seq<TaskId>)
    requires Quiet(rt, order)
    ensures ExecuteAll(rt, order) == rt
    decreases |order|
  {
    hide Inert, Execute;
    if order != [] {
      AllInert(rt, order[..|order| - 1]);
      SealedStep(rt, order[|order| - 1]);
    }
  }

  /** A list changes nothing exactly when none of its tasks would change anything. */
  lemma {:induction false} UnchangedIffInert(rt: Runtime, order: seq<TaskId>)
    ensures ExecuteAll(rt, order) == rt <==> Quiet(rt, order)
  {
    hide Execute, ExecuteAll;
    if Quiet(rt, order) {
      AllInert(rt, order);
    } else {
      var t :| t in order && !Inert(rt, t);
      ExecuteAllKept(rt, order, t);
    }
  }

  /** No task behind the one that stops the serial runner would change anything. */
  ghost predicate QuietTail(rt: Runtime, order: seq<TaskId>) {
    forall i: nat | StopsAt(rt, order, i) :: Quiet(ExecuteAll(rt, order[..i + 1]), order[i + 1..])
  }

  lemma {:induction false} QuietTailIff(rt: Runtime, order: seq<TaskId>)
    ensures Turnstile.RunnersAgree(Jobs(order), rt) <==> QuietTail(rt, order)
  {
    hide StopsAt, Quiet, ExecuteAll, Turnstile.FirstRaise, Turnstile.AllRun;
    forall i: nat
      ensures StopsAt(rt, order, i) <==> Turnstile.FirstRaise(Jobs(order), i, rt)
      ensures StopsAt(rt, order, i) ==> i < |order|
      ensures i < |order| ==>
        ((Turnstile.AllRun(Jobs(order)[i + 1..], |order| - i - 1, Turnstile.AllRun(Jobs(order), i + 1, rt))
            == Turnstile.AllRun(Jobs(order), i + 1, rt))
          <==> Quiet(ExecuteAll(rt, order[..i + 1]), order[i + 1..]))
    {
      StopsAtIsFirstRaise(rt, order, i);
      StopsInRange(rt, order, i);
      if i < |order| { TailOf(rt, order, i); }
    }
  }

  lemma {:induction false} StopsInRange(rt: Runtime, order: seq<TaskId>, i: nat)
    ensures StopsAt(rt, order, i) ==> i < |order|
  {}

  lemma {:induction false} TailOf(rt: Runtime, order: seq<TaskId>, i: nat)
    requires i < |order|
    ensures Turnstile.AllRun(Jobs(order), i + 1, rt) == ExecuteAll(rt, order[..i + 1])
    ensures
      (Turnstile.AllRun(Jobs(order)[i + 1..], |order| - i - 1, Turnstile.AllRun(Jobs(order), i + 1, rt))
         == Turnstile.AllRun(Jobs(order), i + 1, rt))
      <==> Quiet(ExecuteAll(rt, order[..i + 1]), order[i + 1..])
  {
    hide *;
    var rest, mid := order[i + 1..], ExecuteAll(rt, order[..i + 1]);
    JobsAreTasks(rt, order, i + 1);
    assert Jobs(order)[i + 1..] == Jobs(rest);
    JobsAreTasks(mid, rest, |rest|);
    assert rest[..|rest|] == rest;
    UnchangedIffInert(mid, rest);
  }

  function Workers(maxWorkers: nat, tasks: nat): nat { Min(maxWorkers, Max(1, tasks)) }

  /** The threaded runner always terminates, and has then executed the whole list in submission order. It raises
      exactly when the serial runner does, and leaves the serial runner's tasks, results, log, clock and world exactly
      when no task behind the first that raises would have changed anything. */
  lemma {:induction false} ThreadedEqualsSerial(order: seq<TaskId>, maxWorkers: nat, rt: Runtime,
        run: seq<Turnstile.Pool<Runtime>>)
    requires maxWorkers >= 1
    requires Turnstile.Run(Jobs(order), Workers(maxWorkers, |order|), rt, run)
    ensures |run| <= 3 * |order| * (4 * Workers(maxWorkers, |order|) + 1) + 1
    ensures Turnstile.Stuck(Jobs(order), run[|run| - 1]) ==> run[|run| - 1].shared == ExecuteAll(rt, order)
    ensures Turnstile.Stuck(Jobs(order), run[|run| - 1]) ==>
      (run[|run| - 1].failed != {} <==> RunSerially(rt, order).raised)
    ensures Turnstile.Stuck(Jobs(order), run[|run| - 1]) ==>
      (run[|run| - 1].shared == RunSerially(rt, order).state <==> QuietTail(rt, order))
  {
    hide QuietTail, Turnstile.RunnersAgree, Turnstile.Run, Turnstile.Serial, Turnstile.AllRun;
    Turnstile.TurnstileIsSerial(Jobs(order), Workers(maxWorkers, |order|), rt, run);
    JobsAreTasks(rt, order, |order|);
    QuietTailIff(rt, order);
    assert order[..|order|] == order;
  }

  lemma {:induction false} RunnersAgreeIff(rt: Runtime, order: seq<TaskId>)
    ensures ExecuteAll(rt, order) == RunSerially(rt, order).state <==> QuietTail(rt, order)
    ensures RunSerially(rt, order).raised <==> exists i: nat :: StopsAt(rt, order, i)
  {
    hide QuietTail, StopsAt, Turnstile.RunnersAgree, Turnstile.FirstRaise, Turnstile.Serial, Turnstile.AllRun;
    Turnstile.AgreeIff(Jobs(order), rt);
    JobsAreTasks(rt, order, |order|);
    QuietTailIff(rt, order);
    assert order[..|order|] == order;
    if k: nat :| Turnstile.RaisesAt(Jobs(order), k, rt) {
      var i := Turnstile.HasFirstRaise(Jobs(order), k, rt);
      StopsAtIsFirstRaise(rt, order, i);
    }
    if i: nat :| StopsAt(rt, order, i) {
      StopsAtIsFirstRaise(rt, order, i);
      assert Turnstile.RaisesAt(Jobs(order), i, rt) by { Turnstile.FirstRaises(Jobs(order), i, rt); }
    }
  }

  /** What `run` passes on: every task once, and all of them ready. */
  ghost predicate Pending(rt: Runtime, order: seq<TaskId>) {
    Distinct(order) && forall t | t in order :: t in rt.tasks && rt.tasks[t].state == Ready
  }

  /** A task that an execution of others has not reached yet is as it was. */
  lemma {:induction false} StillReady(rt: Runtime, order: seq<TaskId>, i: nat, j: nat)
    requires Pending(rt, order) && i <= j < |order|
    ensures order[j] in ExecuteAll(rt, order[..i]).tasks
    ensures ExecuteAll(rt, order[..i]).tasks[order[j]] == rt.tasks[order[j]]
    ensures ExecuteAll(rt, order[..i]).sealed == rt.sealed && ExecuteAll(rt, order[..i]).workers == rt.workers
  {
    hide ExecuteAll;
    assert order[j] !in order[..i];
    assert order[j] in order;
    ExecuteAllKept(rt, order[..i], order[j]);
  }

  lemma {:induction false} FirstStop(rt: Runtime, order: seq<TaskId>, k: nat) returns (i: nat)
    requires k < |order| && Fails(ExecuteAll(rt, order[..k]), order[k])
    ensures i <= k && StopsAt(rt, order, i)
    decreases k
  {
    if j: nat :| j < k && Fails(ExecuteAll(rt, order[..j]), order[j]) {
      i := FirstStop(rt, order, j);
    } else {
      i := k;
    }
  }

  /** On the lists that `run` passes on, the runners agree exactly when no task but the last raises. */
  lemma {:induction false} PendingRunnersAgreeIff(rt: Runtime, order: seq<TaskId>)
    requires Pending(rt, order)
    ensures ExecuteAll(rt, order) == RunSerially(rt, order).state
      <==> forall i | 0 <= i < |order| - 1 :: !Fails(ExecuteAll(rt, order[..i]), order[i])
  {
    hide ExecuteAll, RunSerially, Fails;
    RunnersAgreeIff(rt, order);
    if k :| 0 <= k < |order| - 1 && Fails(ExecuteAll(rt, order[..k]), order[k]) {
      var i := FirstStop(rt, order, k);
      StillReady(rt, order, i + 1, i + 1);
      assert order[i + 1] in order[i + 1..] && order[i + 1] in order;
      assert !Inert(ExecuteAll(rt, order[..i + 1]), order[i + 1]);
    } else {
      forall i: nat | StopsAt(rt, order, i) ensures Quiet(ExecuteAll(rt, order[..i + 1]), order[i + 1..]) {
        assert i == |order| - 1;
      }
    }
  }

  /** A body that, in any world, returns a value that can be hashed or raises an exception the runtime catches. */
  ghost predicate Behaves(task: Task) {
    forall world: World ::
      var outcome := task.fn(world).1; !outcome.Escaped? && (outcome.Returned? ==> outcome.output.hashable)
  }

  /** What a caller can check before `run`: with an open log, bodies that behave and fresh tasks, the runners agree
      exactly when every task but the last times out or has a known owner; with a sealed log, exactly when there is at
      most one task. */
  lemma {:induction false} OwnersDecide(rt: Runtime, order: seq<TaskId>)
    requires Pending(rt, order)
    ensures rt.sealed ==> (ExecuteAll(rt, order) == RunSerially(rt, order).state <==> |order| <= 1)
    ensures !rt.sealed && (forall t | t in order :: Behaves(rt.tasks[t]) && rt.tasks[t].result == None) ==>
      (ExecuteAll(rt, order) == RunSerially(rt, order).state
       <==> forall i | 0 <= i < |order| - 1 :: rt.tasks[order[i]].TooLong() || KnownOwner(rt, rt.tasks[order[i]].owner))
  {
    hide ExecuteAll, RunSerially;
    PendingRunnersAgreeIff(rt, order);
    forall i: nat | i < |order|
      ensures rt.sealed ==> Fails(ExecuteAll(rt, order[..i]), order[i])
      ensures !rt.sealed && Behaves(rt.tasks[order[i]]) && rt.tasks[order[i]].result == None ==>
        (Fails(ExecuteAll(rt, order[..i]), order[i])
         <==> !(rt.tasks[order[i]].TooLong() || KnownOwner(rt, rt.tasks[order[i]].owner)))
    {
      StillReady(rt, order, i, i);
    }
    if rt.sealed && |order| > 1 { assert Fails(ExecuteAll(rt, order[..0]), order[0]); }
  }

  /** A task none of whose executions raises is settled by a list it is on; a task not on the list stays as it was. */
  lemma {:induction false} ExecuteAllSettles(rt: Runtime, order: seq<TaskId>, t: TaskId)
    requires t in rt.tasks
    ensures t in ExecuteAll(rt, order).tasks
    ensures t !in order ==> ExecuteAll(rt, order).tasks[t] == rt.tasks[t]
    ensures (forall i | 0 <= i < |order| && order[i] == t :: !Fails(ExecuteAll(rt, order[..i]), t)) && t in order ==>
      ExecuteAll(rt, order).tasks[t].Settled()
    decreases |order|
  {
    hide Execute, Fails;
    ExecuteAllKept(rt, order, t);
    if order != [] {
      var k := |order| - 1;
      assert order == order[..k] + [order[k]];
      assert forall i | 0 <= i < k :: order[..k][..i] == order[..i];
      ExecuteAllSettles(rt, order[..k], t);
      RaisesIff(ExecuteAll(rt, order[..k]), order[k]);
    }
  }

  /** The serial runner has executed exactly the tasks up to the one that stops it: those before are settled, those
      behind are as they were. */
  lemma {:induction false} SerialStopsAt(rt: Runtime, order: seq<TaskId>, i: nat, t: TaskId)
    requires StopsAt(rt, order, i) && t in rt.tasks
    ensures i < |order| && RunSerially(rt, order) == Exit(ExecuteAll(rt, order[..i + 1]), true)
    ensures t in ExecuteAll(rt, order[..i + 1]).tasks
    ensures t !in order[..i + 1] ==> ExecuteAll(rt, order[..i + 1]).tasks[t] == rt.tasks[t]
    ensures t in order[..i] && t != order[i] ==> ExecuteAll(rt, order[..i + 1]).tasks[t].Settled()
  {
    hide ExecuteAll, RunSerially, Fails, Turnstile.Serial, Turnstile.AllRun, Turnstile.FirstRaise;
    StopsAtIsFirstRaise(rt, order, i);
    Turnstile.SerialStops(Jobs(order), |order|, rt);
    JobsAreTasks(rt, order, |order|);
    JobsAreTasks(rt, order, i + 1);
    assert order[..|order|] == order;
    var done := order[..i + 1];
    assert forall k | 0 <= k < i + 1 :: done[..k] == order[..k] && done[k] == order[k];
    assert done == order[..i] + [order[i]];
    ExecuteAllSettles(rt, done, t);
  }

  function Unit(world: World): (World, Outcome) { (world, Returned(Output(0, true))) }

  function StateIn(rt: Runtime, t: TaskId): Option<TaskState> {
    if t in rt.tasks then Some(rt.tasks[t].state) else None
  }

  lemma {:induction false} UnitIsDone(rt: Runtime, t: TaskId)
    requires t in rt.tasks && rt.tasks[t].fn == Unit && !rt.tasks[t].TooLong() && rt.tasks[t].state == Ready
    requires !rt.sealed && KnownOwner(rt, rt.tasks[t].owner)
    ensures StateIn(Execute(rt, t).state, t) == Some(Done)
  {
    hide Credited;
    assert Unit(rt.world).1 == Returned(Output(0, true));
  }

  /** Two tasks that only return, the first spawned for an owner that is no worker: the serial runner leaves the
      second one ready, the threaded runner completes it. Both raise. */
  lemma {:induction false} UnknownOwnerSplitsRunners() returns (rt: Runtime)
    ensures rt == Spawn(Spawn(Initial({"W0"}), "T0", "nobody", Unit, 1.0, None).0, "T1", "W0", Unit, 1.0, None).0
    ensures Pending(rt, ["T0", "T1"]) && !rt.sealed
    ensures RunSerially(rt, ["T0", "T1"]).raised
    ensures StateIn(RunSerially(rt, ["T0", "T1"]).state, "T1") == Some(Ready)
    ensures StateIn(ExecuteAll(rt, ["T0", "T1"]), "T1") == Some(Done)
  {
    hide Execute, RunSerially;
    rt := Spawn(Spawn(Initial({"W0"}), "T0", "nobody", Unit, 1.0, None).0, "T1", "W0", Unit, 1.0, None).0;
    var order := ["T0", "T1"];
    assert order[..0] == [] && order[..1] == ["T0"];
    assert Fails(ExecuteAll(rt, order[..0]), order[0]);
    SerialStopsAt(rt, order, 0, "T1");
    var mid := ExecuteAll(rt, order[..1]);
    assert mid.tasks["T1"] == rt.tasks["T1"];
    ExecuteAllKept(rt, order[..1], "T1");
    UnitIsDone(mid, "T1");
    assert ExecuteAll(rt, order) == Execute(mid, "T1").state;
  }

  // ---- ownership ----

  /** The handle lists after `p` leaves its recorded owner, if that is another task, and joins `t`. */
  function Regranted(held: map<TaskId, seq<PayloadId>>, ownerOf: map<PayloadId, TaskId>, t: TaskId,
        p: PayloadId): (r: map<TaskId, seq<PayloadId>>)
    requires t in held
    ensures r.Keys == held.Keys
    ensures forall u | u in held :: u != t && (p !in ownerOf || ownerOf[p] != u) ==> r[u] == held[u]
    ensures p in ownerOf && ownerOf[p] in held && ownerOf[p] != t ==> r[ownerOf[p]] == Without(held[ownerOf[p]], p)
    ensures r[t] == held[t] + [p]
  {
    var rest := if p in ownerOf && ownerOf[p] != t && ownerOf[p] in held
                then held[ownerOf[p] := Without(held[ownerOf[p]], p)] else held;
    rest[t := rest[t] + [p]]
  }

  function Outcomes(e: Exit<Runtime>): (Runtime, Result) { (e.state, if e.raised then Err(LogSealed) else Ok) }

  /** Move a live payload into a task; the previous holder loses it. The log is written last. */
  function Transfer(rt: Runtime, t: TaskId, p: PayloadId): (Runtime, Result)
    requires t in rt.tasks && t in rt.held && p in rt.payloads
  {
    if rt.payloads[p] != Live then (rt, Err(NotLive))
    else if p in rt.held[t] then (rt, Err(CloneRejected))
    else
      var src := if p in rt.ownerOf then rt.ownerOf[p] else "-";
      var moved := rt.(held := Regranted(rt.held, rt.ownerOf, t, p), ownerOf := rt.ownerOf[p := t]);
      var d := NO_DELTA.(move := [Handover(p, src, t)]);
      Outcomes(Append(moved, None, Named(rt.tasks[t].owner), OWNERSHIP_TRANSFER, p, None, d))
  }

  /** Consume a payload; the source does not require that `t` holds it. */
  function Release(rt: Runtime, t: TaskId, p: PayloadId): (Runtime, Result)
    requires t in rt.tasks && t in rt.held && p in rt.payloads
  {
    var freed := rt.(held := rt.held[t := Without(rt.held[t], p)], payloads := rt.payloads[p := Consumed],
                     ownerOf := rt.ownerOf - {p});
    Outcomes(Append(freed, None, Named(rt.tasks[t].owner), OWNERSHIP_RELEASE, p, None, NO_DELTA.(consume := [p])))
  }

  /** Register a ready task and log it at its own logical time. */
  function Spawn(rt: Runtime, t: TaskId, owner: WorkerId, fn: World -> (World, Outcome), cost: real,
        timeout: Option<real>): (Runtime, Result)
  {
    if t in rt.tasks then (rt, Err(DuplicateTask))
    else
      var time := rt.clock + 1;
      var added := rt.(tasks := rt.tasks[t := Task(owner, fn, cost, timeout, time, Ready, None)],
                       held := rt.held[t := []], clock := time);
      Outcomes(Append(added, Some(time), owner, SPAWN, t, None, NO_DELTA))
  }

  function Cancel(rt: Runtime, t: TaskId): (Runtime, Result)
    requires t in rt.tasks
  {
    if rt.tasks[t].Settled() then (rt, Err(AlreadySettled))
    else
      var task := rt.tasks[t];
      Outcomes(Append(Settle(rt, t, Cancelled, task.result), None, Named(task.owner), TASK_CANCEL, t, None, NO_DELTA))
  }

  // ---- replay ----

  function Acquired(m: map<PayloadId, string>, keys: seq<PayloadId>, w: WorkerId): map<PayloadId, string> {
    if keys == [] then m else Acquired(m, keys[..|keys| - 1], w)[keys[|keys| - 1] := w]
  }

  function Handed(m: map<PayloadId, string>, moves: seq<Handover>): map<PayloadId, string> {
    if moves == [] then m
    else Handed(m, moves[..|moves| - 1])[moves[|moves| - 1].key := moves[|moves| - 1].dst]
  }

  function Dropped(m: map<PayloadId, string>, keys: seq<PayloadId>): map<PayloadId, string> {
    m - set k | k in keys
  }

  function Apply(m: map<PayloadId, string>, e: Event): map<PayloadId, string> {
    var d := e.ownership;
    Dropped(Dropped(Handed(Acquired(m, d.acquire, e.worker), d.move), d.release), d.consume)
  }

  /** Ownership as the log tells it. */
  function Replay(log: seq<Event>): map<PayloadId, string> {
    if log == [] then map[] else Apply(Replay(log[..|log| - 1]), log[|log| - 1])
  }

  lemma {:induction false} RaisedStays(rt: Runtime, order: seq<TaskId>, i: nat)
    requires i <= |order| && RunSerially(rt, order[..i]).raised
    ensures RunSerially(rt, order) == RunSerially(rt, order[..i])
    decreases |order|
  {
    hide Execute;
    if i < |order| {
      assert order[..|order| - 1][..i] == order[..i];
      RaisedStays(rt, order[..|order| - 1], i);
    } else {
      assert order[..i] == order;
    }
  }

  // ---- the objects ----

  class LamportClock {
    var time: nat

    constructor ()
      ensures time == 0
    {
      time := 0;
    }

    method Tick() returns (now: nat)
      modifies this
      ensures now == time == old(time) + 1
    {
      time := time + 1;
      now := time;
    }
  }

  class EventLog {
    const clock: LamportClock
    var events: seq<Event>
    var sealed: bool

    constructor (clock: LamportClock)
      ensures this.clock == clock && events == [] && !sealed
    {
      this.clock, events, sealed := clock, [], false;
    }

    /** A sealed log refuses without a tick; a value that cannot be hashed is refused after the tick; otherwise the
        log grows by one event at its end. */
    method Append(time: Option<nat>, w: WorkerId, op: Operation, subject: string, output: Option<Output>, d: Delta)
      returns (ok: bool)
      modifies this`events, clock
      ensures ok == (!sealed && (output.Some? ==> output.value.hashable))
      ensures clock.time == old(clock.time) + (if sealed || time.Some? then 0 else 1)
      ensures events == if ok then old(events) + [Event(if time.Some? then time.value else clock.time, w, op, subject, output, d)]
                        else old(events)
    {
      if sealed { return false; }
      var now;
      if time.Some? { now := time.value; } else { now := clock.Tick(); }
      if output.Some? && !output.value.hashable { return false; }
      events := events + [Event(now, w, op, subject, output, d)];
      ok := true;
    }

    method Seal()
      modifies this`sealed
      ensures sealed
    {
      sealed := true;
    }

    /** Ownership rebuilt from the log alone; within an event, acquisitions come first, then moves, then releases and
        consumptions. */
    method Reconstruct() returns (ownership: map<PayloadId, string>)
      ensures ownership == Replay(events)
    {
      ownership := map[];
      var i := 0;
      while i < |events|
        invariant 0 <= i <= |events|
        invariant ownership == Replay(events[..i])
      {
        assert events[..i + 1][..i] == events[..i];
        var d := events[i].ownership;
        ghost var before := ownership;
        var k := 0;
        while k < |d.acquire|
          invariant 0 <= k <= |d.acquire| && ownership == Acquired(before, d.acquire[..k], events[i].worker)
        {
          assert d.acquire[..k + 1][..k] == d.acquire[..k];
          ownership := ownership[d.acquire[k] := events[i].worker];
          k := k + 1;
        }
        assert d.acquire[..k] == d.acquire;
        ghost var acquired := ownership;
        k := 0;
        while k < |d.move|
          invariant 0 <= k <= |d.move| && ownership == Handed(acquired, d.move[..k])
        {
          assert d.move[..k + 1][..k] == d.move[..k];
          ownership := ownership[d.move[k].key := d.move[k].dst];
          k := k + 1;
        }
        assert d.move[..k] == d.move;
        ownership := DropAll(ownership, d.release);
        ownership := DropAll(ownership, d.consume);
        i := i + 1;
      }
      assert events[..i] == events;
    }

    static method DropAll(m: map<PayloadId, string>, keys: seq<PayloadId>) returns (r: map<PayloadId, string>)
      ensures r == Dropped(m, keys)
    {
      r := m;
      var k := 0;
      while k < |keys|
        invariant 0 <= k <= |keys| && r == Dropped(m, keys[..k])
      {
        assert keys[..k + 1] == keys[..k] + [keys[k]];
        r := r - {keys[k]};
        k := k + 1;
      }
      assert keys[..k] == keys;
    }
  }

  class TaskRuntime {
    const workers: set<WorkerId>
    const log: EventLog
    var tasks: map<TaskId, Task>
    var completed: map<WorkerId, nat>
    var world: World
    var payloads: map<PayloadId, PayloadState>
    var held: map<TaskId, seq<PayloadId>>
    var ownerOf: map<PayloadId, TaskId>

    ghost function State(): Runtime
      reads this, log, log.clock
    {
      Runtime(workers, tasks, log.clock.time, log.events, log.sealed, completed, world, payloads, held, ownerOf)
    }

    constructor (workers: set<WorkerId>)
      ensures State() == Initial(workers) && fresh(log) && fresh(log.clock)
    {
      this.workers := workers;
      var clock := new LamportClock();
      log := new EventLog(clock);
      tasks, completed, world, payloads, held, ownerOf := map[], map[], map[], map[], map[], map[];
    }

    method Record(time: Option<nat>, w: WorkerId, op: Operation, subject: string, output: Option<Output>, d: Delta)
      returns (raised: bool)
      modifies log`events, log.clock
      ensures Exit(State(), raised) == Append(old(State()), time, w, op, subject, output, d)
    {
      var ok := log.Append(time, w, op, subject, output, d);
      raised := !ok;
    }

    method TransferOwnership(t: TaskId, p: PayloadId) returns (r: Result)
      requires t in tasks && t in held && p in payloads
      modifies this, log`events, log.clock
      ensures (State(), r) == Transfer(old(State()), t, p)
    {
      if payloads[p] != Live { return Err(NotLive); }
      if p in held[t] { return Err(CloneRejected); }
      var src := "-";
      if p in ownerOf {
        src := ownerOf[p];
        if src != t && src in held { held := held[src := Without(held[src], p)]; }
      }
      held := held[t := held[t] + [p]];
      ownerOf := ownerOf[p := t];
      var d := NO_DELTA.(move := [Handover(p, src, t)]);
      var raised := Record(None, Named(tasks[t].owner), OWNERSHIP_TRANSFER, p, None, d);
      r := if raised then Err(LogSealed) else Ok;
    }

    method ReleaseOwnership(t: TaskId, p: PayloadId) returns (r: Result)
      requires t in tasks && t in held && p in payloads
      modifies this, log`events, log.clock
      ensures (State(), r) == Release(old(State()), t, p)
    {
      held := held[t := Without(held[t], p)];
      payloads := payloads[p := Consumed];
      ownerOf := ownerOf - {p};
      var raised := Record(None, Named(tasks[t].owner), OWNERSHIP_RELEASE, p, None, NO_DELTA.(consume := [p]));
      r := if raised then Err(LogSealed) else Ok;
    }

    method SpawnTask(t: TaskId, owner: WorkerId, fn: World -> (World, Outcome), cost: real, timeout: Option<real>)
      returns (r: Result)
      modifies this, log`events, log.clock
      ensures (State(), r) == Spawn(old(State()), t, owner, fn, cost, timeout)
    {
      if t in tasks { return Err(DuplicateTask); }
      var time := log.clock.Tick();
      tasks := tasks[t := Task(owner, fn, cost, timeout, time, Ready, None)];
      held := held[t := []];
      var raised := Record(Some(time), owner, SPAWN, t, None, NO_DELTA);
      r := if raised then Err(LogSealed) else Ok;
    }

    method CancelTask(t: TaskId) returns (r: Result)
      requires t in tasks
      modifies this, log`events, log.clock
      ensures (State(), r) == Cancel(old(State()), t)
    {
      var task := tasks[t];
      if task.Settled() { return Err(AlreadySettled); }
      tasks := tasks[t := task.(state := Cancelled)];
      var raised := Record(None, Named(task.owner), TASK_CANCEL, t, None, NO_DELTA);
      r := if raised then Err(LogSealed) else Ok;
    }

    /** Time the task out or start it. */
    method BeginTask(t: TaskId) returns (raised: bool)
      requires t in tasks && tasks[t].state != Cancelled
      modifies this, log`events, log.clock
      ensures Exit(State(), raised) == Begin(old(State()), t)
      ensures t in tasks
    {
      hide Append;
      var task := tasks[t];
      if task.TooLong() {
        tasks := tasks[t := task.(state := TimedOut)];
        raised := Record(None, Named(task.owner), TASK_TIMEOUT, t, None, NO_DELTA);
      } else {
        tasks := tasks[t := task.(state := Running)];
        raised := Record(Some(task.logicalTime), Named(task.owner), TASK_START, t, None, NO_DELTA);
      }
    }

    /** The body has returned or raised: look the owner up, credit it, log. */
    method ConcludeTask(t: TaskId, outcome: Outcome) returns (raised: bool)
      requires t in tasks
      modifies this, log`events, log.clock
      ensures Exit(State(), raised) == Concluded(old(State()), t, outcome)
    {
      var task := tasks[t];
      match outcome {
        case Escaped => return true;
        case Returned(v) => task := task.(state := Done, result := Some(v));
        case Raised(_) => task := task.(state := Failed);
      }
      tasks := tasks[t := task];
      if task.owner != "" {
        if task.owner !in workers { return true; }
        if task.state == Done { completed := Credited(completed, task.owner); }
      }
      var op := if task.state == Done then TASK_DONE else TASK_FAIL;
      raised := Record(None, Named(task.owner), op, t, task.result, NO_DELTA);
    }

    method ExecuteTask(t: TaskId) returns (raised: bool)
      requires t in tasks
      modifies this, log`events, log.clock
      ensures Exit(State(), raised) == Execute(old(State()), t)
    {
      hide Append, Concluded;
      if tasks[t].state == Cancelled { return false; }
      raised := BeginTask(t);
      if raised || tasks[t].state != Running { return; }
      var (after, outcome) := tasks[t].fn(world);
      world := after;
      raised := ConcludeTask(t, outcome);
    }

    /** One task after the other, until one raises. */
    method RunSerial(order: seq<TaskId>) returns (raised: bool)
      requires forall t | t in order :: t in tasks
      modifies this, log`events, log.clock
      ensures Exit(State(), raised) == RunSerially(old(State()), order)
    {
      hide Execute;
      var i := 0;
      raised := false;
      while i < |order| && !raised
        invariant 0 <= i <= |order|
        invariant Exit(State(), raised) == RunSerially(old(State()), order[..i])
        invariant tasks.Keys == old(tasks.Keys)
      {
        ghost var before := State();
        raised := ExecuteTask(order[i]);
        RaisesIff(before, order[i]);
        assert order[..i + 1][..i] == order[..i] && order[..i + 1][i] == order[i];
        i := i + 1;
      }
      assert order[..|order|] == order;
      if raised { RaisedStays(old(State()), order, i); }
    }
  }
}
