/** What one execution and a whole list do to the runtime, field by field, and what the calls of a history mean. */
module TaskOutcomes {
  import opened Basics
  import opened TaskRuntimes
  import opened OwnershipHistories

  // ---- one execution ----

  /** The source's name for the actor of an event. */
  function Actor(owner: WorkerId): WorkerId { if owner == "" then "-" else owner }

  predicate OnTime(task: Task) { task.timeout == None || task.cost <= task.timeout.value }

  function StartEvent(t: TaskId, task: Task): Event {
    Event(task.logicalTime, Actor(task.owner), TASK_START, t, None, NO_DELTA)
  }

  predicate Known(rt: Runtime, owner: WorkerId) { owner == "" || owner in rt.workers }

  predicate CanHash(output: Option<Output>) { output == None || output.value.hashable }

  function OneMore(completed: map<WorkerId, nat>, w: WorkerId): map<WorkerId, nat> {
    if w == "" then completed
    else if w in completed then completed[w := completed[w] + 1]
    else completed[w := 1]
  }

  /** The runtime when the body is called. */
  function Under(rt: Runtime, t: TaskId): Runtime
    requires t in rt.tasks
  {
    rt.(tasks := rt.tasks[t := rt.tasks[t].(state := Running)], log := rt.log + [StartEvent(t, rt.tasks[t])])
  }

  predicate Starts(rt: Runtime, t: TaskId) {
    t in rt.tasks && rt.tasks[t].state != Cancelled && OnTime(rt.tasks[t]) && !rt.sealed
  }

  lemma {:induction false} StartIs(rt: Runtime, t: TaskId)
    requires Starts(rt, t)
    ensures Begin(rt, t) == Exit(Under(rt, t), false)
    ensures Execute(rt, t) == Concluded(Under(rt, t).(world := rt.tasks[t].fn(rt.world).0), t, rt.tasks[t].fn(rt.world).1)
  {
    hide Concluded;
  }

  lemma {:induction false} SettledIs(rt: Runtime, t: TaskId, state: TaskState, result: Option<Output>)
    requires t in rt.tasks
    ensures Settle(Under(rt, t), t, state, result).tasks == rt.tasks[t := rt.tasks[t].(state := state, result := result)]
  {
  }

  /** A body that returns: its value is the task's result and the output of the completion event, the owner is credited,
      and the world is as the body left it. */
  lemma {:induction false} Completes(rt: Runtime, t: TaskId, world: World, v: Output)
    requires Starts(rt, t) && rt.tasks[t].fn(rt.world) == (world, Returned(v))
    requires Known(rt, rt.tasks[t].owner) && v.hashable
    ensures var task := rt.tasks[t];
      Execute(rt, t) == Exit(
        rt.(tasks := rt.tasks[t := task.(state := Done, result := Some(v))], world := world,
            completed := OneMore(rt.completed, task.owner), clock := rt.clock + 1,
            log := rt.log + [StartEvent(t, task), Event(rt.clock + 1, Actor(task.owner), TASK_DONE, t, Some(v), NO_DELTA)]),
        false)
  {
    StartIs(rt, t);
    hide Execute;
    var task := rt.tasks[t];
    SettledIs(rt, t, Done, Some(v));
    var done := Event(rt.clock + 1, Actor(task.owner), TASK_DONE, t, Some(v), NO_DELTA);
    assert rt.log + [StartEvent(t, task)] + [done] == rt.log + [StartEvent(t, task), done];
  }

  /** A body that raises: the task has failed, nobody is credited, and the result is the one it had. */
  lemma {:induction false} Breaks(rt: Runtime, t: TaskId, world: World, message: string)
    requires Starts(rt, t) && rt.tasks[t].fn(rt.world) == (world, Raised(message))
    requires Known(rt, rt.tasks[t].owner) && CanHash(rt.tasks[t].result)
    ensures var task := rt.tasks[t];
      Execute(rt, t) == Exit(
        rt.(tasks := rt.tasks[t := task.(state := Failed)], world := world, clock := rt.clock + 1,
            log := rt.log + [StartEvent(t, task), Event(rt.clock + 1, Actor(task.owner), TASK_FAIL, t, task.result, NO_DELTA)]),
        false)
  {
    StartIs(rt, t);
    hide Execute;
    var task := rt.tasks[t];
    SettledIs(rt, t, Failed, task.result);
    var failed := Event(rt.clock + 1, Actor(task.owner), TASK_FAIL, t, task.result, NO_DELTA);
    assert rt.log + [StartEvent(t, task)] + [failed] == rt.log + [StartEvent(t, task), failed];
  }

  /** An over-long task times out without its body being called; a cancelled one is left alone. */
  lemma {:induction false} Overruns(rt: Runtime, t: TaskId)
    requires t in rt.tasks && !rt.sealed
    ensures var task := rt.tasks[t];
      && (task.state == Cancelled ==> Execute(rt, t) == Exit(rt, false))
      && (task.state != Cancelled && !OnTime(task) ==>
           Execute(rt, t) == Exit(
             rt.(tasks := rt.tasks[t := task.(state := TimedOut)], clock := rt.clock + 1,
                 log := rt.log + [Event(rt.clock + 1, Actor(task.owner), TASK_TIMEOUT, t, None, NO_DELTA)]),
             false))
  {
  }

  /** An exception that the runtime does not catch leaves the task running, with the start logged. */
  lemma {:induction false} EscapesRunning(rt: Runtime, t: TaskId, world: World)
    requires Starts(rt, t) && rt.tasks[t].fn(rt.world) == (world, Escaped)
    ensures Execute(rt, t) == Exit(Under(rt, t).(world := world), true)
  {
    StartIs(rt, t);
  }

  /** An unknown owner is noticed when state and result are set, before any credit or event. */
  lemma {:induction false} UnknownOwnerStops(rt: Runtime, t: TaskId, world: World, outcome: Outcome)
    requires Starts(rt, t) && rt.tasks[t].fn(rt.world) == (world, outcome) && !outcome.Escaped?
    requires !Known(rt, rt.tasks[t].owner)
    ensures var (task, log) := (rt.tasks[t], rt.log + [StartEvent(t, rt.tasks[t])]);
      var end := if outcome.Returned? then task.(state := Done, result := Some(outcome.output)) else task.(state := Failed);
      Execute(rt, t) == Exit(rt.(tasks := rt.tasks[t := end], world := world, log := log), true)
  {
    StartIs(rt, t);
    hide Execute;
    if outcome.Returned? {
      SettledIs(rt, t, Done, Some(outcome.output));
    } else {
      SettledIs(rt, t, Failed, rt.tasks[t].result);
    }
  }

  /** A result that cannot be hashed is noticed after credit and tick: only the completion event is missing. */
  lemma {:induction false} UnhashableStops(rt: Runtime, t: TaskId, world: World, v: Output)
    requires Starts(rt, t) && rt.tasks[t].fn(rt.world) == (world, Returned(v))
    requires Known(rt, rt.tasks[t].owner) && !v.hashable
    ensures var (task, log) := (rt.tasks[t], rt.log + [StartEvent(t, rt.tasks[t])]);
      Execute(rt, t) == Exit(
        rt.(tasks := rt.tasks[t := task.(state := Done, result := Some(v))], world := world, log := log,
            completed := OneMore(rt.completed, task.owner), clock := rt.clock + 1),
        true)
  {
    StartIs(rt, t);
    hide Execute;
    SettledIs(rt, t, Done, Some(v));
  }

  /** On a sealed log a task that was not cancelled is stopped before its body, and nothing else changes. */
  lemma {:induction false} StopsAtSeal(rt: Runtime, t: TaskId)
    requires t in rt.tasks && rt.tasks[t].state != Cancelled && rt.sealed
    ensures Execute(rt, t) == Exit(
      rt.(tasks := rt.tasks[t := rt.tasks[t].(state := if OnTime(rt.tasks[t]) then Running else TimedOut)]), true)
  {
  }

  // ---- a list of pending tasks ----

  ghost predicate Waiting(rt: Runtime, order: seq<TaskId>) { Pending(rt, order) && !rt.sealed }

  /** The world that the bodies of the first n tasks leave, one after the other; over-long tasks have no turn. */
  ghost function WorldBefore(rt: Runtime, order: seq<TaskId>, n: nat): World
    requires Waiting(rt, order) && n <= |order|
  {
    if n == 0 then rt.world
    else
      var before, task := WorldBefore(rt, order, n - 1), rt.tasks[order[n - 1]];
      if OnTime(task) then task.fn(before).0 else before
  }

  /** How a task ends whose body is called in this world. */
  function Ended(task: Task, world: World): Task {
    if !OnTime(task) then task.(state := TimedOut)
    else match task.fn(world).1
      case Returned(v) => task.(state := Done, result := Some(v))
      case Raised(_) => task.(state := Failed)
      case Escaped => task.(state := Running)
  }

  function Count(completed: map<WorkerId, nat>, w: WorkerId): nat { if w in completed then completed[w] else 0 }

  /** The task's body returns, for a worker of the federation. */
  ghost predicate Earns(rt: Runtime, task: Task, world: World, w: WorkerId) {
    task.owner == w && w != "" && w in rt.workers && OnTime(task) && task.fn(world).1.Returned?
  }

  lemma {:induction false} ExecuteEnds(rt: Runtime, t: TaskId, w: WorkerId)
    requires t in rt.tasks && rt.tasks[t].state == Ready && !rt.sealed
    ensures var next, task := Execute(rt, t).state, rt.tasks[t];
      && next.tasks == rt.tasks[t := Ended(task, rt.world)]
      && next.world == (if OnTime(task) then task.fn(rt.world).0 else rt.world)
      && next.sealed == rt.sealed && next.workers == rt.workers
      && Count(next.completed, w) == Count(rt.completed, w) + if Earns(rt, task, rt.world, w) then 1 else 0
  {
    var task := rt.tasks[t];
    if OnTime(task) {
      StartIs(rt, t);
      var (world, outcome) := task.fn(rt.world);
      ConcludedEnds(rt, t, world, outcome, w);
    } else {
      Overruns(rt, t);
    }
  }

  lemma {:induction false} ConcludedEnds(rt: Runtime, t: TaskId, world: World, outcome: Outcome, w: WorkerId)
    requires Starts(rt, t) && rt.tasks[t].fn(rt.world) == (world, outcome)
    ensures var next, task := Concluded(Under(rt, t).(world := world), t, outcome).state, rt.tasks[t];
      && next.tasks == rt.tasks[t := Ended(task, rt.world)] && next.world == world
      && next.sealed == rt.sealed && next.workers == rt.workers
      && Count(next.completed, w) == Count(rt.completed, w) + if Earns(rt, task, rt.world, w) then 1 else 0
  {
    hide Append, Credited, Count;
    var mid, task := Under(rt, t).(world := world), rt.tasks[t];
    match outcome
    case Escaped =>
    case Returned(v) =>
      var done := Settle(mid, t, Done, Some(v));
      SettledIs(rt, t, Done, Some(v));
      AppendKeeps(done.(completed := Credited(mid.completed, task.owner)), Named(task.owner), TASK_DONE, t, Some(v));
      CreditCounts(mid.completed, task.owner, w);
    case Raised(_) =>
      SettledIs(rt, t, Failed, task.result);
      AppendKeeps(Settle(mid, t, Failed, task.result), Named(task.owner), TASK_FAIL, t, task.result);
  }

  lemma {:induction false} AppendKeeps(rt: Runtime, w: WorkerId, op: Operation, t: TaskId, output: Option<Output>)
    ensures var next := Append(rt, None, w, op, t, output, NO_DELTA).state;
      && next.tasks == rt.tasks && next.world == rt.world && next.completed == rt.completed
      && next.sealed == rt.sealed && next.workers == rt.workers
  {
  }

  lemma {:induction false} CreditCounts(completed: map<WorkerId, nat>, owner: WorkerId, w: WorkerId)
    ensures w != "" || owner != "" ==>
      Count(Credited(completed, owner), w) == Count(completed, w) + if owner == w && w != "" then 1 else 0
    ensures owner == "" ==> Credited(completed, owner) == completed
  {
  }

  /** The number of tasks among the first n that earn the worker a credit. */
  ghost function Credits(rt: Runtime, order: seq<TaskId>, n: nat, w: WorkerId): nat
    requires Waiting(rt, order) && n <= |order|
  {
    if n == 0 then 0
    else
      Credits(rt, order, n - 1, w)
      + if Earns(rt, rt.tasks[order[n - 1]], WorldBefore(rt, order, n - 1), w) then 1 else 0
  }

  /** Executing a list of pending tasks: each body is called in the world that the bodies before it left, what it
      returns is its task's result, and every worker is credited with the tasks of his that returned. */
  lemma {:induction false} ListEnds(rt: Runtime, order: seq<TaskId>, n: nat, w: WorkerId)
    requires Waiting(rt, order) && n <= |order|
    ensures var next := ExecuteAll(rt, order[..n]);
      && next.tasks.Keys == rt.tasks.Keys && next.world == WorldBefore(rt, order, n)
      && next.sealed == rt.sealed && next.workers == rt.workers
      && (forall i | 0 <= i < n :: next.tasks[order[i]] == Ended(rt.tasks[order[i]], WorldBefore(rt, order, i)))
      && (forall t | t in rt.tasks && t !in order[..n] :: next.tasks[t] == rt.tasks[t])
      && Count(next.completed, w) == Count(rt.completed, w) + Credits(rt, order, n, w)
    decreases n
  {
    hide Execute, Ended, Earns, Count;
    if n > 0 {
      ListEnds(rt, order, n - 1, w);
      var before := ExecuteAll(rt, order[..n - 1]);
      assert order[..n][..n - 1] == order[..n - 1] && order[..n][n - 1] == order[n - 1];
      assert order[..n] == order[..n - 1] + [order[n - 1]];
      assert order[n - 1] in order && order[n - 1] !in order[..n - 1];
      ExecuteEnds(before, order[n - 1], w);
      SameEarnings(rt, before, rt.tasks[order[n - 1]], w);
    }
  }

  lemma {:induction false} SameEarnings(a: Runtime, b: Runtime, task: Task, w: WorkerId)
    requires a.workers == b.workers
    ensures Earns(a, task, b.world, w) <==> Earns(b, task, b.world, w)
  {}

  /** The turn of task i goes wrong: an exception escapes, its owner is unknown, or what it is to log cannot be hashed. */
  ghost predicate Troubled(rt: Runtime, order: seq<TaskId>, i: nat)
    requires Waiting(rt, order) && i < |order|
  {
    var task := rt.tasks[order[i]];
    var outcome := task.fn(WorldBefore(rt, order, i)).1;
    OnTime(task) &&
    (outcome.Escaped? || !Known(rt, task.owner)
     || !CanHash(if outcome.Returned? then Some(outcome.output) else task.result))
  }

  lemma {:induction false} FailsIffTroubled(rt: Runtime, order: seq<TaskId>, i: nat)
    requires Waiting(rt, order) && i < |order|
    ensures Fails(ExecuteAll(rt, order[..i]), order[i]) <==> Troubled(rt, order, i)
  {
    hide ExecuteAll;
    ListEnds(rt, order, i, "");
    StillReady(rt, order, i, i);
    assert order[i] in order;
  }

  /** The serial runner on a list of pending tasks, without reference to executions: up to and with the first task
      whose turn goes wrong every task has ended with what its own body gave, and those behind it are still ready. */
  lemma {:induction false} SerialEnds(rt: Runtime, order: seq<TaskId>, j: nat)
    requires Waiting(rt, order) && j < |order|
    ensures RunSerially(rt, order).raised <==> exists i: nat :: i < |order| && Troubled(rt, order, i)
    ensures order[j] in RunSerially(rt, order).state.tasks
    ensures RunSerially(rt, order).state.tasks[order[j]] ==
      if exists i: nat :: i < j && Troubled(rt, order, i) then rt.tasks[order[j]]
      else Ended(rt.tasks[order[j]], WorldBefore(rt, order, j))
  {
    hide RunSerially, Fails, Troubled, Ended, WorldBefore;
    if k: nat :| k < |order| && Troubled(rt, order, k) {
      FailsIffTroubled(rt, order, k);
      var i := FirstStop(rt, order, k);
      SerialEndsAt(rt, order, i, j);
    } else {
      forall i: nat | i < |order| ensures !Fails(ExecuteAll(rt, order[..i]), order[i]) { FailsIffTroubled(rt, order, i); }
      NoStopAgrees(rt, order);
      ListEnds(rt, order, |order|, "");
      assert order[..|order|] == order && order[j] in order;
    }
  }

  lemma {:induction false} SerialEndsAt(rt: Runtime, order: seq<TaskId>, i: nat, j: nat)
    requires Waiting(rt, order) && j < |order| && StopsAt(rt, order, i)
    ensures i < |order| && RunSerially(rt, order).raised && order[j] in RunSerially(rt, order).state.tasks
    ensures Troubled(rt, order, i) && forall k: nat | k < i :: !Troubled(rt, order, k)
    ensures RunSerially(rt, order).state.tasks[order[j]] ==
      if j <= i then Ended(rt.tasks[order[j]], WorldBefore(rt, order, j)) else rt.tasks[order[j]]
  {
    hide RunSerially, Fails, Troubled, Ended, WorldBefore;
    forall k: nat | k <= i && k < |order| ensures Fails(ExecuteAll(rt, order[..k]), order[k]) <==> Troubled(rt, order, k) {
      FailsIffTroubled(rt, order, k);
    }
    assert order[j] in order;
    SerialStopsAt(rt, order, i, order[j]);
    ListEnds(rt, order, i + 1, "");
    if j <= i {
      assert order[..i + 1][j] == order[j];
    } else {
      assert order[j] !in order[..i + 1];
    }
  }

  lemma {:induction false} NoStopAgrees(rt: Runtime, order: seq<TaskId>)
    requires forall i: nat | i < |order| :: !Fails(ExecuteAll(rt, order[..i]), order[i])
    ensures ExecuteAll(rt, order) == RunSerially(rt, order).state && !RunSerially(rt, order).raised
  {
    hide ExecuteAll, RunSerially, Fails, Quiet;
    RunnersAgreeIff(rt, order);
  }

  // ---- replay ----

  predicate Gone(d: Delta, k: PayloadId) { k in d.release || k in d.consume }

  predicate LastMove(moves: seq<Handover>, i: int, k: PayloadId) {
    0 <= i < |moves| && moves[i].key == k && forall j | i < j < |moves| :: moves[j].key != k
  }

  predicate Unmoved(moves: seq<Handover>, k: PayloadId) { forall i | 0 <= i < |moves| :: moves[i].key != k }

  /** What an event says about the owner of a key: it is gone when the event releases or consumes it; else it is the
      destination of the event's last move of it; else the event's worker when it acquires it; else what it was. */
  lemma {:induction false} ApplyAt(m: map<PayloadId, string>, e: Event, k: PayloadId)
    ensures Gone(e.ownership, k) ==> k !in Apply(m, e)
    ensures !Gone(e.ownership, k) ==> forall i | LastMove(e.ownership.move, i, k) ::
      k in Apply(m, e) && Apply(m, e)[k] == e.ownership.move[i].dst
    ensures !Gone(e.ownership, k) && Unmoved(e.ownership.move, k) && k in e.ownership.acquire ==>
      k in Apply(m, e) && Apply(m, e)[k] == e.worker
    ensures !Gone(e.ownership, k) && Unmoved(e.ownership.move, k) && k !in e.ownership.acquire ==>
      (k in Apply(m, e) <==> k in m) && (k in m ==> Apply(m, e)[k] == m[k])
  {
    hide Acquired, Handed;
    AcquiredAt(m, e.ownership.acquire, e.worker, k);
    HandedAt(Acquired(m, e.ownership.acquire, e.worker), e.ownership.move, k);
  }

  lemma {:induction false} AcquiredAt(m: map<PayloadId, string>, keys: seq<PayloadId>, w: WorkerId, k: PayloadId)
    ensures var next := Acquired(m, keys, w);
      if k in keys then k in next && next[k] == w else (k in next <==> k in m) && (k in m ==> next[k] == m[k])
    decreases |keys|
  {
    if keys != [] {
      assert keys == keys[..|keys| - 1] + [keys[|keys| - 1]];
      AcquiredAt(m, keys[..|keys| - 1], w, k);
    }
  }

  lemma {:induction false} HandedAt(m: map<PayloadId, string>, moves: seq<Handover>, k: PayloadId)
    ensures forall i | LastMove(moves, i, k) :: k in Handed(m, moves) && Handed(m, moves)[k] == moves[i].dst
    ensures Unmoved(moves, k) ==> (k in Handed(m, moves) <==> k in m) && (k in m ==> Handed(m, moves)[k] == m[k])
    decreases |moves|
  {
    if moves != [] {
      var n := |moves| - 1;
      HandedAt(m, moves[..n], k);
      forall i | LastMove(moves, i, k) ensures k in Handed(m, moves) && Handed(m, moves)[k] == moves[i].dst {
        if i < n {
          assert moves[n].key != k;
          assert LastMove(moves[..n], i, k);
        }
      }
    }
  }
}
