/** Histories of calls on the task runtime: who holds which payload handle, and what the log says about it, before and
    after the log is sealed. */
module OwnershipHistories {
  import opened Basics
  import opened TaskRuntimes

  /** One call on the runtime or on a payload handle. `Prepare` makes a handle with an identity not used before. */
  datatype Call =
    | DoSpawn(t: TaskId, owner: WorkerId, fn: World -> (World, Outcome), cost: real, timeout: Option<real>)
    | DoPrepare(p: PayloadId)
    | DoTransfer(t: TaskId, p: PayloadId)
    | DoRelease(t: TaskId, p: PayloadId)
    | DoMark(p: PayloadId, state: PayloadState)
    | DoCancel(t: TaskId)
    | DoRun(order: seq<TaskId>, threaded: bool)
    | DoSeal

  predicate Callable(rt: Runtime, c: Call) {
    match c
    case DoPrepare(p) => p !in rt.payloads
    case DoTransfer(t, p) => t in rt.tasks && p in rt.payloads
    case DoRelease(t, p) => t in rt.tasks && p in rt.payloads
    case DoMark(p, state) => p in rt.payloads && state != Live
    case DoCancel(t) => t in rt.tasks
    case _ => true
  }

  function Called(rt: Runtime, c: Call): Runtime
    requires Callable(rt, c) && rt.held.Keys == rt.tasks.Keys
  {
    match c
    case DoSpawn(t, owner, fn, cost, timeout) => Spawn(rt, t, owner, fn, cost, timeout).0
    case DoPrepare(p) => rt.(payloads := rt.payloads[p := Live])
    case DoTransfer(t, p) => Transfer(rt, t, p).0
    case DoRelease(t, p) => Release(rt, t, p).0
    case DoMark(p, state) => rt.(payloads := rt.payloads[p := state])
    case DoCancel(t) => Cancel(rt, t).0
    case DoRun(order, threaded) => if threaded then ExecuteAll(rt, order) else RunSerially(rt, order).state
    case DoSeal => rt.(sealed := true)
  }

  /** A live handle sits in its owner's list, once, and in nobody else's. */
  ghost predicate Custody(tasks: set<TaskId>, payloads: map<PayloadId, PayloadState>,
                          held: map<TaskId, seq<PayloadId>>, ownerOf: map<PayloadId, TaskId>)
  {
    && held.Keys == tasks
    && ownerOf.Keys <= payloads.Keys
    && (forall p | p in ownerOf :: ownerOf[p] in tasks)
    && (forall t, p | t in held && p in held[t] :: p in payloads)
    && Shared(payloads, held, ownerOf)
  }

  ghost predicate Shared(payloads: map<PayloadId, PayloadState>, held: map<TaskId, seq<PayloadId>>,
                         ownerOf: map<PayloadId, TaskId>)
  {
    forall t, p | t in held && p in payloads && payloads[p] == Live :: multiset(held[t])[p] == Share(ownerOf, t, p)
  }

  function Share(ownerOf: map<PayloadId, TaskId>, t: TaskId, p: PayloadId): nat {
    if p in ownerOf && ownerOf[p] == t then 1 else 0
  }

  ghost predicate Custodial(rt: Runtime) { Custody(rt.tasks.Keys, rt.payloads, rt.held, rt.ownerOf) }

  /** The log replays to the owner index. */
  ghost predicate Told(rt: Runtime) { Replay(rt.log) == rt.ownerOf }

  lemma {:induction false} ReplayAppend(log: seq<Event>, e: Event)
    ensures Replay(log + [e]) == Apply(Replay(log), e)
    ensures e.ownership == NO_DELTA ==> Replay(log + [e]) == Replay(log)
  {
    assert (log + [e])[..|log|] == log;
  }

  lemma {:induction false} RegrantedShares(rt: Runtime, t: TaskId, p: PayloadId, u: TaskId, q: PayloadId)
    requires Custodial(rt) && t in rt.tasks && p in rt.payloads && rt.payloads[p] == Live && p !in rt.held[t]
    requires u in rt.tasks
    ensures q in rt.payloads && rt.payloads[q] == Live ==>
      multiset(Regranted(rt.held, rt.ownerOf, t, p)[u])[q] == Share(rt.ownerOf[p := t], u, q)
    ensures q in Regranted(rt.held, rt.ownerOf, t, p)[u] ==> q == p || q in rt.held[u]
  {
    var r := Regranted(rt.held, rt.ownerOf, t, p);
    assert multiset(rt.held[t])[p] == 0;
    assert multiset(rt.held[u])[p] == Share(rt.ownerOf, u, p);
    assert q in r[u] <==> multiset(r[u])[q] > 0;
    assert q in rt.held[u] <==> multiset(rt.held[u])[q] > 0;
    if u == t {
      assert multiset(r[u]) == multiset(rt.held[u]) + multiset{p};
    } else {
      assert multiset(r[u]) == multiset(rt.held[u])[p := 0];
    }
    if q in rt.payloads && rt.payloads[q] == Live {
      assert multiset(rt.held[u])[q] == Share(rt.ownerOf, u, q);
    }
  }

  lemma {:induction false} SharesAfterTransfer(rt: Runtime, t: TaskId, p: PayloadId)
    requires Custodial(rt) && t in rt.tasks && p in rt.payloads && rt.payloads[p] == Live && p !in rt.held[t]
    ensures Shared(rt.payloads, Regranted(rt.held, rt.ownerOf, t, p), rt.ownerOf[p := t])
    ensures forall u, q | u in rt.tasks && q in Regranted(rt.held, rt.ownerOf, t, p)[u] :: q in rt.payloads
  {
    hide Share, Regranted;
    forall u, q | u in rt.tasks
      ensures q in rt.payloads && rt.payloads[q] == Live ==>
        multiset(Regranted(rt.held, rt.ownerOf, t, p)[u])[q] == Share(rt.ownerOf[p := t], u, q)
      ensures q in Regranted(rt.held, rt.ownerOf, t, p)[u] ==> q in rt.payloads
    {
      RegrantedShares(rt, t, p, u, q);
    }
  }

  lemma {:induction false} CustodyAfterTransfer(rt: Runtime, t: TaskId, p: PayloadId)
    requires Custodial(rt) && t in rt.tasks && p in rt.payloads && rt.payloads[p] == Live && p !in rt.held[t]
    ensures Custody(rt.tasks.Keys, rt.payloads, Regranted(rt.held, rt.ownerOf, t, p), rt.ownerOf[p := t])
  {
    hide Shared, Regranted;
    SharesAfterTransfer(rt, t, p);
  }

  lemma {:induction false} ReleasedShares(rt: Runtime, t: TaskId, p: PayloadId, u: TaskId, q: PayloadId)
    requires Custodial(rt) && t in rt.tasks && p in rt.payloads && u in rt.tasks
    ensures q in rt.payloads && q != p && rt.payloads[q] == Live ==>
      multiset(rt.held[t := Without(rt.held[t], p)][u])[q] == Share(rt.ownerOf - {p}, u, q)
    ensures q in rt.held[t := Without(rt.held[t], p)][u] ==> q in rt.payloads
  {
    hide Without;
    var r := rt.held[t := Without(rt.held[t], p)];
    assert q in r[u] <==> multiset(r[u])[q] > 0;
    assert q in rt.held[u] <==> multiset(rt.held[u])[q] > 0;
    assert q != p ==> multiset(r[u])[q] == multiset(rt.held[u])[q];
    if q in rt.payloads && rt.payloads[q] == Live {
      assert multiset(rt.held[u])[q] == Share(rt.ownerOf, u, q);
    }
  }

  lemma {:induction false} CustodyAfterRelease(rt: Runtime, t: TaskId, p: PayloadId)
    requires Custodial(rt) && t in rt.tasks && p in rt.payloads
    ensures Custody(rt.tasks.Keys, rt.payloads[p := Consumed], rt.held[t := Without(rt.held[t], p)], rt.ownerOf - {p})
  {
    hide Share, Without;
    forall u, q | u in rt.tasks
      ensures q in rt.payloads && q != p && rt.payloads[q] == Live ==>
        multiset(rt.held[t := Without(rt.held[t], p)][u])[q] == Share(rt.ownerOf - {p}, u, q)
      ensures q in rt.held[t := Without(rt.held[t], p)][u] ==> q in rt.payloads
    {
      ReleasedShares(rt, t, p, u, q);
    }
  }

  /** Appending changes the log and the clock only; a sealed log stays as it is. */
  lemma {:induction false} AppendFrame(rt: Runtime, time: Option<nat>, w: WorkerId, op: Operation, subject: string,
        output: Option<Output>, d: Delta)
    ensures SameHandles(rt, Append(rt, time, w, op, subject, output, d).state)
    ensures rt.sealed ==> Append(rt, time, w, op, subject, output, d) == Exit(rt, true)
    ensures !rt.sealed && output == None ==>
      var next := Append(rt, time, w, op, subject, output, d).state;
      |next.log| == |rt.log| + 1 && next.log == rt.log + [next.log[|rt.log|]] && next.log[|rt.log|].ownership == d
    ensures d == NO_DELTA ==> SameOwnership(rt, Append(rt, time, w, op, subject, output, d).state)
  {
    var next := Append(rt, time, w, op, subject, output, d).state;
    if next.log != rt.log {
      assert next.log == rt.log + [next.log[|rt.log|]];
      ReplayAppend(rt.log, next.log[|rt.log|]);
    }
  }

  ghost predicate SameHandles(a: Runtime, b: Runtime) {
    && a.tasks.Keys == b.tasks.Keys && a.payloads == b.payloads && a.held == b.held && a.ownerOf == b.ownerOf
    && a.sealed == b.sealed
  }

  /** Nothing about handles differs, the new log tells the same ownership story, and a sealed log is the same log. */
  ghost predicate SameOwnership(a: Runtime, b: Runtime) {
    SameHandles(a, b) && Replay(a.log) == Replay(b.log) && (a.sealed ==> a.log == b.log)
  }

  // ---- executing tasks ----

  lemma {:induction false} BeginKeepsOwnership(rt: Runtime, t: TaskId)
    ensures SameOwnership(rt, Begin(rt, t).state)
  {
    hide Append, Replay;
    if t in rt.tasks {
      var task := rt.tasks[t];
      AppendFrame(Settle(rt, t, TimedOut, task.result), None, Named(task.owner), TASK_TIMEOUT, t, None, NO_DELTA);
      AppendFrame(Settle(rt, t, Running, task.result), Some(task.logicalTime), Named(task.owner), TASK_START, t, None, NO_DELTA);
    }
  }

  lemma {:induction false} ConcludedKeepsOwnership(rt: Runtime, t: TaskId, outcome: Outcome)
    requires t in rt.tasks
    ensures SameOwnership(rt, Concluded(rt, t, outcome).state)
  {
    hide Append, Replay, Credited;
    var task := rt.tasks[t];
    match outcome
    case Escaped =>
    case Returned(v) =>
      var mid := Settle(rt, t, Done, Some(v)).(completed := Credited(rt.completed, task.owner));
      AppendFrame(mid, None, Named(task.owner), TASK_DONE, t, Some(v), NO_DELTA);
    case Raised(_) =>
      AppendFrame(Settle(rt, t, Failed, task.result), None, Named(task.owner), TASK_FAIL, t, task.result, NO_DELTA);
  }

  lemma {:induction false} ExecuteKeepsOwnership(rt: Runtime, t: TaskId)
    ensures SameOwnership(rt, Execute(rt, t).state)
  {
    hide Begin, Concluded, Replay;
    BeginKeepsOwnership(rt, t);
    var mid := Begin(rt, t).state;
    if t in mid.tasks && mid.tasks[t].state == Running {
      var (world, outcome) := mid.tasks[t].fn(mid.world);
      ConcludedKeepsOwnership(mid.(world := world), t, outcome);
    }
  }

  /** Executing tasks, by either runner, changes neither handles nor what the log says about ownership. */
  lemma {:induction false} RunsKeepOwnership(rt: Runtime, order: seq<TaskId>)
    ensures SameOwnership(rt, ExecuteAll(rt, order))
    ensures SameOwnership(rt, RunSerially(rt, order).state)
    decreases |order|
  {
    hide Execute, Replay;
    if order != [] {
      var k := |order| - 1;
      RunsKeepOwnership(rt, order[..k]);
      ExecuteKeepsOwnership(ExecuteAll(rt, order[..k]), order[k]);
      ExecuteKeepsOwnership(RunSerially(rt, order[..k]).state, order[k]);
    }
  }

  // ---- one call ----

  lemma {:induction false} SpawnKeeps(rt: Runtime, c: Call)
    requires Custodial(rt) && c.DoSpawn?
    ensures Custodial(Called(rt, c)) && Replay(Called(rt, c).log) == Replay(rt.log) && Called(rt, c).ownerOf == rt.ownerOf
    ensures rt.sealed ==> Called(rt, c).log == rt.log
  {
    hide Append, Replay;
    if c.t !in rt.tasks {
      var task := Task(c.owner, c.fn, c.cost, c.timeout, rt.clock + 1, Ready, None);
      var mid := rt.(tasks := rt.tasks[c.t := task], held := rt.held[c.t := []], clock := rt.clock + 1);
      assert Custody(mid.tasks.Keys, rt.payloads, mid.held, rt.ownerOf);
      AppendFrame(mid, Some(rt.clock + 1), c.owner, SPAWN, c.t, None, NO_DELTA);
    }
  }

  lemma {:induction false} TransferKeeps(rt: Runtime, t: TaskId, p: PayloadId)
    requires Custodial(rt) && t in rt.tasks && t in rt.held && p in rt.payloads
    ensures Custodial(Transfer(rt, t, p).0)
    ensures !rt.sealed && Told(rt) ==> Told(Transfer(rt, t, p).0)
    ensures Transfer(rt, t, p).0.sealed == rt.sealed && (rt.sealed ==> Transfer(rt, t, p).0.log == rt.log)
  {
    hide Append, Regranted, Custody, Share;
    if rt.payloads[p] == Live && p !in rt.held[t] {
      var src := if p in rt.ownerOf then rt.ownerOf[p] else "-";
      var moved := rt.(held := Regranted(rt.held, rt.ownerOf, t, p), ownerOf := rt.ownerOf[p := t]);
      var d := NO_DELTA.(move := [Handover(p, src, t)]);
      AppendFrame(moved, None, Named(rt.tasks[t].owner), OWNERSHIP_TRANSFER, p, None, d);
      CustodyAfterTransfer(rt, t, p);
      if !rt.sealed {
        var next := Transfer(rt, t, p).0;
        ReplayAppend(rt.log, next.log[|rt.log|]);
        MoveReplays(Replay(rt.log), next.log[|rt.log|], p, src, t);
      }
    }
  }

  lemma {:induction false} MoveReplays(m: map<PayloadId, string>, e: Event, p: PayloadId, src: string, t: TaskId)
    ensures e.ownership == NO_DELTA.(move := [Handover(p, src, t)]) ==> Apply(m, e) == m[p := t]
    ensures e.ownership == NO_DELTA.(consume := [p]) ==> Apply(m, e) == m - {p}
  {
    assert [Handover(p, src, t)][..0] == [];
    assert Handed(m, [Handover(p, src, t)]) == m[p := t];
    assert forall n: map<PayloadId, string> :: Dropped(n, []) == n;
    assert Dropped(m, [p]) == m - {p};
  }

  lemma {:induction false} ReleaseKeeps(rt: Runtime, t: TaskId, p: PayloadId)
    requires Custodial(rt) && t in rt.tasks && t in rt.held && p in rt.payloads
    ensures Custodial(Release(rt, t, p).0)
    ensures !rt.sealed && Told(rt) ==> Told(Release(rt, t, p).0)
    ensures Release(rt, t, p).0.sealed == rt.sealed && (rt.sealed ==> Release(rt, t, p).0.log == rt.log)
  {
    hide Append, Custody, Share;
    var freed := rt.(held := rt.held[t := Without(rt.held[t], p)], payloads := rt.payloads[p := Consumed],
                     ownerOf := rt.ownerOf - {p});
    AppendFrame(freed, None, Named(rt.tasks[t].owner), OWNERSHIP_RELEASE, p, None, NO_DELTA.(consume := [p]));
    CustodyAfterRelease(rt, t, p);
    if !rt.sealed {
      var next := Release(rt, t, p).0;
      ReplayAppend(rt.log, next.log[|rt.log|]);
      MoveReplays(Replay(rt.log), next.log[|rt.log|], p, "-", t);
    }
  }

  lemma {:induction false} PrepareKeeps(rt: Runtime, p: PayloadId)
    requires Custodial(rt) && p !in rt.payloads
    ensures Custodial(rt.(payloads := rt.payloads[p := Live]))
  {
    forall t | t in rt.held ensures multiset(rt.held[t])[p] == 0 { assert p !in rt.held[t]; }
  }

  lemma {:induction false} CancelKeeps(rt: Runtime, t: TaskId)
    requires t in rt.tasks
    ensures SameOwnership(rt, Cancel(rt, t).0)
  {
    hide Append, Replay;
    var task := rt.tasks[t];
    AppendFrame(Settle(rt, t, Cancelled, task.result), None, Named(task.owner), TASK_CANCEL, t, None, NO_DELTA);
  }

  /** Every call keeps custody; on an open log it keeps the told story true; on a sealed log it leaves the log alone. */
  lemma {:induction false} CallKeeps(rt: Runtime, c: Call)
    requires Custodial(rt) && Callable(rt, c)
    ensures Custodial(Called(rt, c))
    ensures !rt.sealed && Told(rt) ==> Told(Called(rt, c))
    ensures rt.sealed ==> Called(rt, c).sealed && Called(rt, c).log == rt.log
    ensures Called(rt, c).sealed ==> rt.sealed || c.DoSeal?
  {
    hide Transfer, Release, Cancel, Replay, ExecuteAll, RunSerially;
    match c
    case DoSpawn(_, _, _, _, _) => SpawnKeeps(rt, c);
    case DoPrepare(p) => PrepareKeeps(rt, p);
    case DoTransfer(t, p) => TransferKeeps(rt, t, p);
    case DoRelease(t, p) => ReleaseKeeps(rt, t, p);
    case DoMark(_, _) =>
    case DoCancel(t) => CancelKeeps(rt, t);
    case DoRun(order, _) => RunsKeepOwnership(rt, order);
    case DoSeal =>
  }

  /** The calls that change who owns what: an accepted transfer, and the release of an owned payload. */
  predicate ChangesOwner(rt: Runtime, c: Call)
    requires Callable(rt, c) && rt.held.Keys == rt.tasks.Keys
  {
    match c
    case DoTransfer(t, p) => rt.payloads[p] == Live && p !in rt.held[t]
    case DoRelease(_, p) => p in rt.ownerOf
    case _ => false
  }

  lemma {:induction false} TransferChangesOwnerIff(rt: Runtime, t: TaskId, p: PayloadId)
    requires Custodial(rt) && t in rt.tasks && t in rt.held && p in rt.payloads
    ensures Transfer(rt, t, p).0.ownerOf != rt.ownerOf <==> rt.payloads[p] == Live && p !in rt.held[t]
    ensures Release(rt, t, p).0.ownerOf == rt.ownerOf - {p}
  {
    hide Regranted, Without;
    assert multiset(rt.held[t])[p] > 0 <==> p in rt.held[t];
    assert rt.payloads[p] == Live ==> multiset(rt.held[t])[p] == Share(rt.ownerOf, t, p);
    assert rt.ownerOf[p := t] == rt.ownerOf ==> Share(rt.ownerOf, t, p) == 1;
  }

  lemma {:induction false} OwnerChangesIff(rt: Runtime, c: Call)
    requires Custodial(rt) && Callable(rt, c)
    ensures Called(rt, c).ownerOf != rt.ownerOf <==> ChangesOwner(rt, c)
  {
    hide Transfer, Release, Cancel, Append, ExecuteAll, RunSerially, Replay, Shared;
    match c
    case DoSpawn(_, _, _, _, _) => SpawnKeeps(rt, c);
    case DoTransfer(t, p) => TransferChangesOwnerIff(rt, t, p);
    case DoRelease(t, p) => TransferChangesOwnerIff(rt, t, p);
    case DoCancel(t) => CancelKeeps(rt, t);
    case DoRun(order, _) => RunsKeepOwnership(rt, order);
    case _ =>
  }

  lemma {:induction false} CallKeepsDead(rt: Runtime, c: Call, p: PayloadId)
    requires rt.held.Keys == rt.tasks.Keys && Callable(rt, c) && p in rt.payloads && rt.payloads[p] != Live
    ensures p in Called(rt, c).payloads && Called(rt, c).payloads[p] != Live
  {
    hide ExecuteAll, RunSerially;
    if c.DoRun? { RunsKeepOwnership(rt, c.order); }
  }

  // ---- histories ----

  /** A history of calls from the empty runtime: state `k + 1` is the result of call `k` on state `k`. */
  ghost predicate History(workers: set<WorkerId>, calls: seq<Call>, states: seq<Runtime>) {
    && |states| == |calls| + 1 && states[0] == Initial(workers)
    && forall k | 0 <= k < |calls| :: Follows(states[k], calls[k], states[k + 1])
  }

  ghost predicate Follows(a: Runtime, c: Call, b: Runtime) {
    a.held.Keys == a.tasks.Keys && Callable(a, c) && b == Called(a, c)
  }

  lemma {:induction false} HistoryCustodial(workers: set<WorkerId>, calls: seq<Call>, states: seq<Runtime>, k: nat)
    requires History(workers, calls, states) && k < |states|
    ensures Custodial(states[k]) && (!states[k].sealed ==> Told(states[k]))
    decreases k
  {
    hide Custody, Called, Callable;
    if k > 0 {
      HistoryCustodial(workers, calls, states, k - 1);
      assert Follows(states[k - 1], calls[k - 1], states[k - 1 + 1]);
      CallKeeps(states[k - 1], calls[k - 1]);
    } else {
      EmptyIsCustodial(workers);
    }
  }

  lemma {:induction false} EmptyIsCustodial(workers: set<WorkerId>)
    ensures Custodial(Initial(workers)) && Told(Initial(workers))
  {}

  /** In every history, sealed or not, a live handle has at most one holder, which the owner index names. */
  lemma {:induction false} SingleHolder(workers: set<WorkerId>, calls: seq<Call>, states: seq<Runtime>, k: nat,
        p: PayloadId, t: TaskId, u: TaskId)
    requires History(workers, calls, states) && k < |states|
    requires p in states[k].payloads && states[k].payloads[p] == Live && t in states[k].held && u in states[k].held
    ensures p in states[k].held[t] <==> p in states[k].ownerOf && states[k].ownerOf[p] == t
    ensures p in states[k].held[t] && p in states[k].held[u] ==> t == u
    ensures multiset(states[k].held[t])[p] <= 1
  {
    HistoryCustodial(workers, calls, states, k);
    assert multiset(states[k].held[t])[p] > 0 <==> p in states[k].held[t];
    assert multiset(states[k].held[u])[p] > 0 <==> p in states[k].held[u];
  }

  /** Sealing is for good, and the log is then the log of the moment of sealing. */
  lemma {:induction false} SealedForGood(workers: set<WorkerId>, calls: seq<Call>, states: seq<Runtime>, j: nat, k: nat)
    requires History(workers, calls, states) && j <= k < |states| && states[j].sealed
    ensures states[k].sealed && states[k].log == states[j].log
    decreases k
  {
    hide Custody, Called, Callable, Replay;
    if j < k {
      SealedForGood(workers, calls, states, j, k - 1);
      HistoryCustodial(workers, calls, states, k - 1);
      assert Follows(states[k - 1], calls[k - 1], states[k - 1 + 1]);
      CallKeeps(states[k - 1], calls[k - 1]);
    }
  }

  /** As long as the log is open, replay gives the owner index. Once call `j` has sealed it, replay gives the index of
      that moment for ever: it still gives the current one exactly when the index is back at what it was. */
  lemma {:induction false} ReplayIsIndexIff(workers: set<WorkerId>, calls: seq<Call>, states: seq<Runtime>, j: nat, k: nat)
    requires History(workers, calls, states) && k < |states|
    ensures !states[k].sealed ==> Replay(states[k].log) == states[k].ownerOf
    ensures j < k && !states[j].sealed && calls[j].DoSeal? ==>
      Replay(states[k].log) == states[j].ownerOf
      && (Replay(states[k].log) == states[k].ownerOf <==> states[k].ownerOf == states[j].ownerOf)
  {
    hide Custody, Callable, Replay;
    HistoryCustodial(workers, calls, states, k);
    if j < k && !states[j].sealed && calls[j].DoSeal? {
      HistoryCustodial(workers, calls, states, j);
      assert Follows(states[j], calls[j], states[j + 1]);
      SealedForGood(workers, calls, states, j + 1, k);
    }
  }

  /** In terms of the calls made since: replay stays right until a transfer is accepted or an owned payload is
      released, and goes wrong with the first such call. */
  lemma {:induction false} SealedReplayBreaksIff(workers: set<WorkerId>, calls: seq<Call>, states: seq<Runtime>, j: nat,
        k: nat)
    requires History(workers, calls, states) && j < k < |states| && !states[j].sealed && calls[j].DoSeal?
    requires forall i | j < i < k - 1 :: !ChangesOwnerAt(calls, states, i)
    ensures Replay(states[k].log) == states[k].ownerOf <==> k - 1 == j || !ChangesOwnerAt(calls, states, k - 1)
  {
    hide Custody, Callable, Called, Replay;
    ReplayIsIndexIff(workers, calls, states, j, k);
    IndexUnchanged(workers, calls, states, j, k - 1);
    HistoryCustodial(workers, calls, states, k - 1);
    assert Follows(states[k - 1], calls[k - 1], states[k - 1 + 1]);
    OwnerChangesIff(states[k - 1], calls[k - 1]);
  }

  ghost predicate ChangesOwnerAt(calls: seq<Call>, states: seq<Runtime>, i: int) {
    && 0 <= i < |calls| && i < |states| && Callable(states[i], calls[i]) && states[i].held.Keys == states[i].tasks.Keys
    && ChangesOwner(states[i], calls[i])
  }

  lemma {:induction false} IndexUnchanged(workers: set<WorkerId>, calls: seq<Call>, states: seq<Runtime>, j: nat, k: nat)
    requires History(workers, calls, states) && j <= k < |states| && j < |calls| && calls[j].DoSeal?
    requires forall i | j < i < k :: !ChangesOwnerAt(calls, states, i)
    ensures states[k].ownerOf == states[j].ownerOf
    decreases k
  {
    hide Custody, Called, Callable, Replay;
    if j < k {
      IndexUnchanged(workers, calls, states, j, k - 1);
      HistoryCustodial(workers, calls, states, k - 1);
      assert Follows(states[k - 1], calls[k - 1], states[k - 1 + 1]);
      assert k - 1 == j || !ChangesOwnerAt(calls, states, k - 1);
      OwnerChangesIff(states[k - 1], calls[k - 1]);
    }
  }

  /** A transfer behind the seal is made but not told. */
  lemma {:induction false} SealedTransferIsUntold() returns (calls: seq<Call>, states: seq<Runtime>)
    ensures calls == [DoSpawn("T0", "W0", Unit, 1.0, None), DoPrepare("q"), DoSeal, DoTransfer("T0", "q")]
    ensures History({"W0"}, calls, states)
    ensures states[4].ownerOf == map["q" := "T0"] && Replay(states[4].log) == map[]
  {
    calls := [DoSpawn("T0", "W0", Unit, 1.0, None), DoPrepare("q"), DoSeal, DoTransfer("T0", "q")];
    var a := Initial({"W0"});
    var b := Called(a, calls[0]);
    var c := Called(b, calls[1]);
    var d := Called(c, calls[2]);
    var e := Called(d, calls[3]);
    states := [a, b, c, d, e];
    assert Follows(a, calls[0], b) && Follows(b, calls[1], c) && Follows(c, calls[2], d) && Follows(d, calls[3], e);
    ReplayIsIndexIff({"W0"}, calls, states, 2, 4);
  }

  /** A payload that stopped being live stays so, and every later transfer of it is refused without effect. */
  lemma {:induction false} NeverTransferredAgain(workers: set<WorkerId>, calls: seq<Call>, states: seq<Runtime>, j: nat,
        k: nat, p: PayloadId, t: TaskId)
    requires History(workers, calls, states) && j <= k < |states|
    requires p in states[j].payloads && states[j].payloads[p] != Live
    ensures p in states[k].payloads && states[k].payloads[p] != Live
    ensures t in states[k].tasks && t in states[k].held ==> Transfer(states[k], t, p) == (states[k], Err(NotLive))
    decreases k
  {
    hide Callable, Called;
    if j < k {
      NeverTransferredAgain(workers, calls, states, j, k - 1, p, t);
      assert Follows(states[k - 1], calls[k - 1], states[k - 1 + 1]);
      CallKeepsDead(states[k - 1], calls[k - 1], p);
    }
  }
}
