/** What each call of a history means for everything that comes after it. */
module CallHistories {
  import opened Basics
  import opened TaskRuntimes
  import opened OwnershipHistories

  // ---- release ----

  /** A call that may end the life of a payload. */
  predicate Ends(c: Call, p: PayloadId) { (c.DoRelease? || c.DoMark?) && c.p == p }

  /** The event of a release names what is consumed; behind a seal nothing is told. */
  lemma {:induction false} ReleaseTells(rt: Runtime, t: TaskId, p: PayloadId)
    requires t in rt.tasks && t in rt.held && p in rt.payloads
    ensures var w := if rt.tasks[t].owner == "" then "-" else rt.tasks[t].owner;
      var (next, r) := Release(rt, t, p);
      && next.tasks == rt.tasks && next.world == rt.world && next.completed == rt.completed
      && if rt.sealed then r == Err(LogSealed) && next.log == rt.log && next.clock == rt.clock
         else
           && r == Ok && next.clock == rt.clock + 1
           && next.log == rt.log + [Event(rt.clock + 1, w, OWNERSHIP_RELEASE, p, None, Delta([], [], [], [p]))]
  {
    hide Without;
  }

  /** Whatever the log says, a released payload is consumed, unowned and out of the releasing task's hands. */
  lemma {:induction false} ReleaseConsumes(rt: Runtime, t: TaskId, p: PayloadId)
    requires t in rt.tasks && t in rt.held && p in rt.payloads
    ensures var next := Release(rt, t, p).0;
      && next.payloads == rt.payloads[p := Consumed] && p !in next.ownerOf
      && next.held.Keys == rt.held.Keys && p !in next.held[t]
      && (forall q | q != p :: q in next.ownerOf <==> q in rt.ownerOf)
      && (forall q | q != p && q in rt.ownerOf :: next.ownerOf[q] == rt.ownerOf[q])
      && (forall u | u in rt.held && u != t :: next.held[u] == rt.held[u])
      && (forall q | q != p :: multiset(next.held[t])[q] == multiset(rt.held[t])[q])
  {
    var w := Without(rt.held[t], p);
    assert p in w <==> multiset(w)[p] > 0;
  }

  /** Only a release or a mark of it ends the life of a payload. */
  lemma {:induction false} LifeEndsOnlyBy(rt: Runtime, c: Call, p: PayloadId)
    requires rt.held.Keys == rt.tasks.Keys && Callable(rt, c) && p in rt.payloads && !Ends(c, p)
    ensures p in Called(rt, c).payloads && Called(rt, c).payloads[p] == rt.payloads[p]
  {
    hide ExecuteAll, RunSerially, Replay;
    if c.DoRun? { RunsKeepOwnership(rt, c.order); }
  }

  lemma {:induction false} DeadIsNotTaken(rt: Runtime, c: Call, t: TaskId, p: PayloadId)
    requires rt.held.Keys == rt.tasks.Keys && Callable(rt, c) && t in rt.tasks
    requires p in rt.payloads && rt.payloads[p] != Live && p !in rt.held[t]
    ensures t in Called(rt, c).held && p !in Called(rt, c).held[t]
  {
    hide ExecuteAll, RunSerially, Replay, Append;
    match c
    case DoRun(order, _) => RunsKeepOwnership(rt, order);
    case DoCancel(u) => CancelKeeps(rt, u);
    case DoTransfer(u, q) => TransferHandles(rt, u, q);
    case DoRelease(u, q) => ReleaseHandles(rt, u, q, t, p);
    case DoSpawn(u, owner, fn, cost, timeout) => SpawnHandles(rt, u, owner, fn, cost, timeout);
    case _ =>
  }

  lemma {:induction false} SpawnHandles(rt: Runtime, t: TaskId, owner: WorkerId, fn: World -> (World, Outcome), cost: real,
        timeout: Option<real>)
    ensures Spawn(rt, t, owner, fn, cost, timeout).0.held == if t in rt.tasks then rt.held else rt.held[t := []]
  {
  }

  lemma {:induction false} TransferHandles(rt: Runtime, t: TaskId, p: PayloadId)
    requires t in rt.tasks && t in rt.held && p in rt.payloads
    ensures Transfer(rt, t, p).0.held ==
      if rt.payloads[p] == Live && p !in rt.held[t] then Regranted(rt.held, rt.ownerOf, t, p) else rt.held
    ensures forall u, q | u in rt.held && q != p && q !in rt.held[u] :: q !in Transfer(rt, t, p).0.held[u]
  {
    hide Regranted;
    forall u, q | u in rt.held && q != p && q !in rt.held[u] ensures q !in Transfer(rt, t, p).0.held[u] {
      RegrantAdds(rt.held, rt.ownerOf, t, p, u, q);
    }
  }

  lemma {:induction false} RegrantAdds(held: map<TaskId, seq<PayloadId>>, ownerOf: map<PayloadId, TaskId>, t: TaskId,
        p: PayloadId, u: TaskId, q: PayloadId)
    requires t in held && u in held && q != p && q !in held[u]
    ensures q !in Regranted(held, ownerOf, t, p)[u]
  {
    var w := Without(held[u], p);
    assert q in w ==> multiset(w)[q] > 0;
    assert multiset(w)[q] == multiset(held[u])[q] == 0;
  }

  lemma {:induction false} ReleaseHandles(rt: Runtime, t: TaskId, p: PayloadId, u: TaskId, q: PayloadId)
    requires t in rt.tasks && t in rt.held && p in rt.payloads && u in rt.held && q !in rt.held[u]
    ensures u in Release(rt, t, p).0.held && q !in Release(rt, t, p).0.held[u]
  {
    var w := Without(rt.held[t], p);
    assert q in w ==> multiset(w)[q] > 0;
  }

  /** A released payload is consumed, and in every later state it is not live, the releasing task does not hold it, and
      every transfer of it is refused without effect; it stays consumed unless it is released or marked again. */
  lemma {:induction false} ReleasedForGood(workers: set<WorkerId>, calls: seq<Call>, states: seq<Runtime>, j: nat, k: nat,
        t: TaskId, p: PayloadId, u: TaskId)
    requires History(workers, calls, states) && j < k < |states| && calls[j] == DoRelease(t, p)
    ensures p in states[k].payloads && states[k].payloads[p] != Live
    ensures (forall i | j < i < k :: !Ends(calls[i], p)) ==> states[k].payloads[p] == Consumed
    ensures t in states[k].tasks && t in states[k].held && p !in states[k].held[t]
    ensures u in states[k].tasks && u in states[k].held ==> Transfer(states[k], u, p) == (states[k], Err(NotLive))
    decreases k
  {
    hide Callable, Called, Release, Ends;
    assert Follows(states[k - 1], calls[k - 1], states[k - 1 + 1]);
    if k == j + 1 {
      ReleaseCall(states[j], t, p);
      ReleaseConsumes(states[j], t, p);
    } else {
      ReleasedForGood(workers, calls, states, j, k - 1, t, p, u);
      CallKeepsDead(states[k - 1], calls[k - 1], p);
      DeadIsNotTaken(states[k - 1], calls[k - 1], t, p);
      CallKeepsTasks(states[k - 1], calls[k - 1], t);
      if !Ends(calls[k - 1], p) { LifeEndsOnlyBy(states[k - 1], calls[k - 1], p); }
    }
  }

  lemma {:induction false} ReleaseCall(rt: Runtime, t: TaskId, p: PayloadId)
    requires rt.held.Keys == rt.tasks.Keys && Callable(rt, DoRelease(t, p))
    ensures t in rt.tasks && t in rt.held && p in rt.payloads && Called(rt, DoRelease(t, p)) == Release(rt, t, p).0
    ensures t in Called(rt, DoRelease(t, p)).tasks
  {
  }

  lemma {:induction false} CallKeepsTasks(rt: Runtime, c: Call, t: TaskId)
    requires rt.held.Keys == rt.tasks.Keys && Callable(rt, c) && t in rt.tasks
    ensures t in Called(rt, c).tasks
  {
    hide ExecuteAll, RunSerially, Replay;
    match c
    case DoRun(order, _) => RunsKeepOwnership(rt, order);
    case _ =>
  }

  // ---- transfer ----

  /** A live payload that the task does not hold moves to it, whatever the log says: it stays live, the index names
      the task, and no other payload changes owner. Any other transfer changes nothing at all. */
  lemma {:induction false} TransferTakes(rt: Runtime, t: TaskId, p: PayloadId)
    requires Custodial(rt) && t in rt.tasks && p in rt.payloads
    ensures var (next, r) := Transfer(rt, t, p);
      if rt.payloads[p] != Live then (next, r) == (rt, Err(NotLive))
      else if p in rt.held[t] then (next, r) == (rt, Err(CloneRejected))
      else
        && next.payloads == rt.payloads && next.tasks == rt.tasks && next.ownerOf == rt.ownerOf[p := t]
        && next.held.Keys == rt.held.Keys && next.held[t] == rt.held[t] + [p]
        && (forall u | u in rt.held && u != t :: p !in next.held[u])
        && (forall u, q | u in rt.held && q != p :: multiset(next.held[u])[q] == multiset(rt.held[u])[q])
        && (r == Ok <==> !rt.sealed) && (r != Ok ==> r == Err(LogSealed) && next.log == rt.log && next.clock == rt.clock)
        && (r == Ok ==> next.clock == rt.clock + 1 && |next.log| == |rt.log| + 1 && next.log[..|rt.log|] == rt.log)
  {
    hide Without;
    if rt.payloads[p] == Live && p !in rt.held[t] {
      var next := Transfer(rt, t, p).0;
      TransferKeeps(rt, t, p);
      forall u | u in rt.held && u != t ensures p !in next.held[u] {
        var s := next.held[u];
        assert p in s <==> multiset(s)[p] > 0;
        assert multiset(s)[p] == Share(next.ownerOf, u, p);
      }
      forall u, q | u in rt.held && q != p ensures multiset(next.held[u])[q] == multiset(rt.held[u])[q] {
        assert u == t ==> multiset(next.held[u]) == multiset(rt.held[u]) + multiset{p};
      }
    }
  }

  /** The event of an accepted transfer names payload, previous owner and new one. */
  lemma {:induction false} TransferTells(rt: Runtime, t: TaskId, p: PayloadId)
    requires t in rt.tasks && t in rt.held && p in rt.payloads && rt.payloads[p] == Live && p !in rt.held[t] && !rt.sealed
    ensures var src := if p in rt.ownerOf then rt.ownerOf[p] else "-";
      var w := if rt.tasks[t].owner == "" then "-" else rt.tasks[t].owner;
      Transfer(rt, t, p).0.log ==
        rt.log + [Event(rt.clock + 1, w, OWNERSHIP_TRANSFER, p, None, Delta([], [Handover(p, src, t)], [], []))]
  {
    hide Regranted;
  }

  // ---- spawn and cancel ----

  /** A spawn of a new identity registers a ready task with what it was given, stamped by a tick and holding nothing,
      and leaves all others alone; a spawn of a known one changes nothing. */
  lemma {:induction false} SpawnRegisters(rt: Runtime, t: TaskId, owner: WorkerId, fn: World -> (World, Outcome),
        cost: real, timeout: Option<real>)
    ensures var (next, r) := Spawn(rt, t, owner, fn, cost, timeout);
      if t in rt.tasks then (next, r) == (rt, Err(DuplicateTask))
      else
        && next.tasks == rt.tasks[t := Task(owner, fn, cost, timeout, rt.clock + 1, Ready, None)]
        && next.held == rt.held[t := []] && next.clock == rt.clock + 1
        && next.payloads == rt.payloads && next.ownerOf == rt.ownerOf && next.world == rt.world
        && next.completed == rt.completed
        && next.log == (if rt.sealed then rt.log else rt.log + [Event(rt.clock + 1, owner, SPAWN, t, None, NO_DELTA)])
        && r == (if rt.sealed then Err(LogSealed) else Ok)
  {
  }

  /** Only a spawn brings a task into being, and only a cancellation cancels one. */
  lemma {:induction false} CancelledOnlyByCancel(rt: Runtime, c: Call, t: TaskId)
    requires rt.held.Keys == rt.tasks.Keys && Callable(rt, c) && t in rt.tasks
    ensures t in Called(rt, c).tasks
    ensures Called(rt, c).tasks[t].state == Cancelled <==>
      rt.tasks[t].state == Cancelled || (c == DoCancel(t) && rt.tasks[t].state in {Ready, Running})
    ensures rt.tasks[t].state == Cancelled ==> Called(rt, c).tasks[t] == rt.tasks[t]
  {
    hide Append, ExecuteAll, RunSerially, Transfer, Release;
    match c
    case DoRun(order, threaded) => RunsLeaveCancelled(rt, order, t);
    case DoTransfer(u, p) => HandlesLeaveTasks(rt, u, p);
    case DoRelease(u, p) => HandlesLeaveTasks(rt, u, p);
    case DoCancel(u) => CancelSets(rt, u);
    case DoSpawn(u, owner, fn, cost, timeout) => SpawnRegisters(rt, u, owner, fn, cost, timeout);
    case _ =>
  }

  lemma {:induction false} HandlesLeaveTasks(rt: Runtime, t: TaskId, p: PayloadId)
    requires t in rt.tasks && t in rt.held && p in rt.payloads
    ensures Transfer(rt, t, p).0.tasks == rt.tasks && Release(rt, t, p).0.tasks == rt.tasks
  {
    hide Regranted;
  }

  /** A cancellation of a task that is ready or running; a settled one is left alone. */
  lemma {:induction false} CancelSets(rt: Runtime, t: TaskId)
    requires t in rt.tasks
    ensures var (next, r) := Cancel(rt, t);
      if rt.tasks[t].state !in {Ready, Running} then (next, r) == (rt, Err(AlreadySettled))
      else
        var w := if rt.tasks[t].owner == "" then "-" else rt.tasks[t].owner;
        && next.tasks == rt.tasks[t := rt.tasks[t].(state := Cancelled)] && next.world == rt.world
        && next.held == rt.held && next.payloads == rt.payloads && next.ownerOf == rt.ownerOf
        && next.log == (if rt.sealed then rt.log else rt.log + [Event(rt.clock + 1, w, TASK_CANCEL, t, None, NO_DELTA)])
        && r == (if rt.sealed then Err(LogSealed) else Ok)
  {
  }

  lemma {:induction false} RunsLeaveCancelled(rt: Runtime, order: seq<TaskId>, t: TaskId)
    requires t in rt.tasks
    ensures t in ExecuteAll(rt, order).tasks && t in RunSerially(rt, order).state.tasks
    ensures ExecuteAll(rt, order).tasks[t].state == Cancelled <==> rt.tasks[t].state == Cancelled
    ensures RunSerially(rt, order).state.tasks[t].state == Cancelled <==> rt.tasks[t].state == Cancelled
    ensures rt.tasks[t].state == Cancelled ==>
      ExecuteAll(rt, order).tasks[t] == rt.tasks[t] && RunSerially(rt, order).state.tasks[t] == rt.tasks[t]
    decreases |order|
  {
    hide Execute;
    if order != [] {
      var k := |order| - 1;
      RunsLeaveCancelled(rt, order[..k], t);
      ExecuteLeavesCancelled(ExecuteAll(rt, order[..k]), order[k], t);
      ExecuteLeavesCancelled(RunSerially(rt, order[..k]).state, order[k], t);
    }
  }

  lemma {:induction false} ExecuteLeavesCancelled(rt: Runtime, u: TaskId, t: TaskId)
    requires t in rt.tasks
    ensures t in Execute(rt, u).state.tasks
    ensures Execute(rt, u).state.tasks[t].state == Cancelled <==> rt.tasks[t].state == Cancelled
    ensures rt.tasks[t].state == Cancelled ==> Execute(rt, u).state.tasks[t] == rt.tasks[t]
  {
    hide Execute;
    RaisesIff(rt, u);
    if u in rt.tasks && rt.tasks[u].state == Cancelled { CancelledSkips(rt, u); }
  }

  /** A task that is cancelled before it ran keeps its record for ever: no runner calls its body any more. */
  lemma {:induction false} CancelledForGood(workers: set<WorkerId>, calls: seq<Call>, states: seq<Runtime>, j: nat, k: nat,
        t: TaskId)
    requires History(workers, calls, states) && j < k < |states| && calls[j] == DoCancel(t)
    requires t in states[j].tasks && states[j].tasks[t].state in {Ready, Running}
    ensures t in states[k].tasks && states[k].tasks[t] == states[j].tasks[t].(state := Cancelled)
    decreases k
  {
    hide Callable, Called, Cancel;
    assert Follows(states[k - 1], calls[k - 1], states[k - 1 + 1]);
    if k == j + 1 {
      CancelCall(states[j], t);
      CancelSets(states[j], t);
    } else {
      CancelledForGood(workers, calls, states, j, k - 1, t);
      CancelledOnlyByCancel(states[k - 1], calls[k - 1], t);
    }
  }

  lemma {:induction false} CancelCall(rt: Runtime, t: TaskId)
    requires rt.held.Keys == rt.tasks.Keys && Callable(rt, DoCancel(t))
    ensures t in rt.tasks && Called(rt, DoCancel(t)) == Cancel(rt, t).0
  {
  }
}
