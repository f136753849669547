/** Wait-for graphs and minimal-cycle deadlock detection.
    A node is a number standing for the rank of its name in the sorted order of names. */
module DeadlockDetection {
  import opened Basics

  type Node = int
  type Graph = map<Node, set<Node>>

  function Successors(g: Graph, n: Node): set<Node> { if n in g then g[n] else {} }

  /** A closed walk, listed from some start; the last node leads back to the first. */
  ghost predicate Cycle(g: Graph, c: seq<Node>) {
    && |c| > 0
    && (forall i | 0 <= i < |c| - 1 :: c[i + 1] in Successors(g, c[i]))
    && c[0] in Successors(g, c[|c| - 1])
  }

  ghost predicate Acyclic(g: Graph) { forall c :: !Cycle(g, c) }

  lemma {:induction false} RotateCycle(g: Graph, c: seq<Node>, j: nat)
    requires Cycle(g, c) && j < |c|
    ensures Cycle(g, c[j..] + c[..j])
  {
    var r := c[j..] + c[..j];
    forall i | 0 <= i < |r| - 1 ensures r[i + 1] in Successors(g, r[i]) {
      if i < |c| - j - 1 {
        assert r[i] == c[j + i] && r[i + 1] == c[j + i + 1];
      } else if i == |c| - j - 1 {
        assert r[i] == c[|c| - 1] && r[i + 1] == c[0];
      } else {
        assert r[i] == c[i - (|c| - j)] && r[i + 1] == c[i + 1 - (|c| - j)];
      }
    }
    assert j > 0 ==> r[|r| - 1] == c[j - 1];
  }

  // ---- breadth-first search state ----

  ghost function Nodes(g: Graph): set<Node> { g.Keys + set u, v | u in g.Keys && v in g[u] :: v }

  /** `prev` is a tree of graph edges rooted at `start`, and `depth` counts its levels. */
  ghost predicate Tree(g: Graph, start: Node, prev: map<Node, Option<Node>>, depth: map<Node, nat>) {
    && prev.Keys == depth.Keys <= Nodes(g)
    && start in prev && prev[start] == None && depth[start] == 0
    && (forall v | v in prev && v != start ::
          && prev[v].Some? && prev[v].value in prev
          && v in Successors(g, prev[v].value) && depth[v] == depth[prev[v].value] + 1)
  }

  /** Waiting nodes come in level order and span at most the levels low and low + 1. */
  ghost predicate Frontier(depth: map<Node, nat>, queue: seq<Node>, low: nat) {
    && Distinct(queue)
    && (forall i | 0 <= i < |queue| :: queue[i] in depth && low <= depth[queue[i]] <= low + 1)
    && (forall i, j | 0 <= i < j < |queue| :: depth[queue[i]] <= depth[queue[j]])
  }

  /** Node `u` was expanded: none of its successors is the start and all are in the tree, one level down at most. */
  ghost predicate Expanded(g: Graph, start: Node, depth: map<Node, nat>, u: Node)
    requires u in depth
  {
    forall m | m in Successors(g, u) :: m != start && m in depth && depth[m] <= depth[u] + 1
  }

  /** If every tree node above level `bound` has been expanded, no cycle through the start is that short. */
  lemma {:induction false} NoShortCycle(g: Graph, start: Node, depth: map<Node, nat>, bound: nat, c: seq<Node>, i: nat)
    requires start in depth && depth[start] == 0
    requires forall u | u in depth && depth[u] < bound :: Expanded(g, start, depth, u)
    requires Cycle(g, c) && c[0] == start && |c| <= bound && i < |c|
    ensures c[i] in depth && depth[c[i]] <= i
    ensures i == |c| - 1 ==> false
    decreases i
  {
    if i > 0 { NoShortCycle(g, start, depth, bound, c, i - 1); }
    if i > 0 { assert c[i] in Successors(g, c[i - 1]); }
    assert Expanded(g, start, depth, c[i]);
  }

  lemma {:induction false} ReverseWalk(g: Graph, back: seq<Node>)
    requires forall i | 0 <= i < |back| - 1 :: back[i] in Successors(g, back[i + 1])
    ensures forall i | 0 <= i < |back| - 1 :: Reversed(back)[i + 1] in Successors(g, Reversed(back)[i])
  {
    var path := Reversed(back);
    forall i | 0 <= i < |path| - 1 ensures path[i + 1] in Successors(g, path[i]) {
      var j := |back| - 2 - i;
      assert back[j] in Successors(g, back[j + 1]);
    }
  }

  /** Walk the predecessor links back to the root and list the nodes root first. */
  method TracePath(prev: map<Node, Option<Node>>, n: Node, ghost g: Graph, ghost start: Node,
        ghost depth: map<Node, nat>)
    returns (path: seq<Node>)
    requires Tree(g, start, prev, depth) && n in prev
    ensures |path| == depth[n] + 1 && path[0] == start && path[|path| - 1] == n
    ensures forall i | 0 <= i < |path| - 1 :: path[i + 1] in Successors(g, path[i])
    ensures Distinct(path)
  {
    hide Successors, Distinct;
    var back := [n];
    var p := prev[n];
    while p.Some?
      invariant |back| > 0 && back[0] == n
      invariant forall i | 0 <= i < |back| :: back[i] in prev && back[i] in depth && depth[back[i]] == depth[n] - i
      invariant forall i | 0 <= i < |back| - 1 :: back[i] in Successors(g, back[i + 1])
      invariant p == prev[back[|back| - 1]]
      decreases depth[back[|back| - 1]]
    {
      var here := back[|back| - 1];
      assert here in prev && here != start && prev[here] == p;
      assert p.value in prev && here in Successors(g, p.value) && depth[here] == depth[p.value] + 1;
      back := back + [p.value];
      p := prev[p.value];
    }
    assert back[|back| - 1] in prev && back[|back| - 1] == start;
    path := Reversed(back);
    ReverseWalk(g, back);
    DepthsAreDistinct(path, depth);
  }

  lemma {:induction false} DepthsAreDistinct(path: seq<Node>, depth: map<Node, nat>)
    requires forall i | 0 <= i < |path| :: path[i] in depth && depth[path[i]] == i
    ensures Distinct(path)
  {
  }

  /** The search while node `n` is being expanded: everything discovered is finished, waiting, or `n` itself. */
  ghost predicate Searching(g: Graph, start: Node, prev: map<Node, Option<Node>>, depth: map<Node, nat>,
                            queue: seq<Node>, n: Node, done: set<Node>)
  {
    && Tree(g, start, prev, depth)
    && n in depth && Frontier(depth, queue, depth[n])
    && (forall u :: u in depth <==> u in done || u in queue || u == n)
    && n !in queue && n !in done && (forall u | u in done :: u !in queue)
    && (forall u | u in done :: Expanded(g, start, depth, u) && depth[u] <= depth[n])
  }

  lemma {:induction false} Discover(g: Graph, start: Node, prev: map<Node, Option<Node>>, depth: map<Node, nat>,
                 queue: seq<Node>, n: Node, done: set<Node>, m: Node)
    requires Searching(g, start, prev, depth, queue, n, done)
    requires m in Successors(g, n) && m !in prev
    ensures Searching(g, start, prev[m := Some(n)], depth[m := depth[n] + 1], queue + [m], n, done)
  {
    var prev', depth', queue' := prev[m := Some(n)], depth[m := depth[n] + 1], queue + [m];
    assert Tree(g, start, prev', depth');
    assert Frontier(depth', queue', depth'[n]);
    forall u | u in done ensures Expanded(g, start, depth', u) {
      assert Expanded(g, start, depth, u);
    }
    assert forall u :: u in queue' <==> u in queue || u == m;
  }

  lemma {:induction false} StartSearch(g: Graph, start: Node)
    requires start in g
    ensures Searching(g, start, map[start := None], map[start := 0], [], start, {})
  {}

  /** Closing the walk from `n` back to the start gives a cycle no longer than any other through the start. */
  lemma {:induction false} FoundIsShortest(g: Graph, start: Node, prev: map<Node, Option<Node>>, depth: map<Node, nat>,
                        queue: seq<Node>, n: Node, done: set<Node>)
    requires Searching(g, start, prev, depth, queue, n, done)
    ensures forall c | Cycle(g, c) && c[0] == start :: depth[n] + 1 <= |c|
  {
    forall c | Cycle(g, c) && c[0] == start ensures depth[n] + 1 <= |c| {
      if |c| <= depth[n] {
        forall u | u in depth && depth[u] < depth[n] ensures Expanded(g, start, depth, u) {
          assert u in done;
        }
        NoShortCycle(g, start, depth, depth[n], c, |c| - 1);
      }
    }
  }

  lemma {:induction false} ExhaustedMeansNone(g: Graph, start: Node, prev: map<Node, Option<Node>>,
        depth: map<Node, nat>, n: Node, done: set<Node>)
    requires Searching(g, start, prev, depth, [], n, done) && Expanded(g, start, depth, n)
    ensures forall c | Cycle(g, c) :: c[0] != start
  {
    forall c | Cycle(g, c) ensures c[0] != start {
      if c[0] == start {
        assert forall u | u in depth :: Expanded(g, start, depth, u);
        NoShortCycle(g, start, depth, |c|, c, |c| - 1);
      }
    }
  }

  lemma {:induction false} NextHead(g: Graph, start: Node, prev: map<Node, Option<Node>>, depth: map<Node, nat>,
                 queue: seq<Node>, n: Node, done: set<Node>)
    requires Searching(g, start, prev, depth, queue, n, done) && Expanded(g, start, depth, n) && queue != []
    ensures Searching(g, start, prev, depth, queue[1..], queue[0], done + {n})
  {
    var h, rest := queue[0], queue[1..];
    assert forall u :: u in queue <==> u == h || u in rest;
    assert forall i | 0 <= i < |rest| :: rest[i] == queue[i + 1];
    assert Frontier(depth, rest, depth[h]);
  }

  lemma {:induction false} Progress(g: Graph, start: Node, prev: map<Node, Option<Node>>, depth: map<Node, nat>,
                 queue: seq<Node>, n: Node, done: set<Node>)
    requires Searching(g, start, prev, depth, queue, n, done)
    ensures |Nodes(g) - (done + {n})| < |Nodes(g) - done|
  {
    assert n in Nodes(g) - done;
    assert Nodes(g) - (done + {n}) == (Nodes(g) - done) - {n};
  }

  /** Expand the head of the queue; report whether it closes a cycle. */
  method Expand(g: Graph, start: Node, n: Node, prev0: map<Node, Option<Node>>, queue0: seq<Node>,
                ghost depth0: map<Node, nat>, ghost done: set<Node>)
    returns (closes: bool, prev: map<Node, Option<Node>>, queue: seq<Node>, ghost depth: map<Node, nat>)
    requires Searching(g, start, prev0, depth0, queue0, n, done)
    ensures Searching(g, start, prev, depth, queue, n, done)
    ensures closes ==> start in Successors(g, n)
    ensures !closes ==> Expanded(g, start, depth, n)
  {
    hide Tree, Frontier, Nodes, Successors, Ascending;
    prev, queue, depth := prev0, queue0, depth0;
    var ms := Sorted(Successors(g, n));
    var i := 0;
    while i < |ms|
      invariant 0 <= i <= |ms|
      invariant Searching(g, start, prev, depth, queue, n, done)
      invariant forall k | 0 <= k < i :: ms[k] != start && ms[k] in depth && depth[ms[k]] <= depth[n] + 1
    {
      var m := ms[i];
      assert m in Successors(g, n);
      if m == start { return true, prev, queue, depth; }
      if m !in prev {
        Discover(g, start, prev, depth, queue, n, done, m);
        prev := prev[m := Some(n)];
        queue := queue + [m];
        depth := depth[m := depth[n] + 1];
      } else {
        NotDeeper(g, start, prev, depth, queue, n, done, m);
      }
      i := i + 1;
    }
    assert forall m | m in Successors(g, n) :: m in ms;
    closes := false;
  }

  lemma {:induction false} NotDeeper(g: Graph, start: Node, prev: map<Node, Option<Node>>, depth: map<Node, nat>,
                  queue: seq<Node>, n: Node, done: set<Node>, m: Node)
    requires Searching(g, start, prev, depth, queue, n, done) && m in prev
    ensures m in depth && depth[m] <= depth[n] + 1
  {}

  /** The cycle reported when `n` leads back to the start. */
  method ClosePath(g: Graph, start: Node, prev: map<Node, Option<Node>>, ghost queue: seq<Node>, n: Node,
                   ghost depth: map<Node, nat>, ghost done: set<Node>)
    returns (path: seq<Node>)
    requires Searching(g, start, prev, depth, queue, n, done) && start in Successors(g, n)
    ensures Cycle(g, path) && path[0] == start && Distinct(path) && |path| == depth[n] + 1
  {
    path := TracePath(prev, n, g, start, depth);
  }

  /** `found` is a shortest cycle starting at `start`, or there is none. */
  ghost predicate ShortestFrom(g: Graph, start: Node, found: Option<seq<Node>>) {
    && (found.Some? ==> Cycle(g, found.value) && found.value[0] == start && Distinct(found.value))
    && (found.Some? ==> forall c | Cycle(g, c) && c[0] == start :: |found.value| <= |c|)
    && (found.None? ==> forall c | Cycle(g, c) :: c[0] != start)
  }

  /** Shortest cycle through `start`, by breadth-first search from `start` back to itself. */
  method CycleThrough(g: Graph, start: Node) returns (found: Option<seq<Node>>)
    requires start in g
    ensures ShortestFrom(g, start, found)
  {
    var prev: map<Node, Option<Node>> := map[start := None];
    var queue := [start];
    ghost var depth: map<Node, nat> := map[start := 0];
    ghost var done: set<Node> := {};
    StartSearch(g, start);
    assert queue[1..] == [];
    while queue != []
      invariant queue != [] ==> Searching(g, start, prev, depth, queue[1..], queue[0], done)
      invariant queue == [] ==> forall c | Cycle(g, c) :: c[0] != start
      decreases |Nodes(g) - done|
    {
      var n := queue[0];
      var closes;
      closes, prev, queue, depth := Expand(g, start, n, prev, queue[1..], depth, done);
      if closes {
        FoundIsShortest(g, start, prev, depth, queue, n, done);
        var path := ClosePath(g, start, prev, queue, n, depth, done);
        return Some(path);
      }
      Progress(g, start, prev, depth, queue, n, done);
      if queue == [] {
        ExhaustedMeansNone(g, start, prev, depth, n, done);
      } else {
        NextHead(g, start, prev, depth, queue, n, done);
      }
      done := done + {n};
    }
    found := None;
  }

  /** No cycle from `s` beats `best`, and an equally short one does not start at a smaller node. */
  ghost predicate Unbeaten(g: Graph, best: Option<seq<Node>>, s: Node)
    requires best.Some? ==> best.value != []
  {
    forall c | Cycle(g, c) && c[0] == s ::
      best.Some? && |best.value| <= |c| && (|c| == |best.value| ==> best.value[0] <= s)
  }

  lemma {:induction false} UnbeatenAnywhere(g: Graph, best: Option<seq<Node>>, c: seq<Node>, j: nat)
    requires best.Some? ==> best.value != []
    requires Cycle(g, c) && j < |c| && (c[j] in g ==> Unbeaten(g, best, c[j]))
    ensures best.Some? && |best.value| <= |c| && (|c| == |best.value| ==> best.value[0] <= c[j])
  {
    var r := c[j..] + c[..j];
    RotateCycle(g, c, j);
    assert r[0] == c[j] && |r| == |c|;
    assert Successors(g, r[0]) != {} by { assert |r| > 1 ==> r[1] in Successors(g, r[0]); }
  }

  /** What the search over all starts establishes. */
  ghost predicate IsMinimalCycle(g: Graph, best: Option<seq<Node>>) {
    && (best.None? <==> Acyclic(g))
    && (best.Some? ==> Cycle(g, best.value) && Distinct(best.value))
    && (best.Some? ==> forall c | Cycle(g, c) :: |best.value| <= |c|)
    && (best.Some? ==> forall c, i | Cycle(g, c) && |c| == |best.value| && 0 <= i < |c| :: best.value[0] <= c[i])
  }

  /** The state of the search after the first `i` start nodes. */
  ghost predicate Tried(g: Graph, best: Option<seq<Node>>, starts: seq<Node>, i: nat)
    requires i <= |starts|
  {
    && (best.Some? ==> Cycle(g, best.value) && Distinct(best.value))
    && (best.Some? ==> forall k | i <= k < |starts| :: best.value[0] < starts[k])
    && (forall k | 0 <= k < i :: Unbeaten(g, best, starts[k]))
  }

  lemma {:induction false} AllStartsTried(g: Graph, best: Option<seq<Node>>, starts: seq<Node>)
    requires Tried(g, best, starts, |starts|) && forall s | s in g :: s in starts
    ensures IsMinimalCycle(g, best)
  {
    forall c, j | Cycle(g, c) && 0 <= j < |c|
      ensures best.Some? && |best.value| <= |c| && (|c| == |best.value| ==> best.value[0] <= c[j])
    {
      UnbeatenAnywhere(g, best, c, j);
    }
    assert forall c | Cycle(g, c) :: 0 <= 0 < |c|;
  }

  /** The cycle kept after trying one more start. */
  function Better(best: Option<seq<Node>>, found: Option<seq<Node>>): Option<seq<Node>> {
    if found.Some? && (best.None? || |found.value| < |best.value|) then found else best
  }

  lemma {:induction false} TryNext(g: Graph, best: Option<seq<Node>>, starts: seq<Node>, i: nat,
        found: Option<seq<Node>>)
    requires i < |starts| && Ascending(starts) && Tried(g, best, starts, i) && ShortestFrom(g, starts[i], found)
    ensures Tried(g, Better(best, found), starts, i + 1)
  {
    var keep := Better(best, found);
    forall k | 0 <= k < i + 1 ensures Unbeaten(g, keep, starts[k]) {
      if k < i { assert Unbeaten(g, best, starts[k]); }
    }
  }

  /** Shortest directed cycle of the whole graph; among equally short ones, one with the least start node. */
  method MinimalCycle(g: Graph) returns (best: Option<seq<Node>>)
    ensures IsMinimalCycle(g, best)
  {
    best := None;
    var starts := Sorted(g.Keys);
    var i := 0;
    while i < |starts|
      invariant 0 <= i <= |starts|
      invariant Tried(g, best, starts, i)
    {
      var found := CycleThrough(g, starts[i]);
      TryNext(g, best, starts, i, found);
      best := Better(best, found);
      i := i + 1;
    }
    AllStartsTried(g, best, starts);
  }

  // ---- the detector object ----

  datatype Kind = Task | Resource | Future

  datatype Token = Clear | Deadlock | RetryStorm | UnsatisfiedFuture | Starvation

  datatype Report = Report(token: Token, cycle: Option<seq<Node>>, resources: seq<Node>,
                           storms: seq<Node>, unsatisfied: seq<Node>, starving: seq<Node>)
  {
    predicate Ok() { cycle.None? && storms == [] && unsatisfied == [] && starving == [] }
  }

  function SetDefault<K, V>(m: map<K, V>, k: K, v: V): map<K, V> { if k in m then m else m[k := v] }

  /** The graph after both nodes are registered and the edge a -> b is added. */
  function WithEdge(g: Graph, a: Node, b: Node): (h: Graph)
    ensures h.Keys == g.Keys + {a, b}
    ensures forall n :: Successors(h, n) == Successors(g, n) + if n == a then {b} else {}
  {
    var h := SetDefault(SetDefault(g, a, {}), b, {});
    h[a := h[a] + {b}]
  }

  class DeadlockDetector {
    const retryStormThreshold: int
    const starvationThreshold: int
    var clock: nat
    var edges: Graph
    var kind: map<Node, Kind>
    var futures: map<Node, bool>
    var retries: map<Node, nat>
    var waitingSince: map<Node, nat>

    constructor (retryStormThreshold: int, starvationThreshold: int)
      ensures edges == map[] && kind == map[] && futures == map[] && retries == map[] && waitingSince == map[] && clock == 0
      ensures this.retryStormThreshold == retryStormThreshold && this.starvationThreshold == starvationThreshold
    {
      this.retryStormThreshold, this.starvationThreshold := retryStormThreshold, starvationThreshold;
      clock, edges, kind, futures, retries, waitingSince := 0, map[], map[], map[], map[], map[];
    }

    method AddWait(task: Node, blocker: Node)
      modifies this
      ensures edges == WithEdge(old(edges), task, blocker)
      ensures kind == SetDefault(SetDefault(old(kind), task, Task), blocker, Task)
      ensures clock == old(clock) + 1 && waitingSince == SetDefault(old(waitingSince), task, clock)
      ensures unchanged(`futures) && unchanged(`retries)
    {
      kind := SetDefault(SetDefault(kind, task, Task), blocker, Task);
      edges := WithEdge(edges, task, blocker);
      Waiting(task);
    }

    method AddResourceWait(task: Node, resource: Node)
      modifies this
      ensures edges == WithEdge(old(edges), task, resource)
      ensures kind == SetDefault(SetDefault(old(kind), task, Task), resource, Resource)
      ensures clock == old(clock) + 1 && waitingSince == SetDefault(old(waitingSince), task, clock)
      ensures unchanged(`futures) && unchanged(`retries)
    {
      kind := SetDefault(SetDefault(kind, task, Task), resource, Resource);
      edges := WithEdge(edges, task, resource);
      Waiting(task);
    }

    method AddResourceHold(holder: Node, resource: Node)
      modifies this
      ensures edges == WithEdge(old(edges), resource, holder)
      ensures kind == SetDefault(SetDefault(old(kind), holder, Task), resource, Resource)
      ensures unchanged(`clock) && unchanged(`waitingSince) && unchanged(`futures) && unchanged(`retries)
    {
      kind := SetDefault(SetDefault(kind, holder, Task), resource, Resource);
      edges := WithEdge(edges, resource, holder);
    }

    method AddFutureDep(task: Node, future: Node)
      modifies this
      ensures edges == WithEdge(old(edges), task, future)
      ensures kind == SetDefault(SetDefault(old(kind), task, Task), future, Future)
      ensures futures == SetDefault(old(futures), future, false)
      ensures clock == old(clock) + 1 && waitingSince == SetDefault(old(waitingSince), task, clock)
      ensures unchanged(`retries)
    {
      kind := SetDefault(SetDefault(kind, task, Task), future, Future);
      edges := WithEdge(edges, task, future);
      futures := SetDefault(futures, future, false);
      Waiting(task);
    }

    /** Marks the future resolved. It keeps the outgoing edges it has, so it may still be part of a cycle. */
    method ResolveFuture(future: Node)
      modifies this
      ensures futures == old(futures)[future := true] && edges == SetDefault(old(edges), future, {})
      ensures unchanged(`clock) && unchanged(`kind) && unchanged(`waitingSince) && unchanged(`retries)
    {
      futures := futures[future := true];
      edges := SetDefault(edges, future, {});
    }

    method RecordRetry(task: Node) returns (n: nat)
      modifies this
      ensures retries == old(retries)[task := n] && n == (if task in old(retries) then old(retries)[task] else 0) + 1
      ensures unchanged(`clock) && unchanged(`edges) && unchanged(`kind) && unchanged(`futures) && unchanged(`waitingSince)
    {
      n := (if task in retries then retries[task] else 0) + 1;
      retries := retries[task := n];
    }

    method ClearWait(task: Node)
      modifies this
      ensures edges == old(edges) - {task} && waitingSince == old(waitingSince) - {task}
      ensures unchanged(`clock) && unchanged(`kind) && unchanged(`futures) && unchanged(`retries)
    {
      edges := edges - {task};
      waitingSince := waitingSince - {task};
    }

    method Waiting(task: Node)
      modifies this`clock, this`waitingSince
      ensures clock == old(clock) + 1 && waitingSince == SetDefault(old(waitingSince), task, clock)
    {
      clock := clock + 1;
      waitingSince := SetDefault(waitingSince, task, clock);
    }

    /** The scan reports a deadlock exactly when the merged graph has a cycle, and then a minimal one. */
    method Detect() returns (rep: Report)
      ensures IsMinimalCycle(edges, rep.cycle)
      ensures rep.token == Deadlock <==> !Acyclic(edges)
      ensures rep.token == Clear <==> rep.Ok()
      ensures rep.token == RetryStorm <==> Acyclic(edges) && rep.storms != []
      ensures rep.token == UnsatisfiedFuture <==> Acyclic(edges) && rep.storms == [] && rep.unsatisfied != []
      ensures rep.token == Starvation <==>
        Acyclic(edges) && rep.storms == [] && rep.unsatisfied == [] && rep.starving != []
      ensures forall n :: n in rep.resources <==> rep.cycle.Some? && n in rep.cycle.value && n in kind && kind[n] == Resource
      ensures forall n :: n in rep.unsatisfied <==> n in futures && !futures[n]
      ensures forall n :: n in rep.storms <==> n in retries && retries[n] > retryStormThreshold
      ensures forall n :: n in rep.starving <==> n in waitingSince && clock - waitingSince[n] > starvationThreshold
    {
      var cycle := MinimalCycle(edges);
      var onCycle := if cycle.Some? then cycle.value else [];
      var resources := Sorted(set n | n in onCycle && n in kind && kind[n] == Resource);
      var unsatisfied := Sorted(set n | n in futures && !futures[n]);
      var storms := Sorted(set n | n in retries && retries[n] > retryStormThreshold);
      var starving := Sorted(set n | n in waitingSince && clock - waitingSince[n] > starvationThreshold);
      var token :=
        if cycle.Some? then Deadlock
        else if storms != [] then RetryStorm
        else if unsatisfied != [] then UnsatisfiedFuture
        else if starving != [] then Starvation
        else Clear;
      rep := Report(token, cycle, resources, storms, unsatisfied, starving);
    }
  }

  /** Removing a node's outgoing waits breaks exactly the cycles through that node. */
  lemma {:induction false} ClearWaitBreaksCycles(g: Graph, task: Node, c: seq<Node>)
    ensures Cycle(g - {task}, c) <==> Cycle(g, c) && task !in c
  {
    var h := g - {task};
    assert forall n :: Successors(h, n) == if n == task then {} else Successors(g, n);
    if Cycle(h, c) {
      forall i | 0 <= i < |c| ensures c[i] != task {
        var next := if i < |c| - 1 then c[i + 1] else c[0];
        assert next in Successors(h, c[i]);
      }
    }
  }

  /** Resolving a future breaks no cycle: it only makes sure the node is there. */
  lemma {:induction false} ResolveBreaksNoCycle(g: Graph, future: Node, c: seq<Node>)
    ensures Cycle(SetDefault(g, future, {}), c) <==> Cycle(g, c)
  {
    var h := SetDefault(g, future, {});
    assert forall n :: Successors(h, n) == Successors(g, n);
  }

  /** Counting the retries of one task from the start: a storm is reported from the first retry above the limit on. */
  method RetriesVerdict(task: Node, n: nat, storm: int, starvation: int) returns (rep: Report)
    ensures rep.token == if n > 0 && n > storm then RetryStorm else Clear
    ensures forall m :: m in rep.storms <==> m == task && n > 0 && n > storm
  {
    var detector := new DeadlockDetector(storm, starvation);
    for i := 0 to n
      invariant fresh(detector) && detector.edges == map[] && detector.futures == map[] && detector.waitingSince == map[]
      invariant detector.retryStormThreshold == storm && detector.starvationThreshold == starvation
      invariant detector.retries == if i == 0 then map[] else map[task := i]
    {
      var count := detector.RecordRetry(task);
    }
    NoCycleWithoutEdges(detector.edges);
    rep := detector.Detect();
    assert task in rep.storms <==> n > 0 && n > storm;
    FirstIsListed(rep.storms);
    FirstIsListed(rep.unsatisfied);
    FirstIsListed(rep.starving);
  }

  lemma {:induction false} FirstIsListed(s: seq<Node>)
    ensures s == [] <==> forall n :: n !in s
  {
    if s != [] {
      var n := s[0];
      assert n in s;
    }
  }

  /** A wait recorded n times more is as old as n: it starves from the first step above the limit on. */
  method WaitsVerdict(task: Node, blocker: Node, n: nat, storm: int, starvation: int) returns (rep: Report)
    requires task != blocker
    ensures rep.token == if n > starvation then Starvation else Clear
    ensures forall m :: m in rep.starving <==> m == task && n > starvation
  {
    var detector := new DeadlockDetector(storm, starvation);
    detector.AddWait(task, blocker);
    ghost var since := detector.clock;
    for i := 0 to n
      invariant fresh(detector) && detector.waitingSince == map[task := since]
      invariant detector.retries == map[] && detector.futures == map[]
      invariant detector.retryStormThreshold == storm && detector.starvationThreshold == starvation
      invariant detector.clock == since + i
      invariant forall m :: Successors(detector.edges, m) == if m == task then {blocker} else {}
    {
      detector.AddWait(task, blocker);
    }
    NoCycleByOneEdge(detector.edges, task, blocker);
    rep := detector.Detect();
    assert task in rep.starving <==> n > starvation;
    FirstIsListed(rep.storms);
    FirstIsListed(rep.unsatisfied);
    FirstIsListed(rep.starving);
  }

  lemma {:induction false} NoCycleWithoutEdges(g: Graph)
    requires g == map[]
    ensures Acyclic(g)
  {
    assert forall n :: Successors(g, n) == {};
  }

  lemma {:induction false} NoCycleByOneEdge(g: Graph, task: Node, blocker: Node)
    requires task != blocker && forall m :: Successors(g, m) == if m == task then {blocker} else {}
    ensures Acyclic(g)
  {
    forall c | Cycle(g, c) ensures false {
      TwoHops(g, c);
    }
  }

  lemma {:induction false} TwoHops(g: Graph, c: seq<Node>)
    requires Cycle(g, c)
    ensures exists a, b :: a in Successors(g, c[0]) && b in Successors(g, a)
  {
    var a := if |c| == 1 then c[0] else c[1];
    var b := if |c| <= 2 then c[0] else c[2];
    assert |c| > 2 ==> c[1 + 1] in Successors(g, c[1]);
    assert |c| > 1 ==> c[0 + 1] in Successors(g, c[0]);
    assert a in Successors(g, c[0]) && b in Successors(g, a);
  }

  /** A task waits for a future that waits for the task: also when the future has been resolved, that is a deadlock. */
  method DeadlockThroughResolved(task: Node, future: Node) returns (before: Token, after: Token)
    requires task != future
    ensures before == after == Deadlock
  {
    var detector := new DeadlockDetector(0, 0);
    detector.AddFutureDep(task, future);
    detector.AddWait(future, task);
    ghost var g, c := detector.edges, [task, future];
    assert Successors(g, task) == {future} && Successors(g, future) == {task};
    assert Cycle(g, c);
    var rep := detector.Detect();
    before := rep.token;
    detector.ResolveFuture(future);
    ResolveBreaksNoCycle(g, future, c);
    rep := detector.Detect();
    after := rep.token;
  }
}
