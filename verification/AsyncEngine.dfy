/** Futures with a happens-before graph: draining them in dependency order, and the reachability query. */
module AsyncEngines {
  import opened Basics
  import opened DeadlockDetection

  datatype State = Pending | Done | Failed

  /** A submitted computation; `fails` is the outcome of its thunk. Future ids are their numbers. */
  datatype Thunk = Thunk(fid: int, fails: bool)

  type Futures = map<int, State>

  function Fids(s: seq<Thunk>): (f: seq<int>)
    ensures |f| == |s|
  {
    seq(|s|, i requires 0 <= i < |s| => s[i].fid)
  }

  /** Thunks whose future is not among the resolved, in their order. */
  function Unresolved(s: seq<Thunk>, resolved: seq<int>): (u: seq<Thunk>)
  {
    if s == [] then []
    else if s[|s| - 1].fid in resolved then Unresolved(s[..|s| - 1], resolved)
    else Unresolved(s[..|s| - 1], resolved) + [s[|s| - 1]]
  }

  /** No known predecessor is still pending. */
  predicate Ready(hb: Graph, futures: Futures, fid: int) {
    forall d | d in hb && fid in hb[d] && d in futures :: futures[d] != Pending
  }

  /** The order extends happens-before: every predecessor was done before, or is resolved earlier in the list. */
  ghost predicate Extends(hb: Graph, before: Futures, order: seq<int>) {
    forall i, d | 0 <= i < |order| && d in hb && order[i] in hb[d] && d in before :: before[d] != Pending || d in order[..i]
  }

  ghost predicate Consistent(futures: Futures, pending: seq<Thunk>) {
    && Distinct(Fids(pending))
    && (forall t | t in pending :: t.fid in futures && futures[t.fid] == Pending)
    && (forall f | f in futures && futures[f] == Pending :: f in Fids(pending))
  }

  /** A cycle of happens-before edges through pending futures only. */
  ghost predicate PendingCycle(hb: Graph, pending: seq<Thunk>, c: seq<int>) {
    Cycle(hb, c) && forall i | 0 <= i < |c| :: c[i] in Fids(pending)
  }

  /** No future comes after itself or after a later one of the list. */
  ghost predicate Forward(hb: Graph, order: seq<int>) {
    forall i, j | 0 <= i <= j < |order| :: order[i] !in Successors(hb, order[j])
  }

  lemma {:induction false} UnresolvedMembers(s: seq<Thunk>, resolved: seq<int>)
    ensures forall t :: t in Unresolved(s, resolved) <==> t in s && t.fid !in resolved
    ensures |Unresolved(s, resolved)| <= |s|
    decreases |s|
  {
    if s != [] {
      var front, last := s[..|s| - 1], s[|s| - 1];
      UnresolvedMembers(front, resolved);
      assert s == front + [last];
    }
  }

  lemma {:induction false} UnresolvedDistinct(s: seq<Thunk>, resolved: seq<int>)
    requires Distinct(Fids(s))
    ensures Distinct(Fids(Unresolved(s, resolved)))
    decreases |s|
  {
    if s != [] {
      var front, last := s[..|s| - 1], s[|s| - 1];
      assert Fids(front) == Fids(s)[..|front|] && Fids(s)[|front|] == last.fid;
      UnresolvedDistinct(front, resolved);
      UnresolvedMembers(front, resolved);
      var u := Unresolved(front, resolved);
      forall i | 0 <= i < |u| ensures Fids(u)[i] != last.fid {
        assert u[i] in front;
        var k :| 0 <= k < |front| && front[k] == u[i];
        assert Fids(s)[k] == u[i].fid;
      }
      assert Fids(u + [last]) == Fids(u) + [last.fid];
    }
  }

  lemma {:induction false} UnresolvedSnoc(s: seq<Thunk>, t: Thunk, resolved: seq<int>)
    ensures Unresolved(s + [t], resolved) == if t.fid in resolved then Unresolved(s, resolved) else Unresolved(s, resolved) + [t]
  {
    assert (s + [t])[..|s|] == s;
  }

  lemma {:induction false} UnresolvedTwice(s: seq<Thunk>, a: seq<int>, b: seq<int>)
    ensures Unresolved(Unresolved(s, a), a + b) == Unresolved(s, a + b)
    decreases |s|
  {
    if s != [] {
      var front, last := s[..|s| - 1], s[|s| - 1];
      UnresolvedTwice(front, a, b);
      if last.fid !in a {
        UnresolvedSnoc(Unresolved(front, a), last, a + b);
      }
    }
  }

  // ---- the engine ----

  class AsyncEngine {
    var futures: Futures
    var hb: Graph
    var pending: seq<Thunk>
    var completionQueue: seq<int>
    var n: nat

    ghost predicate Valid()
      reads this
    {
      && Consistent(futures, pending)
      && (forall f | f in futures :: 0 <= f < n)
    }

    constructor ()
      ensures Valid() && futures == map[] && hb == map[] && pending == [] && completionQueue == [] && n == 0
    {
      futures, hb, pending, completionQueue, n := map[], map[], [], [], 0;
    }

    method AddHappensBefore(a: int, b: int)
      modifies this`hb
      ensures hb.Keys == old(hb.Keys) + {a, b}
      ensures forall x :: Successors(hb, x) == if x == a then old(Successors(hb, a)) + {b} else old(Successors(hb, x))
    {
      hb := hb[a := Successors(hb, a) + {b}];
      hb := hb[b := Successors(hb, b)];
    }

    /** A new future after those named; names of unknown futures are recorded but never waited for. */
    method Submit(fails: bool, after: seq<int>) returns (fid: int)
      requires Valid()
      modifies this
      ensures Valid() && fid == old(n) && fid !in old(futures)
      ensures futures == old(futures)[fid := Pending] && pending == old(pending) + [Thunk(fid, fails)]
      ensures forall x :: Successors(hb, x) == old(Successors(hb, x)) + (if x in after then {fid} else {})
      ensures completionQueue == old(completionQueue)
    {
      fid := n;
      n := n + 1;
      futures := futures[fid := Pending];
      hb := hb[fid := Successors(hb, fid)];
      for i := 0 to |after|
        invariant unchanged(`pending, `completionQueue) && futures == old(futures)[fid := Pending] && n == old(n) + 1
        invariant forall x :: Successors(hb, x) == old(Successors(hb, x)) + (if x in after[..i] then {fid} else {})
      {
        AddHappensBefore(after[i], fid);
      }
      assert after[..|after|] == after;
      pending := pending + [Thunk(fid, fails)];
      assert Fids(pending) == old(Fids(pending)) + [fid];
      SubmitConsistent(old(futures), old(pending), fid, fails);
    }

    /** One pass over what remains: every future found ready is resolved at once. */
    method Pass(ghost before: Futures, ghost first: seq<Thunk>, remaining: seq<Thunk>, ghost resolved: seq<int>)
      returns (still: seq<Thunk>, now: seq<int>)
      requires Progressed(hb, before, first, resolved, futures, remaining)
      modifies `futures, `completionQueue
      ensures Progressed(hb, before, first, resolved + now, futures, still)
      ensures completionQueue == old(completionQueue) + now
      ensures if now == [] then still == remaining && Stuck(hb, futures, still) else |still| < |remaining|
      ensures Forward(hb, Fids(remaining)) ==> still == [] && now == Fids(remaining)
    {
      hide Progressed, Ready, Forward, Fids;
      ghost var start := futures;
      still, now := [], [];
      assert resolved + now == resolved && still + remaining[0..] == remaining;
      for i := 0 to |remaining|
        invariant completionQueue == old(completionQueue) + now
        invariant Progressed(hb, before, first, resolved + now, futures, still + remaining[i..])
        invariant now == [] ==> still == remaining[..i] && futures == start && Stuck(hb, futures, remaining[..i])
        invariant |still| + (if now == [] then 0 else 1) <= i
        invariant Forward(hb, Fids(remaining)) ==> still == [] && now == Fids(remaining[..i])
      {
        var t := remaining[i];
        FidsSnoc(remaining, i);
        if Forward(hb, Fids(remaining)) { ForwardReady(hb, before, first, resolved + now, futures, still, remaining, i); }
        assert remaining[i..] == [t] + remaining[i + 1..];
        if !Ready(hb, futures, t.fid) {
          StuckSnoc(hb, futures, remaining[..i], t);
          assert remaining[..i + 1] == remaining[..i] + [t];
          assert still + remaining[i..] == (still + [t]) + remaining[i + 1..];
          still := still + [t];
        } else {
          ResolveStep(hb, before, first, resolved + now, futures, still, t, remaining[i + 1..]);
          assert (resolved + now) + [t.fid] == resolved + (now + [t.fid]);
          futures := futures[t.fid := if t.fails then Failed else Done];
          completionQueue := completionQueue + [t.fid];
          now := now + [t.fid];
        }
      }
      assert remaining[..|remaining|] == remaining && still + remaining[|remaining|..] == still;
    }

    /**
     * Resolves pending futures until no pass makes progress. The order of resolution extends happens-before, what
     * is left waits for something left, and nothing is left exactly when no cycle runs through pending futures.
     */
    method Drain() returns (resolved: seq<int>)
      requires Valid()
      modifies this
      ensures Valid() && hb == old(hb) && n == old(n) && futures.Keys == old(futures.Keys)
      ensures Distinct(resolved) && (forall f | f in resolved :: f in old(Fids(pending)))
      ensures pending == Unresolved(old(pending), resolved)
      ensures Outcomes(old(futures), old(pending), resolved, futures)
      ensures completionQueue == old(completionQueue) + resolved
      ensures Extends(hb, old(futures), resolved)
      ensures forall t | t in pending :: !Ready(hb, futures, t.fid)
      ensures pending == [] <==> forall c :: !PendingCycle(hb, old(pending), c)
      ensures Forward(hb, old(Fids(pending))) ==> resolved == old(Fids(pending))
    {
      hide Forward, Unresolved, Ready, Consistent, Extends, Outcomes, Distinct, Progressed, PendingCycle;
      ghost var before, first := futures, pending;
      StartDrain(hb, futures, pending);
      resolved := [];
      var remaining, progress := pending, true;
      pending := [];
      while |remaining| > 0 && progress
        invariant hb == old(hb) && n == old(n) && completionQueue == old(completionQueue) + resolved
        invariant Progressed(hb, before, first, resolved, futures, remaining)
        invariant !progress ==> Stuck(hb, futures, remaining)
        invariant Forward(hb, Fids(first)) ==>
          if resolved == [] then progress && remaining == first else resolved == Fids(first) && remaining == []
        decreases |remaining|, if progress then 1 else 0
      {
        var now: seq<int>;
        remaining, now := Pass(before, first, remaining, resolved);
        resolved := resolved + now;
        progress := now != [];
        assert now == [] ==> resolved + now == resolved;
      }
      pending := remaining;
      EndDrain(hb, before, first, resolved, futures, remaining);
    }

    /** Looks at every successor of a node in hand; new ones go on the stack. */
    method Explore(a: int, b: int, seen: set<int>, stack: seq<int>, node: int) returns (found: bool, seen': set<int>,
          stack': seq<int>)
      requires Search(hb, a, b, seen, stack, {node})
      ensures found ==> Reaches(hb, a, b)
      ensures !found ==> Search(hb, a, b, seen', stack', {})
      ensures seen <= seen' <= Nodes(hb) && (seen' == seen ==> |stack'| == |stack|)
    {
      hide Reaches, Settled, Successors, Search, Nodes;
      var next := Sorted(Successors(hb, node));
      found, seen', stack' := false, seen, stack;
      SeenNodes(hb, a, b, seen, stack, node);
      for i := 0 to |next|
        invariant seen <= seen' <= Nodes(hb)
        invariant seen' == seen ==> |stack'| == |stack|
        invariant Search(hb, a, b, seen', stack', {node})
        invariant forall k | 0 <= k < i :: next[k] != b && next[k] in seen'
      {
        var m := next[i];
        assert m in next && m in Successors(hb, node);
        StepReaches(hb, a, b, seen', stack', node, m);
        if m == b {
          return true, seen', stack';
        }
        if m !in seen' {
          PushKeeps(hb, a, b, seen', stack', node, m);
          seen' := seen' + {m};
          stack' := stack' + [m];
        }
      }
      NodeSettled(hb, a, b, seen', stack', node, next);
    }

    /** Whether a nonempty path of happens-before edges leads from a to b. */
    method HappensBefore(a: int, b: int) returns (found: bool)
      ensures found <==> Reaches(hb, a, b)
    {
      hide Reaches, Settled, Successors, Search, Nodes;
      var seen: set<int>, stack := {}, [a];
      SearchStarts(hb, a, b);
      while stack != []
        invariant Search(hb, a, b, seen, stack, {})
        decreases |Nodes(hb) - seen|, |stack|
      {
        var top := |stack| - 1;
        var node := stack[top];
        assert stack == stack[..top] + [node];
        stack := stack[..top];
        ghost var before := seen;
        PopKeeps(hb, a, b, seen, stack, node);
        found, seen, stack := Explore(a, b, seen, stack, node);
        if found {
          return true;
        }
        FewerLeft(Nodes(hb), before, seen);
      }
      ClosedHasNoPath(hb, a, b, seen);
      return false;
    }
  }

  lemma {:induction false} SeenNodes(g: Graph, a: int, b: int, seen: set<int>, stack: seq<int>, node: int)
    requires Search(g, a, b, seen, stack, {node})
    ensures seen <= Nodes(g)
  {
  }

  lemma {:induction false} FewerLeft(all: set<int>, before: set<int>, seen: set<int>)
    requires before <= seen <= all
    ensures |all - seen| <= |all - before| && (seen != before ==> |all - seen| < |all - before|)
  {
    if x :| x in seen && x !in before { assert x in all - before; }
    SmallerSet(all - seen, all - before);
  }

  lemma {:induction false} SmallerSet<T>(a: set<T>, b: set<T>)
    requires a <= b
    ensures |a| <= |b| && (a < b ==> |a| < |b|)
    decreases |a|
  {
    if a != {} {
      var x := Pick(a);
      SmallerSet(a - {x}, b - {x});
      assert x in b && b == (b - {x}) + {x} && a == (a - {x}) + {x};
      assert a < b ==> a - {x} < b - {x};
    }
  }

  ghost predicate Path(g: Graph, p: seq<int>, a: int, b: int) {
    && |p| >= 2 && p[0] == a && p[|p| - 1] == b
    && forall i | 0 <= i < |p| - 1 :: p[i + 1] in Successors(g, p[i])
  }

  ghost predicate Reaches(g: Graph, a: int, b: int) { exists p :: Path(g, p, a, b) }

  /** All successors of x have been seen, and none is the target. */
  ghost predicate Settled(g: Graph, b: int, seen: set<int>, x: int) {
    forall m | m in Successors(g, x) :: m != b && m in seen
  }

  /** Everything seen is reachable; everything met but not waiting nor in hand is settled. */
  ghost predicate Search(g: Graph, a: int, b: int, seen: set<int>, stack: seq<int>, inHand: set<int>) {
    && seen <= Nodes(g)
    && (forall m | m in seen :: Reaches(g, a, m))
    && (forall x | x in stack || x in inHand :: x == a || x in seen)
    && (forall x | (x == a || x in seen) && x !in stack && x !in inHand :: Settled(g, b, seen, x))
  }

  lemma {:induction false} SearchStarts(g: Graph, a: int, b: int)
    ensures Search(g, a, b, {}, [a], {})
  {
  }

  lemma {:induction false} PopKeeps(g: Graph, a: int, b: int, seen: set<int>, stack: seq<int>, node: int)
    requires Search(g, a, b, seen, stack + [node], {})
    ensures Search(g, a, b, seen, stack, {node}) && (node == a || node in seen)
  {
    hide Reaches, Settled;
    assert (stack + [node])[|stack|] == node;
    forall x | x in stack ensures x in stack + [node] { }
  }

  lemma {:induction false} StepReaches(g: Graph, a: int, b: int, seen: set<int>, stack: seq<int>, node: int, m: int)
    requires Search(g, a, b, seen, stack, {node}) && m in Successors(g, node)
    ensures Reaches(g, a, m) && m in Nodes(g)
  {
    if node == a {
      assert Path(g, [a, m], a, m);
    } else {
      var p :| Path(g, p, a, node);
      var q := p + [m];
      forall i | 0 <= i < |q| - 1 ensures q[i + 1] in Successors(g, q[i]) {
        if i == |p| - 1 { assert q[i] == node && q[i + 1] == m; }
      }
      assert Path(g, q, a, m);
    }
  }

  lemma {:induction false} PushKeeps(g: Graph, a: int, b: int, seen: set<int>, stack: seq<int>, node: int, m: int)
    requires Search(g, a, b, seen, stack, {node}) && Reaches(g, a, m) && m in Nodes(g)
    ensures Search(g, a, b, seen + {m}, stack + [m], {node})
  {
    hide Reaches;
    assert (stack + [m])[|stack|] == m;
    forall x | (x == a || x in seen + {m}) && x !in stack + [m] && x !in {node} ensures Settled(g, b, seen + {m}, x) {
      assert x !in stack && x != m;
      assert Settled(g, b, seen, x);
    }
  }

  lemma {:induction false} NodeSettled(g: Graph, a: int, b: int, seen: set<int>, stack: seq<int>, node: int,
        next: seq<int>)
    requires Search(g, a, b, seen, stack, {node})
    requires (forall m | m in Successors(g, node) :: m in next) && forall k | 0 <= k < |next| :: next[k] != b && next[k] in seen
    ensures Search(g, a, b, seen, stack, {})
  {
    hide Reaches;
    assert Settled(g, b, seen, node);
  }

  lemma {:induction false} ClosedHasNoPath(g: Graph, a: int, b: int, seen: set<int>)
    requires Search(g, a, b, seen, [], {})
    ensures !Reaches(g, a, b)
  {
    if p :| Path(g, p, a, b) { PathStaysSeen(g, a, b, seen, p, |p| - 1); }
  }

  lemma {:induction false} PathStaysSeen(g: Graph, a: int, b: int, seen: set<int>, p: seq<int>, i: nat)
    requires Search(g, a, b, seen, [], {}) && Path(g, p, a, b) && i < |p|
    ensures p[i] == a || p[i] in seen
    ensures i > 0 ==> p[i] != b
    decreases i
  {
    if i > 0 {
      PathStaysSeen(g, a, b, seen, p, i - 1);
      assert Settled(g, b, seen, p[i - 1]);
      assert p[i] in Successors(g, p[i - 1]);
    }
  }

  /** Resolved futures have the outcome of their thunk, all others are as they were. */
  ghost predicate Outcomes(before: Futures, first: seq<Thunk>, resolved: seq<int>, futures: Futures) {
    && futures.Keys == before.Keys
    && (forall f | f in before && f !in resolved :: futures[f] == before[f])
    && (forall t | t in first && t.fid in resolved && t.fid in futures :: futures[t.fid] == if t.fails then Failed else Done)
  }

  ghost predicate Progressed(hb: Graph, before: Futures, first: seq<Thunk>, resolved: seq<int>, futures: Futures,
        remaining: seq<Thunk>) {
    && Consistent(before, first)
    && Distinct(resolved) && (forall f | f in resolved :: f in Fids(first))
    && remaining == Unresolved(first, resolved)
    && Outcomes(before, first, resolved, futures)
    && Extends(hb, before, resolved)
  }

  ghost predicate Stuck(hb: Graph, futures: Futures,
        s: seq<Thunk>) { forall i | 0 <= i < |s| :: !Ready(hb, futures, s[i].fid) }

  lemma {:induction false} StuckSnoc(hb: Graph, futures: Futures, s: seq<Thunk>, t: Thunk)
    requires !Ready(hb, futures, t.fid)
    ensures Stuck(hb, futures, s) ==> Stuck(hb, futures, s + [t])
  {
    hide Ready;
  }

  lemma {:induction false} StartDrain(hb: Graph, futures: Futures, pending: seq<Thunk>)
    requires Consistent(futures, pending)
    ensures Progressed(hb, futures, pending, [], futures, pending)
  {
    UnresolvedNone(pending);
  }

  lemma {:induction false} UnresolvedNone(s: seq<Thunk>)
    ensures Unresolved(s, []) == s
    decreases |s|
  {
    if s != [] { UnresolvedNone(s[..|s| - 1]); }
  }

  lemma {:induction false} FidsSnoc(s: seq<Thunk>, i: nat)
    requires i < |s|
    ensures Fids(s[..i + 1]) == Fids(s[..i]) + [s[i].fid] && Fids(s[..|s|]) == Fids(s)
  {
    assert s[..|s|] == s;
  }

  /** When every edge points forward, the next future in line is ready. */
  lemma {:induction false} ForwardReady(hb: Graph, before: Futures, first: seq<Thunk>, resolved: seq<int>,
        futures: Futures, still: seq<Thunk>, remaining: seq<Thunk>, i: nat)
    requires i < |remaining| && still == [] && Progressed(hb, before, first, resolved, futures, still + remaining[i..])
    requires Forward(hb, Fids(remaining))
    ensures Ready(hb, futures, remaining[i].fid)
  {
    assert still + remaining[i..] == remaining[i..];
    LeftConsistent(before, first, resolved, futures);
    assert Consistent(futures, remaining[i..]);
    hide Progressed, Forward, Fids, Distinct, Unresolved, Outcomes, Extends;
    forall d | d in hb && remaining[i].fid in hb[d] && d in futures ensures futures[d] != Pending {
      if d in Fids(remaining[i..]) { NotAfter(hb, remaining, i, d); }
    }
  }

  lemma {:induction false} NotAfter(hb: Graph, remaining: seq<Thunk>, i: nat, d: int)
    requires i < |remaining| && Forward(hb, Fids(remaining)) && d in Fids(remaining[i..])
    ensures remaining[i].fid !in Successors(hb, d)
  {
    var k :| 0 <= k < |remaining| - i && Fids(remaining[i..])[k] == d;
    assert Fids(remaining)[i + k] == d && Fids(remaining)[i] == remaining[i].fid;
  }

  /** Resolving a ready future keeps everything the drain promises. */
  lemma {:induction false} ResolveStep(hb: Graph, before: Futures, first: seq<Thunk>, resolved: seq<int>,
        futures: Futures,
      still: seq<Thunk>, t: Thunk, rest: seq<Thunk>)
    requires Progressed(hb, before, first, resolved, futures, still + ([t] + rest)) && Ready(hb, futures, t.fid)
    ensures Progressed(hb, before, first, resolved + [t.fid], futures[t.fid := if t.fails then Failed else Done], still + rest)
  {
    var remaining := still + ([t] + rest);
    UnresolvedMembers(first, resolved);
    UnresolvedDistinct(first, resolved);
    assert remaining[|still|] == t && t in remaining;
    ResolveMiddle(still, t, rest, resolved);
    UnresolvedTwice(first, resolved, [t.fid]);
    ResolveOutcome(before, first, resolved, futures, t);
    ExtendsStep(hb, before, first, resolved, futures, t.fid);
    FidListed(first, t);
    assert Distinct(resolved + [t.fid]);
  }

  lemma {:induction false} FidListed(s: seq<Thunk>, t: Thunk)
    requires t in s
    ensures t.fid in Fids(s)
  {
    var k :| 0 <= k < |s| && s[k] == t;
    assert Fids(s)[k] == t.fid;
  }

  lemma {:induction false} KeepAll(s: seq<Thunk>, resolved: seq<int>)
    requires forall i | 0 <= i < |s| :: s[i].fid !in resolved
    ensures Unresolved(s, resolved) == s
    decreases |s|
  {
    if s != [] { KeepAll(s[..|s| - 1], resolved); }
  }

  lemma {:induction false} UnresolvedAppend(a: seq<Thunk>, b: seq<Thunk>, resolved: seq<int>)
    ensures Unresolved(a + b, resolved) == Unresolved(a, resolved) + Unresolved(b, resolved)
    decreases |b|
  {
    if b == [] {
      assert a + b == a;
    } else {
      var front, last := b[..|b| - 1], b[|b| - 1];
      assert a + b == (a + front) + [last] && b == front + [last];
      UnresolvedAppend(a, front, resolved);
      UnresolvedSnoc(a + front, last, resolved);
      UnresolvedSnoc(front, last, resolved);
    }
  }

  lemma {:induction false} ResolveMiddle(still: seq<Thunk>, t: Thunk, rest: seq<Thunk>, resolved: seq<int>)
    requires Distinct(Fids(still + ([t] + rest)))
    requires forall x | x in still + ([t] + rest) :: x.fid !in resolved
    ensures Unresolved(still + ([t] + rest), resolved + [t.fid]) == still + rest
  {
    hide Unresolved;
    var all, done := still + ([t] + rest), resolved + [t.fid];
    var f := Fids(all);
    assert f[|still|] == t.fid;
    forall i | 0 <= i < |still| ensures still[i].fid !in done { assert all[i] == still[i] && all[i] in all && f[i] == still[i].fid; }
    forall i | 0 <= i < |rest| ensures rest[i].fid !in done {
      var k := |still| + 1 + i;
      assert all[k] == rest[i] && all[k] in all && f[k] == rest[i].fid;
    }
    KeepAll(still, done);
    KeepAll(rest, done);
    UnresolvedAppend(still, [t] + rest, done);
    UnresolvedAppend([t], rest, done);
    UnresolvedSnoc([], t, done);
    assert [] + [t] == [t] && Unresolved([], done) == [] by { KeepAll([], done); }
  }

  lemma {:induction false} ResolveOutcome(before: Futures, first: seq<Thunk>, resolved: seq<int>, futures: Futures,
        t: Thunk)
    requires Consistent(before, first) && Outcomes(before, first, resolved, futures) && t in first
    ensures Outcomes(before, first, resolved + [t.fid], futures[t.fid := if t.fails then Failed else Done])
  {
    var k :| 0 <= k < |first| && first[k] == t;
    forall u | u in first && u.fid == t.fid ensures u == t {
      var j :| 0 <= j < |first| && first[j] == u;
      assert Fids(first)[j] == Fids(first)[k];
    }
  }

  lemma {:induction false} ExtendsStep(hb: Graph, before: Futures, first: seq<Thunk>, resolved: seq<int>,
        futures: Futures, fid: int)
    requires Extends(hb, before, resolved) && Outcomes(before, first, resolved, futures) && Ready(hb, futures, fid)
    ensures Extends(hb, before, resolved + [fid])
  {
    var order := resolved + [fid];
    forall i, d | 0 <= i < |order| && d in hb && order[i] in hb[d] && d in before
      ensures before[d] != Pending || d in order[..i]
    {
      if i < |resolved| {
        assert order[..i] == resolved[..i];
      } else {
        assert order[..i] == resolved;
      }
    }
  }

  lemma {:induction false} SubmitConsistent(futures: Futures, pending: seq<Thunk>, fid: int, fails: bool)
    requires Consistent(futures, pending) && fid !in futures
    ensures Consistent(futures[fid := Pending], pending + [Thunk(fid, fails)])
  {
    var next := pending + [Thunk(fid, fails)];
    assert Fids(next) == Fids(pending) + [fid];
    forall i | 0 <= i < |pending| ensures Fids(pending)[i] != fid { assert pending[i] in pending; }
    forall f | f in futures[fid := Pending] && futures[fid := Pending][f] == Pending ensures f in Fids(next) {
      if f == fid { assert Fids(next)[|pending|] == fid; }
    }
  }

  // ---- what is left ----

  lemma {:induction false} LeftConsistent(before: Futures, first: seq<Thunk>, resolved: seq<int>, futures: Futures)
    requires Consistent(before, first) && Outcomes(before, first, resolved, futures)
    requires forall f | f in resolved :: f in Fids(first)
    ensures Consistent(futures, Unresolved(first, resolved))
  {
    var left := Unresolved(first, resolved);
    UnresolvedMembers(first, resolved);
    UnresolvedDistinct(first, resolved);
    forall f | f in futures && futures[f] == Pending ensures f in Fids(left) {
      assert f in Fids(first);
      var k :| 0 <= k < |first| && Fids(first)[k] == f;
      assert first[k] in first;
      FidListed(left, first[k]);
    }
  }

  /** One step back from a stuck future to another one. */
  lemma {:induction false} Blocker(hb: Graph, futures: Futures, left: seq<Thunk>, f: int) returns (d: int)
    requires Consistent(futures, left) && Stuck(hb, futures, left) && f in Fids(left)
    ensures d in Fids(left) && f in Successors(hb, d)
  {
    var k :| 0 <= k < |left| && Fids(left)[k] == f;
    d :| d in hb && f in hb[d] && d in futures && futures[d] == Pending;
  }

  /** A walk of stuck futures, listed backwards. */
  ghost predicate Backwards(hb: Graph, left: seq<Thunk>, walk: seq<int>) {
    && (forall i | 0 <= i < |walk| :: walk[i] in Fids(left))
    && (forall i | 0 <= i < |walk| - 1 :: walk[i] in Successors(hb, walk[i + 1]))
  }

  lemma {:induction false} WalkBack(hb: Graph, futures: Futures, left: seq<Thunk>, length: nat) returns (walk: seq<int>)
    requires Consistent(futures, left) && Stuck(hb, futures, left) && left != []
    ensures Backwards(hb, left, walk) && |walk| == length + 1
    decreases length
  {
    if length == 0 {
      walk := [Fids(left)[0]];
    } else {
      hide Consistent, Stuck, Successors, Fids;
      walk := WalkBack(hb, futures, left, length - 1);
      var d := Blocker(hb, futures, left, walk[length - 1]);
      walk := walk + [d];
    }
  }

  /** Futures that all wait for one another contain a cycle. */
  lemma {:induction false} StuckHasCycle(hb: Graph, futures: Futures, left: seq<Thunk>) returns (c: seq<int>)
    requires Consistent(futures, left) && Stuck(hb, futures, left) && left != []
    ensures PendingCycle(hb, left, c)
  {
    hide Consistent, Stuck;
    var pool := set f | f in Fids(left);
    var walk := WalkBack(hb, futures, left, |pool|);
    var i, j := Pigeonhole(walk, pool);
    c := BackwardsCycle(hb, left, walk, i, j);
  }

  lemma {:induction false} BackwardsCycle(hb: Graph, left: seq<Thunk>, walk: seq<int>, i: nat,
        j: nat) returns (c: seq<int>)
    requires Backwards(hb, left, walk) && i < j < |walk| && walk[i] == walk[j]
    ensures PendingCycle(hb, left, c)
  {
    hide Successors;
    c := seq(j - i, k requires 0 <= k < j - i => walk[j - k]);
    forall k | 0 <= k < |c| - 1 ensures c[k + 1] in Successors(hb, c[k]) {
      assert walk[j - k - 1] in Successors(hb, walk[(j - k - 1) + 1]);
    }
    assert walk[i] in Successors(hb, walk[i + 1]);
  }

  /** No future on a cycle of pending futures is ever resolved. */
  lemma {:induction false} CycleStays(hb: Graph, before: Futures, first: seq<Thunk>, resolved: seq<int>, c: seq<int>,
        i: nat)
    requires Consistent(before, first) && Extends(hb, before, resolved) && PendingCycle(hb, first, c) && i < |resolved|
    ensures resolved[i] !in c
    decreases i
  {
    if resolved[i] in c {
      var m :| 0 <= m < |c| && c[m] == resolved[i];
      var d := if m > 0 then c[m - 1] else c[|c| - 1];
      assert c[m] in Successors(hb, d);
      assert d in Fids(first) && before[d] == Pending by {
        var k :| 0 <= k < |first| && Fids(first)[k] == d;
        assert first[k] in first;
      }
      var h :| 0 <= h < |resolved[..i]| && resolved[..i][h] == d;
      CycleStays(hb, before, first, resolved, c, h);
      assert false;
    }
  }

  lemma {:induction false} EndDrain(hb: Graph, before: Futures, first: seq<Thunk>, resolved: seq<int>,
        futures: Futures, left: seq<Thunk>)
    requires Progressed(hb, before, first, resolved, futures, left) && (left == [] || Stuck(hb, futures, left))
    ensures Consistent(futures, left) && Distinct(resolved) && (forall f | f in resolved :: f in Fids(first))
    ensures left == Unresolved(first, resolved) && Outcomes(before, first, resolved, futures) && Extends(hb, before, resolved)
    ensures futures.Keys == before.Keys && forall t | t in left :: !Ready(hb, futures, t.fid)
    ensures left == [] <==> forall c :: !PendingCycle(hb, first, c)
  {
    assert futures.Keys == before.Keys;
    hide Ready, Outcomes, Extends, Unresolved, Cycle, Distinct;
    LeftConsistent(before, first, resolved, futures);
    UnresolvedMembers(first, resolved);
    if left != [] {
      var c := StuckHasCycle(hb, futures, left);
      LeftFids(first, left);
      assert PendingCycle(hb, first, c);
    } else {
      forall c ensures !PendingCycle(hb, first, c) {
        if PendingCycle(hb, first, c) { CycleLeaves(hb, before, first, resolved, c); }
      }
    }
  }

  /** The first future of a cycle is left. */
  lemma {:induction false} CycleLeaves(hb: Graph, before: Futures, first: seq<Thunk>, resolved: seq<int>, c: seq<int>)
    requires Consistent(before, first) && Extends(hb, before, resolved) && PendingCycle(hb, first, c)
    ensures exists t :: t in first && t.fid !in resolved
  {
    CycleNotEmpty(hb, c);
    hide Cycle, Extends;
    assert c[0] in Fids(first);
    var k :| 0 <= k < |first| && Fids(first)[k] == c[0];
    assert first[k] in first && first[k].fid == c[0];
    if c[0] in resolved {
      var i :| 0 <= i < |resolved| && resolved[i] == c[0];
      CycleStays(hb, before, first, resolved, c, i);
    }
  }

  lemma {:induction false} CycleNotEmpty(hb: Graph, c: seq<int>)
    requires Cycle(hb, c)
    ensures |c| > 0
  {
  }

  lemma {:induction false} LeftFids(first: seq<Thunk>, left: seq<Thunk>)
    requires forall t | t in left :: t in first
    ensures forall f | f in Fids(left) :: f in Fids(first)
  {
    forall f | f in Fids(left) ensures f in Fids(first) {
      var k :| 0 <= k < |left| && Fids(left)[k] == f;
      FidListed(first, left[k]);
    }
  }
}
