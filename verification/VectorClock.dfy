/** Vector clocks and the causality they characterise.
    A clock is a dictionary from node names to counters; an absent entry reads as zero. */
module VectorClocks {
  import opened Basics

  type Node = string
  type Clock = map<Node, nat>

  function At(c: Clock, k: Node): nat { if k in c then c[k] else 0 }

  function Ticked(c: Clock, n: Node): Clock { c[n := At(c, n) + 1] }

  function Merged(a: Clock, b: Clock): Clock { map k | k in a.Keys + b.Keys :: Max(At(a, k), At(b, k)) }

  predicate LessEq(a: Clock, b: Clock) { forall k | k in a.Keys + b.Keys :: At(a, k) <= At(b, k) }

  predicate HappensBefore(a: Clock, b: Clock) {
    LessEq(a, b) && exists k | k in a.Keys + b.Keys :: At(a, k) < At(b, k)
  }

  predicate Concurrent(a: Clock, b: Clock) { !(HappensBefore(a, b) || HappensBefore(b, a) || a == b) }

  function Part(c: Clock, ks: set<Node>): Clock { map k | k in ks && k in c :: c[k] }

  lemma {:induction false} MergeEnds(mine: Clock, theirs: Clock)
    ensures Merged(mine, Part(theirs, {})) == mine
    ensures Part(theirs, theirs.Keys) == theirs
  {}

  lemma {:induction false} MergeEntry(mine: Clock, theirs: Clock, done: set<Node>, k: Node)
    requires k in theirs && k !in done
    ensures var m := Merged(mine, Part(theirs, done));
      Merged(mine, Part(theirs, done + {k})) == m[k := Max(At(m, k), theirs[k])]
  {}

  /** The mutable clock a node carries. */
  class VectorClock {
    const node: Node
    var clock: Clock

    constructor (node: Node, clock: Clock)
      ensures this.node == node
      ensures this.clock == if node in clock then clock else clock[node := 0]
    {
      this.node := node;
      this.clock := if node in clock then clock else clock[node := 0];
    }

    method Tick()
      modifies this
      ensures clock == Ticked(old(clock), node)
    {
      clock := clock[node := (if node in clock then clock[node] else 0) + 1];
    }

    method Merge(other: VectorClock)
      modifies this
      ensures clock == Merged(old(clock), old(other.clock))
    {
      hide Merged, Part;
      var theirs := other.clock;
      var todo := theirs.Keys;
      MergeEnds(clock, theirs);
      assert theirs.Keys - todo == {};
      while todo != {}
        invariant todo <= theirs.Keys
        invariant clock == Merged(old(clock), Part(theirs, theirs.Keys - todo))
        decreases |todo|
      {
        var k :| k in todo;
        MergeEntry(old(clock), theirs, theirs.Keys - todo, k);
        clock := clock[k := Max(if k in clock then clock[k] else 0, theirs[k])];
        assert theirs.Keys - (todo - {k}) == theirs.Keys - todo + {k};
        todo := todo - {k};
      }
      assert theirs.Keys - todo == theirs.Keys;
    }

    method Receive(other: VectorClock)
      modifies this
      ensures clock == Ticked(Merged(old(clock), old(other.clock)), node)
    {
      Merge(other);
      Tick();
    }

    method Copy() returns (c: VectorClock)
      requires node in clock
      ensures fresh(c) && c.node == node && c.clock == clock
    {
      c := new VectorClock(node, clock);
    }
  }

  // ---- distributed runs ----

  /** One event of a run. `from` is the position of the send event whose clock copy is delivered. */
  datatype Action = Local(node: Node) | Send(node: Node) | Receive(node: Node, from: nat)

  ghost predicate ValidRun(run: seq<Action>) {
    forall i | 0 <= i < |run| && run[i].Receive? :: run[i].from < i && run[run[i].from].Send?
  }

  /** The clock held by node `p` after the first `i` events. */
  ghost function Held(run: seq<Action>, i: nat, p: Node): Clock
    requires ValidRun(run) && i <= |run|
    decreases i, 0
  {
    if i == 0 then map[p := 0]
    else if run[i - 1].node == p then Stamp(run, i - 1)
    else Held(run, i - 1, p)
  }

  /** The clock the node holds right after event `i`; for a send this is the copy that travels. */
  ghost function Stamp(run: seq<Action>, i: nat): Clock
    requires ValidRun(run) && i < |run|
    decreases i, 1
  {
    var p := run[i].node;
    if run[i].Receive? then Ticked(Merged(Held(run, i, p), Stamp(run, run[i].from)), p)
    else Ticked(Held(run, i, p), p)
  }

  // ---- causality, defined without clocks ----

  /** `e` immediately influences `f`: earlier on the same node, or the message `f` receives. */
  ghost predicate Edge(run: seq<Action>, e: nat, f: nat)
    requires f < |run|
  {
    e < f && (run[e].node == run[f].node || (run[f].Receive? && run[f].from == e))
  }

  /** Causal precedence: the transitive closure of Edge. */
  ghost predicate Precedes(run: seq<Action>, e: nat, f: nat)
    requires f < |run|
    decreases f
  {
    exists g: nat | g < f :: Edge(run, g, f) && (g == e || Precedes(run, e, g))
  }

  lemma {:induction false} PrecedesIsEarlier(run: seq<Action>, e: nat, f: nat)
    requires f < |run| && Precedes(run, e, f)
    ensures e < f
    decreases f
  {
    var g: nat :| g < f && Edge(run, g, f) && (g == e || Precedes(run, e, g));
    if g != e { PrecedesIsEarlier(run, e, g); }
  }

  lemma {:induction false} PrecedesTransitive(run: seq<Action>, e: nat, f: nat, h: nat)
    requires f < h < |run| && Precedes(run, e, f) && Precedes(run, f, h)
    ensures Precedes(run, e, h)
    decreases h
  {
    var g: nat :| g < h && Edge(run, g, h) && (g == f || Precedes(run, f, g));
    if g != f {
      PrecedesIsEarlier(run, f, g);
      PrecedesTransitive(run, e, f, g);
    }
  }

  // ---- counters bound knowledge ----

  ghost function Count(run: seq<Action>, i: nat, p: Node): nat
    requires i <= |run|
  {
    if i == 0 then 0 else Count(run, i - 1, p) + if run[i - 1].node == p then 1 else 0
  }

  lemma {:induction false} CountMonotone(run: seq<Action>, i: nat, j: nat, p: Node)
    requires i <= j <= |run|
    ensures Count(run, i, p) <= Count(run, j, p)
    decreases j
  {
    if i < j { CountMonotone(run, i, j - 1, p); }
  }

  /** The position of an event among the events of its own node, counting from one. */
  ghost function Index(run: seq<Action>, e: nat): nat
    requires e < |run|
  {
    Count(run, e + 1, run[e].node)
  }

  /** No clock anywhere is ahead of a node's own event count, and a node knows its own count. */
  lemma {:induction false} HeldBound(run: seq<Action>, i: nat, p: Node, q: Node)
    requires ValidRun(run) && i <= |run|
    ensures At(Held(run, i, p), q) <= Count(run, i, q)
    ensures At(Held(run, i, p), p) == Count(run, i, p)
    decreases i, 0
  {
    if i == 0 {
    } else if run[i - 1].node == p {
      StampBound(run, i - 1, p);
      StampBound(run, i - 1, q);
    } else {
      HeldBound(run, i - 1, p, q);
    }
  }

  lemma {:induction false} StampBound(run: seq<Action>, i: nat, q: Node)
    requires ValidRun(run) && i < |run|
    ensures At(Stamp(run, i), q) <= Count(run, i + 1, q)
    ensures q == run[i].node ==> At(Stamp(run, i), q) == Count(run, i + 1, q)
    decreases i, 1
  {
    HeldBound(run, i, run[i].node, q);
    if run[i].Receive? {
      StampBound(run, run[i].from, q);
      CountMonotone(run, run[i].from + 1, i, q);
    }
  }

  // ---- what a clock entry means ----

  /** Event `e` lies in the causal past of what node `p` has seen after `i` events. */
  ghost predicate Seen(run: seq<Action>, e: nat, i: nat, p: Node)
    requires i <= |run|
  {
    exists f: nat | f < i :: run[f].node == p && (f == e || Precedes(run, e, f))
  }

  lemma {:induction false} HeldMeaning(run: seq<Action>, i: nat, p: Node, e: nat)
    requires ValidRun(run) && i <= |run| && e < |run|
    ensures Index(run, e) <= At(Held(run, i, p), run[e].node) <==> Seen(run, e, i, p)
    decreases i, 0
  {
    if i == 0 {
      CountMonotone(run, 0, e, run[e].node);
    } else if run[i - 1].node == p {
      StampMeaning(run, i - 1, e);
      if Seen(run, e, i, p) {
        var f: nat :| f < i && run[f].node == p && (f == e || Precedes(run, e, f));
        assert f == i - 1 || Edge(run, f, i - 1);
      }
    } else {
      HeldMeaning(run, i - 1, p, e);
      if Seen(run, e, i, p) {
        var f: nat :| f < i && run[f].node == p && (f == e || Precedes(run, e, f));
        assert f < i - 1;
      }
    }
  }

  /** The counter of `e`'s node in the clock of `f` has reached `e` exactly when `e` is `f` or precedes it. */
  lemma {:induction false} StampMeaning(run: seq<Action>, f: nat, e: nat)
    requires ValidRun(run) && f < |run| && e < |run|
    ensures Index(run, e) <= At(Stamp(run, f), run[e].node) <==> e == f || Precedes(run, e, f)
    decreases f, 1
  {
    var p, q := run[f].node, run[e].node;
    StampBound(run, f, q);
    if Precedes(run, e, f) { PrecedesIsEarlier(run, e, f); }
    if p == q {
      if e < f {
        CountMonotone(run, e + 1, f + 1, q);
        assert Edge(run, e, f);
      } else if f < e {
        CountMonotone(run, f + 1, e, q);
      }
    } else {
      HeldMeaning(run, f, p, e);
      if run[f].Receive? { StampMeaning(run, run[f].from, e); }
      if Seen(run, e, f, p) {
        var g: nat :| g < f && run[g].node == p && (g == e || Precedes(run, e, g));
        assert Edge(run, g, f);
      }
      if run[f].Receive? && (e == run[f].from || Precedes(run, e, run[f].from)) {
        assert Edge(run, run[f].from, f);
      }
      if Precedes(run, e, f) {
        var g: nat :| g < f && Edge(run, g, f) && (g == e || Precedes(run, e, g));
        assert run[g].node == p ==> Seen(run, e, f, p);
      }
    }
  }

  // ---- clocks grow along causality ----

  ghost predicate Below(a: Clock, b: Clock) { forall k :: At(a, k) <= At(b, k) }

  lemma {:induction false} HeldMonotone(run: seq<Action>, i: nat, j: nat, p: Node)
    requires ValidRun(run) && i <= j <= |run|
    ensures Below(Held(run, i, p), Held(run, j, p))
    decreases j
  {
    if i < j { HeldMonotone(run, i, j - 1, p); }
  }

  lemma {:induction false} BelowTransitive(a: Clock, b: Clock, c: Clock)
    requires Below(a, b) && Below(b, c)
    ensures Below(a, c)
  {}

  lemma {:induction false} EdgeGrows(run: seq<Action>, g: nat, f: nat)
    requires ValidRun(run) && f < |run| && Edge(run, g, f)
    ensures Below(Stamp(run, g), Stamp(run, f))
  {
    if run[g].node == run[f].node {
      HeldMonotone(run, g + 1, f, run[f].node);
      assert Held(run, g + 1, run[f].node) == Stamp(run, g);
    }
  }

  lemma {:induction false} PrecedesGrows(run: seq<Action>, e: nat, f: nat)
    requires ValidRun(run) && e < f < |run| && Precedes(run, e, f)
    ensures Below(Stamp(run, e), Stamp(run, f))
    decreases f
  {
    var g: nat :| g < f && Edge(run, g, f) && (g == e || Precedes(run, e, g));
    EdgeGrows(run, g, f);
    if g != e {
      PrecedesIsEarlier(run, e, g);
      PrecedesGrows(run, e, g);
      BelowTransitive(Stamp(run, e), Stamp(run, g), Stamp(run, f));
    }
  }

  // ---- main results ----

  /** In every run, clock order is exactly causal order. */
  lemma {:induction false} ClocksCharacteriseCausality(run: seq<Action>, e: nat, f: nat)
    requires ValidRun(run) && e < |run| && f < |run|
    ensures Precedes(run, e, f) <==> HappensBefore(Stamp(run, e), Stamp(run, f))
  {
    var a, b := Stamp(run, e), Stamp(run, f);
    StampMeaning(run, f, e);
    StampMeaning(run, e, f);
    StampBound(run, e, run[e].node);
    StampBound(run, f, run[f].node);
    if Precedes(run, e, f) {
      PrecedesIsEarlier(run, e, f);
      PrecedesGrows(run, e, f);
      if Precedes(run, f, e) { PrecedesIsEarlier(run, f, e); }
      assert At(a, run[f].node) < At(b, run[f].node);
      assert run[f].node in b.Keys;
    }
    if HappensBefore(a, b) {
      assert At(a, run[e].node) <= At(b, run[e].node) by { assert run[e].node in a.Keys; }
    }
  }

  /** `concurrent` holds exactly for two different events neither of which precedes the other. */
  lemma {:induction false} ConcurrentIsUnrelated(run: seq<Action>, e: nat, f: nat)
    requires ValidRun(run) && e < |run| && f < |run|
    ensures Concurrent(Stamp(run, e), Stamp(run, f))
       <==> e != f && !Precedes(run, e, f) && !Precedes(run, f, e)
  {
    ClocksCharacteriseCausality(run, e, f);
    ClocksCharacteriseCausality(run, f, e);
    if Stamp(run, e) == Stamp(run, f) {
      StampMeaning(run, f, e);
      StampBound(run, e, run[e].node);
      assert e == f || Precedes(run, e, f);
    }
  }
}
