/** The linear and ring schedules. */
module RingCollectives {
  import opened Basics
  import opened Folds

  // ---- positions on the ring ----

  /** The rank k hops before r. */
  function Back(r: nat, k: nat, n: nat): (b: nat)
    requires r < n && k < n
    ensures b < n && (b + k) % n == r
  {
    ModRange(if r >= k then r else r + n, n);
    if r >= k then r - k else r - k + n
  }

  /** The rank k hops after r. */
  function Ahead(r: nat, k: nat, n: nat): (a: nat)
    requires r < n && k < n
    ensures a < n && a == (if r + k < n then r + k else r + k - n)
  {
    ModRange(r + k, n);
    (r + k) % n
  }

  /** The first m values rank r meets, its own first and then its predecessors' going backwards. */
  function RingOrder<V>(values: seq<V>, r: nat, m: nat): (o: seq<V>)
    requires r < |values| && m <= |values|
    ensures |o| == m
  {
    seq(m, k requires 0 <= k < m => values[Back(r, k, |values|)])
  }

  lemma {:induction false} ReversedKeepsElements<V>(s: seq<V>)
    ensures multiset(Reversed(s)) == multiset(s)
    decreases |s|
  {
    if s != [] {
      var n := |s| - 1;
      ReversedKeepsElements(s[..n]);
      assert Reversed(s) == [s[n]] + Reversed(s[..n]);
      assert s == s[..n] + [s[n]];
    }
  }

  lemma {:induction false} RingOrderKeepsElements<V>(values: seq<V>, r: nat)
    requires r < |values|
    ensures multiset(RingOrder(values, r, |values|)) == multiset(values)
  {
    var a, b := values[..r + 1], values[r + 1..];
    assert RingOrder(values, r, |values|) == Reversed(a) + Reversed(b);
    ReversedKeepsElements(a);
    ReversedKeepsElements(b);
    assert values == a + b;
  }

  // ---- transfers round the ring ----

  /** In this step the rank sends to its successor. */
  ghost predicate Sends(ts: seq<Transfer>, step: nat, r: nat, n: nat)
    requires r < n
  {
    Transfer(step, r, Ahead(r, 1 % n, n)) in ts
  }

  /** Every step every rank sends to its successor, and nothing else is sent. */
  ghost predicate AllRound(ts: seq<Transfer>, steps: nat, n: nat) {
    && |ts| == steps * n
    && (forall t | t in ts :: t.step < steps && t.src < n && t.dst == Ahead(t.src, 1 % n, n))
    && forall step, r | 0 <= step < steps && 0 <= r < n :: Sends(ts, step, r, n)
  }

  lemma {:induction false} NoRounds(n: nat)
    ensures AllRound([], 0, n)
  {}

  lemma {:induction false} AllRoundStep(ts: seq<Transfer>, round: seq<Transfer>, steps: nat, n: nat)
    requires n >= 1 && AllRound(ts, steps, n) && |round| == n
    requires forall i | 0 <= i < n :: round[i] == Transfer(steps, i, Ahead(i, 1 % n, n))
    ensures AllRound(ts + round, steps + 1, n)
  {
    assert (steps + 1) * n == steps * n + n;
    forall step, r | 0 <= step < steps + 1 && 0 <= r < n ensures Sends(ts + round, step, r, n) {
      if step < steps {
        assert Sends(ts, step, r, n);
      } else {
        assert round[r] in round;
      }
    }
  }

  /** One value goes from `start` round the ring, hop by hop, past every other rank. */
  ghost predicate Path(ts: seq<Transfer>, start: nat, n: nat) {
    && start < n && |ts| == n - 1
    && forall i | 0 <= i < n - 1 :: ts[i] == Transfer(i, Ahead(start, i, n), Ahead(start, i + 1, n))
  }

  // ---- ring allreduce ----

  ghost predicate RingFolds<V>(op: (V, V) -> V, acc: seq<V>, carry: seq<V>, values: seq<V>, k: nat) {
    && k < |values| == |acc| == |carry|
    && (forall r | 0 <= r < |values| :: carry[r] == values[Back(r, k, |values|)])
    && (forall r | 0 <= r < |values| :: acc[r] == Fold(op, RingOrder(values, r, k + 1)))
  }

  lemma {:induction false} RingFoldsStart<V>(op: (V, V) -> V, values: seq<V>)
    requires values != []
    ensures RingFolds(op, values, values, values, 0)
  {
  }

  lemma {:induction false} RingFoldsStep<V>(op: (V, V) -> V, acc: seq<V>, carry: seq<V>, acc': seq<V>, carry': seq<V>,
        values: seq<V>, k: nat)
    requires RingFolds(op, acc, carry, values, k) && k + 1 < |values| == |acc'| == |carry'|
    requires forall r | 0 <= r < |values| :: carry'[r] == carry[Back(r, 1, |values|)]
    requires forall r | 0 <= r < |values| :: acc'[r] == op(acc[r], carry'[r])
    ensures RingFolds(op, acc', carry', values, k + 1)
  {
    var n := |values|;
    hide Fold;
    forall r | 0 <= r < n
      ensures carry'[r] == values[Back(r, k + 1, n)] && acc'[r] == Fold(op, RingOrder(values, r, k + 2))
    {
      assert Back(Back(r, 1, n), k, n) == Back(r, k + 1, n);
      FoldSnoc(op, RingOrder(values, r, k + 1), carry'[r]);
      assert RingOrder(values, r, k + 2) == RingOrder(values, r, k + 1) + [carry'[r]];
    }
  }

  method RingStep<V>(carry: seq<V>, step: nat) returns (next: seq<V>, ts: seq<Transfer>)
    requires carry != []
    ensures |next| == |carry| && forall r | 0 <= r < |carry| :: next[r] == carry[Back(r, 1 % |carry|, |carry|)]
    ensures |ts| == |carry| && forall i | 0 <= i < |ts| :: ts[i] == Transfer(step, i, Ahead(i, 1 % |carry|, |carry|))
  {
    var n := |carry|;
    next, ts := carry, [];
    ModRange(1, n);
    for r := 0 to n
      invariant |next| == n
      invariant forall d | 1 <= d <= r && d < n :: next[d] == carry[d - 1]
      invariant r == n ==> next[0] == carry[n - 1]
      invariant |ts| == r && forall i | 0 <= i < r :: ts[i] == Transfer(step, i, Ahead(i, 1 % n, n))
    {
      ModRange(r + 1, n);
      var dst := (r + 1) % n;
      ts := ts + [Transfer(step, r, dst)];
      next := next[dst := carry[r]];
    }
  }

  /** The ring allreduce: rank r ends with the fold in the order the values pass it. */
  method RingAllReduce<V>(op: (V, V) -> V, values: seq<V>) returns (out: seq<V>, ts: seq<Transfer>)
    requires values != []
    ensures |out| == |values|
    ensures forall r | 0 <= r < |out| :: out[r] == Fold(op, RingOrder(values, r, |values|))
    ensures AllRound(ts, |values| - 1, |values|)
  {
    hide RingFolds, Fold, AllRound, Ahead;
    var n := |values|;
    var acc := new V[n](i requires 0 <= i < n => values[i]);
    assert acc[..] == values;
    var carry := values;
    ts := [];
    RingFoldsStart(op, values);
    NoRounds(n);
    for step := 0 to n - 1
      invariant RingFolds(op, acc[..], carry, values, step) && |carry| == n
      invariant AllRound(ts, step, n)
    {
      ModRange(1, n);
      ghost var was := acc[..];
      var next, round := RingStep(carry, step);
      for r := 0 to n
        invariant forall k | 0 <= k < r :: acc[k] == op(was[k], next[k])
        invariant forall k | r <= k < n :: acc[k] == was[k]
      {
        acc[r] := op(acc[r], next[r]);
      }
      RingFoldsStep(op, was, carry, acc[..], next, values, step);
      AllRoundStep(ts, round, step, n);
      carry, ts := next, ts + round;
    }
    out := acc[..];
    RingFoldsEnd(op, out, carry, values);
  }

  lemma {:induction false} RingFoldsEnd<V>(op: (V, V) -> V, acc: seq<V>, carry: seq<V>, values: seq<V>)
    requires values != [] && RingFolds(op, acc, carry, values, |values| - 1)
    ensures forall r | 0 <= r < |values| :: acc[r] == Fold(op, RingOrder(values, r, |values|))
  {
  }

  ghost predicate RingRight<V(!new)>(op: (V, V) -> V, values: seq<V>) {
    forall r | 0 <= r < |values| :: Fold(op, RingOrder(values, r, |values|)) == Fold(op, values)
  }

  /** The ring allreduce is right for every list on every rank exactly when the operator is associative and commutative. */
  lemma {:induction false} RingRightIff<V(!new)>(op: (V, V) -> V)
    ensures (forall values: seq<V> | values != [] :: RingRight(op, values)) <==> Associative(op) && Commutative(op)
  {
    if Associative(op) && Commutative(op) {
      forall values: seq<V> | values != [] ensures RingRight(op, values) {
        forall r | 0 <= r < |values| ensures Fold(op, RingOrder(values, r, |values|)) == Fold(op, values) {
          RingOrderKeepsElements(values, r);
          FoldReordered(op, values, RingOrder(values, r, |values|));
        }
      }
    }
    if forall values: seq<V> | values != [] :: RingRight(op, values) {
      forall a, b ensures op(a, b) == op(b, a) { TwoOnARing(op, a, b); }
      assert Commutative(op);
      forall a, b, c ensures op(op(a, b), c) == op(a, op(b, c)) {
        ThreeOnARing(op, b, a, c);
        assert op(op(b, a), c) == op(op(b, c), a);
      }
    }
  }

  lemma {:induction false} TwoOnARing<V(!new)>(op: (V, V) -> V, a: V, b: V)
    requires RingRight(op, [a, b])
    ensures op(a, b) == op(b, a)
  {
    var v := [a, b];
    assert RingOrder(v, 1, 2) == [b, a];
    FoldSnoc(op, [a], b);
    FoldSnoc(op, [b], a);
    assert [a] + [b] == v && [b] + [a] == [b, a];
  }

  lemma {:induction false} ThreeOnARing<V(!new)>(op: (V, V) -> V, a: V, b: V, c: V)
    requires RingRight(op, [a, b, c])
    ensures op(op(a, b), c) == op(op(a, c), b)
  {
    var v := [a, b, c];
    assert RingOrder(v, 0, 3) == [a, c, b];
    FoldOfThree(op, a, b, c);
    FoldOfThree(op, a, c, b);
  }

  lemma {:induction false} FoldOfThree<V>(op: (V, V) -> V, a: V, b: V, c: V)
    ensures Fold(op, [a, b, c]) == op(op(a, b), c)
  {
    FoldSnoc(op, [a], b);
    FoldSnoc(op, [a] + [b], c);
    assert [a] + [b] + [c] == [a, b, c];
  }

  // ---- reduce to a root ----

  function RootFirst<V>(values: seq<V>, root: nat): (o: seq<V>)
    requires root < |values|
    ensures |o| == |values|
  {
    [values[root]] + values[..root] + values[root + 1..]
  }

  /** One transfer between the root and each other rank, in one step or in one step each. */
  ghost predicate Star(ts: seq<Transfer>, root: nat, n: nat, inward: bool, pairwise: bool) {
    && root < n && |ts| == n - 1
    && forall i | 0 <= i < n - 1 :: ts[i] == Spoke(i, root, inward, pairwise)
  }

  function Spoke(i: nat, root: nat, inward: bool, pairwise: bool): Transfer {
    var r := if i < root then i else i + 1;
    Transfer(if pairwise then i else 0, if inward then r else root, if inward then root else r)
  }

  method StarInto(root: nat, n: nat, pairwise: bool) returns (ts: seq<Transfer>)
    requires root < n
    ensures Star(ts, root, n, true, pairwise)
  {
    ts := [];
    var step := 0;
    for r := 0 to n
      invariant |ts| == if r <= root then r else r - 1
      invariant step == if pairwise then |ts| else 0
      invariant forall i | 0 <= i < |ts| :: ts[i] == Spoke(i, root, true, pairwise)
    {
      if r != root {
        ts := ts + [Transfer(step, r, root)];
        if pairwise { step := step + 1; }
      }
    }
  }

  /** The linear and pairwise reduces combine the root's value first and the others in rank order. */
  method LinearReduce<V>(op: (V, V) -> V, values: seq<V>, root: nat, pairwise: bool) returns (total: V, ts: seq<Transfer>)
    requires root < |values|
    ensures total == Fold(op, RootFirst(values, root))
    ensures Star(ts, root, |values|, true, pairwise)
  {
    hide Fold;
    var order := RootFirst(values, root);
    total := values[root];
    ts := StarInto(root, |values|, pairwise);
    assert order[..1] == [values[root]];
    FoldOne(op, values[root]);
    for r := 0 to |values|
      invariant total == Fold(op, if r <= root then order[..r + 1] else order[..r])
    {
      var done := if r <= root then r + 1 else r;
      if r != root {
        FoldSnoc(op, order[..done], values[r]);
        assert order[..done + 1] == order[..done] + [values[r]];
        total := op(total, values[r]);
      }
    }
    assert order[..|values|] == order;
  }

  lemma {:induction false} FoldOne<V>(op: (V, V) -> V, v: V)
    ensures Fold(op, [v]) == v
  {
  }

  lemma {:induction false} RootFirstKeepsElements<V>(values: seq<V>, root: nat)
    requires root < |values|
    ensures multiset(RootFirst(values, root)) == multiset(values)
    ensures root == 0 ==> RootFirst(values, root) == values
  {
    assert values == values[..root] + [values[root]] + values[root + 1..];
  }

  /** The values after the root, going round the ring. */
  function AfterRoot<V>(values: seq<V>, root: nat): (o: seq<V>)
    requires root < |values|
    ensures |o| == |values| - 1
  {
    values[root + 1..] + values[..root]
  }

  /** The ring reduce: the root's value combined with the fold of the others in ring order. */
  method RingReduce<V>(op: (V, V) -> V, values: seq<V>, root: nat) returns (total: V, ts: seq<Transfer>)
    requires root < |values| && |values| >= 2
    ensures total == op(values[root], Fold(op, AfterRoot(values, root)))
    ensures Path(ts, Ahead(root, 1, |values|), |values|)
  {
    hide Fold;
    var n := |values|;
    var order := AfterRoot(values, root);
    ghost var start := Ahead(root, 1, n);
    var acc := values[Ahead(root, 1, n)];
    ts := [];
    assert order[..1] == [acc];
    FoldOne(op, acc);
    for i := 0 to n - 1
      invariant acc == Fold(op, order[..Min(i + 1, n - 1)])
      invariant |ts| == i && forall k | 0 <= k < i :: ts[k] == Transfer(k, Ahead(start, k, n), Ahead(start, k + 1, n))
    {
      var src, dst := (root + 1 + i) % n, (root + 2 + i) % n;
      ts := ts + [Transfer(i, src, dst)];
      RingHop(root, i, n);
      if dst != root {
        FoldSnoc(op, order[..i + 1], values[dst]);
        assert order[..i + 2] == order[..i + 1] + [values[dst]];
        acc := op(acc, values[dst]);
      }
    }
    assert order[..n - 1] == order;
    total := op(values[root], acc);
  }

  lemma {:induction false} RingHop(root: nat, i: nat, n: nat)
    requires root < n && i < n - 1
    ensures var d := (root + 2 + i) % n; d == (if i == n - 2 then root else Ahead(root, i + 2, n))
    ensures (root + 1 + i) % n == Ahead(Ahead(root, 1, n), i, n)
    ensures (root + 2 + i) % n == Ahead(Ahead(root, 1, n), i + 1, n)
  {
    ModRange(root + 1 + i, n);
    if i == n - 2 { ModRange(root + n, n); } else { ModRange(root + 2 + i, n); }
  }

  lemma {:induction false} ReduceOrders<V(!new)>(op: (V, V) -> V, values: seq<V>, root: nat)
    requires root < |values| && Associative(op) && (root == 0 || Commutative(op))
    ensures Fold(op, RootFirst(values, root)) == Fold(op, values)
    ensures |values| >= 2 ==> op(values[root], Fold(op, AfterRoot(values, root))) == Fold(op, values)
  {
    hide Associative, Commutative;
    RootFirstKeepsElements(values, root);
    if root != 0 {
      FoldReordered(op, values, RootFirst(values, root));
    }
    if |values| >= 2 {
      var ring := [values[root]] + AfterRoot(values, root);
      FoldOne(op, values[root]);
      FoldConcat(op, [values[root]], AfterRoot(values, root));
      if root == 0 {
        assert ring == values;
      } else {
        assert values == values[..root] + [values[root]] + values[root + 1..];
        FoldReordered(op, values, ring);
      }
    }
  }

  // ---- ring allgather ----

  ghost predicate RingFilled<V>(bufs: seq<seq<Option<V>>>, values: seq<V>, k: nat) {
    && k < |values| == |bufs|
    && (forall r | 0 <= r < |bufs| :: |bufs[r]| == |values|)
    && forall r, i | 0 <= r < |values| && 0 <= i <= k :: Holds(bufs[r], values, Back(r, i, |values|))
  }

  ghost predicate Holds<V>(row: seq<Option<V>>, values: seq<V>, i: nat) {
    i < |row| == |values| && row[i] == Some(values[i])
  }

  function Fill<V>(row: seq<Option<V>>, values: seq<V>, i: nat): (m: seq<Option<V>>)
    requires i < |row| == |values|
    ensures |m| == |row|
  {
    row[i := Some(values[i])]
  }

  /** Every rank passes the entry it carries to its successor. */
  method HopFill<V>(bufs: array<seq<Option<V>>>, values: seq<V>, carry: seq<nat>)
    requires bufs.Length == |values| == |carry| >= 2
    requires forall r | 0 <= r < bufs.Length :: |bufs[r]| == bufs.Length && carry[r] < bufs.Length
    modifies bufs
    ensures forall d | 0 <= d < bufs.Length ::
      |old(bufs[d])| == |values| && bufs[d] == Fill(old(bufs[d]), values, carry[Back(d, 1, bufs.Length)])
  {
    hide Fill, Back, Hopped;
    var n := bufs.Length;
    ghost var was := bufs[..];
    forall d | 0 <= d < n ensures Hopped(was, values, carry, 0, d) == was[d] { HoppedEnds(was, values, carry, d); }
    for r := 0 to n
      invariant forall d | 0 <= d < n :: bufs[d] == Hopped(was, values, carry, r, d)
    {
      ModRange(r + 1, n);
      var dst := (r + 1) % n;
      forall d | 0 <= d < n ensures Hopped(was, values, carry, r + 1, d) ==
        if d == dst then Fill(was[d], values, carry[r]) else Hopped(was, values, carry, r, d) { HoppedStep(was, values, carry, r, d); }
      HoppedStep(was, values, carry, r, dst);
      bufs[dst] := Fill(bufs[dst], values, carry[r]);
    }
    forall d | 0 <= d < n ensures bufs[d] == Fill(was[d], values, carry[Back(d, 1, n)]) { HoppedEnds(was, values, carry, d); }
  }

  /** What rank d holds when the first r ranks have sent. */
  ghost function Hopped<V>(was: seq<seq<Option<V>>>, values: seq<V>, carry: seq<nat>, r: nat, d: nat): seq<Option<V>>
    requires |was| == |values| == |carry| >= 2 && d < |was| && r <= |was|
    requires forall i | 0 <= i < |was| :: |was[i]| == |was| && carry[i] < |was|
  {
    if 1 <= d <= r then Fill(was[d], values, carry[d - 1])
    else if d == 0 && r == |was| then Fill(was[0], values, carry[r - 1])
    else was[d]
  }

  lemma {:induction false} HoppedStep<V>(was: seq<seq<Option<V>>>, values: seq<V>, carry: seq<nat>, r: nat, d: nat)
    requires |was| == |values| == |carry| >= 2 && d < |was| && r < |was|
    requires forall i | 0 <= i < |was| :: |was[i]| == |was| && carry[i] < |was|
    ensures var dst := (r + 1) % |was|;
      && (d != dst ==> Hopped(was, values, carry, r + 1, d) == Hopped(was, values, carry, r, d))
      && (d == dst ==> Hopped(was, values, carry, r, d) == was[d] && Hopped(was, values, carry, r + 1, d) == Fill(was[d], values, carry[r]))
  {
    hide Fill;
    ModRange(r + 1, |was|);
  }

  lemma {:induction false} HoppedEnds<V>(was: seq<seq<Option<V>>>, values: seq<V>, carry: seq<nat>, d: nat)
    requires |was| == |values| == |carry| >= 2 && d < |was|
    requires forall i | 0 <= i < |was| :: |was[i]| == |was| && carry[i] < |was|
    ensures Hopped(was, values, carry, 0, d) == was[d]
    ensures Hopped(was, values, carry, |was|, d) == Fill(was[d], values, carry[Back(d, 1, |was|)])
  {
    hide Fill;
  }

  lemma {:induction false} NextCarry(carry: seq<nat>, next: seq<nat>, step: nat)
    requires |next| == |carry| && step + 1 < |carry|
    requires forall r | 0 <= r < |carry| :: carry[r] == Back(r, step, |carry|)
    requires forall r | 0 <= r < |carry| :: next[r] == carry[Back(r, 1, |carry|)]
    ensures forall r | 0 <= r < |carry| :: next[r] == Back(r, step + 1, |carry|)
    ensures forall r | 0 <= r < |carry| :: carry[Back(r, 1, |carry|)] == Back(r, step + 1, |carry|)
  {
    var n := |carry|;
    forall r | 0 <= r < n ensures next[r] == Back(r, step + 1, n) {
      assert Back(Back(r, 1, n), step, n) == Back(r, step + 1, n);
    }
  }

  /** The ring allgather: after k hops rank r holds the values of its k predecessors; after n - 1, all of them. */
  method RingAllGather<V>(values: seq<V>) returns (out: seq<seq<Option<V>>>, ts: seq<Transfer>)
    requires values != []
    ensures |out| == |values|
    ensures forall r, i | 0 <= r < |out| && 0 <= i < |values| :: Holds(out[r], values, i)
    ensures AllRound(ts, |values| - 1, |values|)
  {
    hide RingFilled, Holds, AllRound, Ahead;
    var n := |values|;
    var bufs := new seq<Option<V>>[n](r requires 0 <= r < n => seq(n, _ => None)[r := Some(values[r])]);
    var carry := seq(n, r => r);
    ts := [];
    RingFilledStart(bufs[..], values);
    NoRounds(n);
    for step := 0 to n - 1
      invariant RingFilled(bufs[..], values, step)
      invariant |carry| == n && forall r | 0 <= r < n :: carry[r] == Back(r, step, n)
      invariant AllRound(ts, step, n)
    {
      ghost var was := bufs[..];
      RingFilledShape(was, values, step);
      HopFill(bufs, values, carry);
      var next, round := RingStep(carry, step);
      ModRange(1, n);
      NextCarry(carry, next, step);
      RingFilledStep(was, bufs[..], values, step);
      AllRoundStep(ts, round, step, n);
      carry, ts := next, ts + round;
    }
    out := bufs[..];
    RingFilledEnd(out, values);
  }

  lemma {:induction false} RingFilledStart<V>(bufs: seq<seq<Option<V>>>, values: seq<V>)
    requires |bufs| == |values| > 0
    requires forall r | 0 <= r < |bufs| :: |bufs[r]| == |values| && bufs[r][r] == Some(values[r])
    ensures RingFilled(bufs, values, 0)
  {
  }

  lemma {:induction false} RingFilledShape<V>(bufs: seq<seq<Option<V>>>, values: seq<V>, k: nat)
    requires RingFilled(bufs, values, k)
    ensures |bufs| == |values| && forall r | 0 <= r < |bufs| :: |bufs[r]| == |values|
  {
  }

  lemma {:induction false} RingFilledStep<V>(bufs: seq<seq<Option<V>>>, next: seq<seq<Option<V>>>, values: seq<V>,
        k: nat)
    requires RingFilled(bufs, values, k) && k + 1 < |values| && |next| == |bufs|
    requires forall r | 0 <= r < |values| ::
      |bufs[r]| == |values| && next[r] == Fill(bufs[r], values, Back(r, k + 1, |values|))
    ensures RingFilled(next, values, k + 1)
  {
    var n := |values|;
    forall r, i | 0 <= r < n && 0 <= i <= k + 1 ensures Holds(next[r], values, Back(r, i, n)) {
      if i <= k {
        assert Holds(bufs[r], values, Back(r, i, n));
      }
    }
  }

  lemma {:induction false} RingFilledEnd<V>(bufs: seq<seq<Option<V>>>, values: seq<V>)
    requires values != [] && RingFilled(bufs, values, |values| - 1)
    ensures forall r, i | 0 <= r < |bufs| && 0 <= i < |values| :: Holds(bufs[r], values, i)
  {
    var n := |values|;
    forall r, i | 0 <= r < n && 0 <= i < n ensures Holds(bufs[r], values, i) {
      var k := if i <= r then r - i else r - i + n;
      assert Back(r, k, n) == i;
    }
  }
}
