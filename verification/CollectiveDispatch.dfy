/** The public collectives over all five schedules, the rule-based choice between them, and what it may change. */
module CollectiveDispatch {
  import opened Basics
  import opened Folds
  import opened TreeCollectives
  import opened BinomialBroadcasts
  import opened RingCollectives
  import opened OperatorLaws
  import Doubling = DoublingCollectives

  datatype Collective = Broadcast | Scatter | Gather | AllGather | Reduce | AllReduce | Scan | AllToAll

  // ---- broadcast ----

  /** Broadcast under any schedule. The binomial ones reach everybody only from rank 0; the others always do. */
  method RunBroadcast<V(==)>(value: V, root: nat, n: nat, algorithm: Algorithm)
    returns (out: seq<Option<V>>, ts: seq<Transfer>)
    requires root < n
    ensures |out| == n && out[root] == Some(value)
    ensures (forall r | 0 <= r < n :: out[r] == Some(value)) <==>
      n == 1 || root == 0 || algorithm !in {Tree, RecursiveDoubling}
    ensures algorithm in {Linear, Pairwise} ==> Star(ts, root, n, false, algorithm == Pairwise)
    ensures algorithm == Ring ==> Path(ts, root, n)
    ensures algorithm in {Tree, RecursiveDoubling} && root == 0 ==> Floods(ts, 0, 0, n) && Spans(ts, 0, Levels(n))
  {
    hide Floods, Spans, Levels;
    if n == 1 {
      out, ts := [Some(value)], [];
      NoTransfers(0, 0, 1, 0);
    } else if algorithm in {Linear, Pairwise} {
      out, ts := StarBroadcast(value, root, n, algorithm == Pairwise);
    } else if algorithm == Ring {
      out, ts := RingBroadcast(value, root, n);
    } else {
      var rounds;
      out, rounds, ts := TreeBroadcast(value, root, n);
    }
  }

  /** From the root to everybody directly. */
  method StarBroadcast<V(==)>(value: V, root: nat, n: nat, pairwise: bool)
    returns (out: seq<Option<V>>, ts: seq<Transfer>)
    requires root < n
    ensures |out| == n && forall r | 0 <= r < n :: out[r] == Some(value)
    ensures Star(ts, root, n, false, pairwise)
  {
    var buf := new Option<V>[n](_ => None);
    buf[root] := Some(value);
    ts := [];
    var step := 0;
    for r := 0 to n
      invariant buf[root] == Some(value)
      invariant forall k | 0 <= k < r :: buf[k] == Some(value)
      invariant |ts| == if r <= root then r else r - 1
      invariant step == if pairwise then |ts| else 0
      invariant forall i | 0 <= i < |ts| :: ts[i] == Spoke(i, root, false, pairwise)
    {
      if r != root {
        ts := ts + [Transfer(step, root, r)];
        buf[r] := Some(value);
        if pairwise { step := step + 1; }
      }
    }
    out := buf[..];
  }

  /** Round the ring from the root. */
  method RingBroadcast<V(==)>(value: V, root: nat, n: nat) returns (out: seq<Option<V>>, ts: seq<Transfer>)
    requires root < n && n >= 2
    ensures |out| == n && forall r | 0 <= r < n :: out[r] == Some(value)
    ensures Path(ts, root, n)
  {
    var buf := new Option<V>[n](_ => None);
    buf[root] := Some(value);
    ts := [];
    assert Ahead(root, 0, n) == root;
    for i := 0 to n - 1
      invariant forall k | 0 <= k <= i :: buf[Ahead(root, k, n)] == Some(value)
      invariant |ts| == i && forall k | 0 <= k < i :: ts[k] == Transfer(k, Ahead(root, k, n), Ahead(root, k + 1, n))
    {
      assert (root + i) % n == Ahead(root, i, n) && (root + i + 1) % n == Ahead(root, i + 1, n);
      ts := ts + [Transfer(i, (root + i) % n, (root + i + 1) % n)];
      buf[(root + i + 1) % n] := buf[(root + i) % n];
    }
    out := buf[..];
    forall r | 0 <= r < n ensures out[r] == Some(value) {
      var k := if r >= root then r - root else r - root + n;
      assert Ahead(root, k, n) == r;
    }
  }

  // ---- reduce and allreduce ----

  /** Reduce under any schedule, for any operator: the root holds what the schedule's order of combination gives. */
  method RunReduce<V(!new)>(op: (V, V) -> V, values: seq<V>, root: nat, algorithm: Algorithm)
    returns (total: V, ts: seq<Transfer>)
    requires root < |values|
    ensures total == Reduced(algorithm, op, values, root)
    ensures algorithm in {Linear, Pairwise} ==> Star(ts, root, |values|, true, algorithm == Pairwise)
    ensures algorithm == Ring ==> Path(ts, if |values| == 1 then 0 else Ahead(root, 1, |values|), |values|)
    ensures algorithm in {Tree, RecursiveDoubling} ==> Drains(ts, root, 0, |values|) && Spans(ts, 0, Levels(|values|))
  {
    hide Fold, TreeFold, Drains, Spans, Levels;
    if |values| == 1 {
      FoldOne(op, values[0]);
      assert RootFirst(values, 0) == [values[0]];
      assert TreeFold(op, values, 0, 1) == values[0] by { LeafFold(op, values, 0); }
      NoTransfers(0, 0, 1, 0);
      return values[0], [];
    }
    match algorithm
    case Linear => total, ts := LinearReduce(op, values, root, false);
    case Pairwise => total, ts := LinearReduce(op, values, root, true);
    case Ring => total, ts := RingReduce(op, values, root);
    case Tree => total, ts := TreeCollectives.Reduce(op, values, root);
    case RecursiveDoubling => total, ts := TreeCollectives.Reduce(op, values, root);
  }

  lemma {:induction false} LeafFold<V>(op: (V, V) -> V, values: seq<V>, i: nat)
    requires i < |values|
    ensures TreeFold(op, values, i, i + 1) == values[i]
  {
  }

  /** Number of steps a list of transfers takes. */
  function Steps(ts: seq<Transfer>): nat {
    if ts == [] then 0 else Max(Steps(ts[..|ts| - 1]), ts[|ts| - 1].step + 1)
  }

  function Later(ts: seq<Transfer>, base: nat): (r: seq<Transfer>)
    ensures |r| == |ts| && forall i | 0 <= i < |r| :: r[i] == ts[i].(step := ts[i].step + base)
  {
    seq(|ts|, i requires 0 <= i < |ts| => ts[i].(step := ts[i].step + base))
  }

  lemma {:induction false} StepsBound(ts: seq<Transfer>, i: nat)
    requires i < |ts|
    ensures ts[i].step < Steps(ts)
    decreases |ts|
  {
    if i < |ts| - 1 { StepsBound(ts[..|ts| - 1], i); }
  }

  /** A reduce to rank 0 that is over before the broadcast from there begins. */
  ghost predicate UpAndDown(ts: seq<Transfer>, algorithm: Algorithm, n: nat) {
    exists up, down :: ts == up + Later(down, Steps(up)) && Inward(up, algorithm, n) && Outward(down, algorithm, n)
  }

  ghost predicate Inward(ts: seq<Transfer>, algorithm: Algorithm, n: nat) {
    if algorithm == Tree then n >= 1 && Drains(ts, 0, 0, n) && Spans(ts, 0, Levels(n))
    else Star(ts, 0, n, true, algorithm == Pairwise)
  }

  ghost predicate Outward(ts: seq<Transfer>, algorithm: Algorithm, n: nat) {
    if algorithm == Tree then n >= 1 && Floods(ts, 0, 0, n) && Spans(ts, 0, Levels(n))
    else Star(ts, 0, n, false, algorithm == Pairwise)
  }

  /** Every message of the broadcast comes in a later step than every message of the reduce. */
  lemma {:induction false} UpBeforeDown(up: seq<Transfer>, down: seq<Transfer>, i: nat, j: nat)
    requires i < |up| <= j < |up| + |down|
    ensures var ts := up + Later(down, Steps(up)); ts[i].step < ts[j].step
  {
    StepsBound(up, i);
  }

  /** Allreduce under any schedule, for any operator. */
  method RunAllReduce<V(==,!new)>(op: (V, V) -> V, values: seq<V>, algorithm: Algorithm)
    returns (out: seq<V>, ts: seq<Transfer>)
    requires values != []
    ensures |out| == |values| && forall r | 0 <= r < |out| :: out[r] == AllReduced(algorithm, op, values, r)
    ensures algorithm == Ring ==> AllRound(ts, |values| - 1, |values|)
    ensures algorithm == RecursiveDoubling && Doubling.PowerOfTwo(|values|) ==>
      Doubling.Exchanges(ts, Levels(|values|))
    ensures algorithm in {Linear, Pairwise, Tree} ==> |ts| == 2 * (|values| - 1) && UpAndDown(ts, algorithm, |values|)
  {
    hide Fold, TreeFold, Levels, AllRound, Doubling.Exchanges, Steps, Drains, Floods, Spans;
    if |values| == 1 {
      OneRank(op, values);
      NoRounds(1);
      NoTransfers(0, 0, 1, 0);
      assert [] == [] + Later([], Steps([]));
      assert Inward([], algorithm, 1) && Outward([], algorithm, 1);
      out, ts := [values[0]], [];
    } else if algorithm == Ring {
      out, ts := RingAllReduce(op, values);
    } else if algorithm == RecursiveDoubling {
      out, ts := Doubling.AllReduce(op, values);
    } else {
      var total, a := RunReduce(op, values, 0, algorithm);
      var copies, b := RunBroadcast(total, 0, |values|, algorithm);
      RootFirstKeepsElements(values, 0);
      ts := a + Later(b, Steps(a));
      assert Inward(a, algorithm, |values|) && Outward(b, algorithm, |values|);
      TreeSizes(a, b, |values|);
      out := seq(|values|, r requires 0 <= r < |values| && copies[r].Some? => copies[r].value);
    }
  }

  lemma {:induction false} TreeSizes(a: seq<Transfer>, b: seq<Transfer>, n: nat)
    ensures n >= 1 && Drains(a, 0, 0, n) ==> |a| == n - 1
    ensures n >= 1 && Floods(b, 0, 0, n) ==> |b| == n - 1
  {
  }

  lemma {:induction false} OneRank<V>(op: (V, V) -> V, values: seq<V>)
    requires |values| == 1
    ensures forall algorithm :: AllReduced(algorithm, op, values, 0) == values[0]
    ensures Doubling.Exchanges([], Levels(1))
  {
    assert RingOrder(values, 0, 1) == values;
  }

  // ---- scan ----

  /** The serial prefix chain. */
  method LinearScan<V>(op: (V, V) -> V, values: seq<V>) returns (out: seq<V>)
    requires values != []
    ensures |out| == |values| && forall r | 0 <= r < |out| :: out[r] == Fold(op, values[..r + 1])
  {
    out := [values[0]];
    assert values[..1] == [values[0]];
    for r := 1 to |values|
      invariant |out| == r && forall k | 0 <= k < r :: out[k] == Fold(op, values[..k + 1])
    {
      FoldSnoc(op, values[..r], values[r]);
      assert values[..r] + [values[r]] == values[..r + 1];
      out := out + [op(out[r - 1], values[r])];
    }
  }

  /** Every rank folds its own prefix from the pairwise messages. */
  method PairwiseScan<V>(op: (V, V) -> V, values: seq<V>) returns (out: seq<V>)
    requires values != []
    ensures |out| == |values| && forall r | 0 <= r < |out| :: out[r] == Fold(op, values[..r + 1])
  {
    out := values;
    for r := 0 to |values|
      invariant |out| == |values|
      invariant forall k | 0 <= k < r :: out[k] == Fold(op, values[..k + 1])
    {
      var v := Doubling.FoldLoop(op, values[..r + 1]);
      out := out[r := v];
    }
  }

  /** Inclusive scan under any schedule: rank r holds the fold of values 0 to r. */
  method RunScan<V(!new)>(op: (V, V) -> V, values: seq<V>, algorithm: Algorithm) returns (out: seq<V>)
    requires values != []
    requires algorithm in {Tree, RecursiveDoubling} ==> |values| == 1 || Associative(op)
    ensures |out| == |values| && forall r | 0 <= r < |out| :: out[r] == Fold(op, values[..r + 1])
  {
    hide Associative, Fold;
    if |values| == 1 {
      FoldOne(op, values[0]);
      assert values[..1] == [values[0]];
      return [values[0]];
    }
    match algorithm
    case Linear =>
      out := LinearScan(op, values);
    case Ring =>
      out := LinearScan(op, values);
    case Pairwise =>
      out := PairwiseScan(op, values);
    case RecursiveDoubling =>
      var rounds;
      out, rounds := Doubling.Scan(op, values);
    case Tree =>
      var ts;
      out, ts := TreeScan(op, values);
  }

  // ---- all to all ----

  /** Number of hops from r forward to c. */
  function Hops(r: nat, c: nat, n: nat): (k: nat)
    requires r < n && c < n
    ensures k < n && (r + k) % n == c
  {
    ModRange(if c >= r then c else c + n, n);
    if c >= r then c - r else c - r + n
  }

  /** Round k: every rank sends the rank k ahead its block. */
  method AllToAllRound<V>(out: array2<Option<V>>, matrix: seq<seq<V>>, k: nat) returns (ts: seq<Transfer>)
    requires out.Length0 == out.Length1 == |matrix| && 1 <= k < |matrix|
    requires forall r | 0 <= r < |matrix| :: |matrix[r]| == |matrix|
    modifies out
    ensures forall c, r | 0 <= c < |matrix| && 0 <= r < |matrix| ::
      out[c, r] == if Hops(r, c, |matrix|) == k then Some(matrix[r][c]) else old(out[c, r])
    ensures |ts| == |matrix|
    ensures forall r | 0 <= r < |ts| :: ts[r] == Transfer(k - 1, r, Ahead(r, k, |matrix|))
  {
    hide Hops;
    var n := |matrix|;
    ts := [];
    for r := 0 to n
      invariant forall c, s | 0 <= c < n && 0 <= s < n ::
        out[c, s] == if Hops(s, c, n) == k && s < r then Some(matrix[s][c]) else old(out[c, s])
      invariant |ts| == r && forall s | 0 <= s < r :: ts[s] == Transfer(k - 1, s, Ahead(s, k, n))
    {
      var p := (r + k) % n;
      forall c | 0 <= c < n ensures Hops(r, c, n) == k <==> c == p { HopsUnique(r, c, k, n); }
      ts := ts + [Transfer(k - 1, r, p)];
      out[p, r] := Some(matrix[r][p]);
    }
  }

  /** In round `step` rank r sends to the rank step + 1 ahead. */
  ghost predicate Rotates(ts: seq<Transfer>, step: nat, r: nat, n: nat)
    requires r < n && step + 1 < n
  {
    Transfer(step, r, Ahead(r, step + 1, n)) in ts
  }

  ghost predicate RotationsUpTo(ts: seq<Transfer>, rounds: nat, n: nat) {
    && rounds < n && |ts| == rounds * n
    && (forall t | t in ts :: t.src < n && t.step < rounds && t.dst == Ahead(t.src, t.step + 1, n))
    && forall step, r | 0 <= step < rounds && 0 <= r < n :: Rotates(ts, step, r, n)
  }

  /** n - 1 rounds of one message per rank, each round reaching one rank further. */
  ghost predicate Rotations(ts: seq<Transfer>, n: nat) { n >= 1 && RotationsUpTo(ts, n - 1, n) }

  lemma {:induction false} RotationsStep(ts: seq<Transfer>, round: seq<Transfer>, rounds: nat, n: nat)
    requires RotationsUpTo(ts, rounds, n) && rounds + 1 < n && |round| == n
    requires forall r | 0 <= r < n :: round[r] == Transfer(rounds, r, Ahead(r, rounds + 1, n))
    ensures RotationsUpTo(ts + round, rounds + 1, n)
  {
    assert (rounds + 1) * n == rounds * n + n;
    forall step, r | 0 <= step < rounds + 1 && 0 <= r < n ensures Rotates(ts + round, step, r, n) {
      if step < rounds {
        assert Rotates(ts, step, r, n);
      } else {
        assert round[r] in round;
      }
    }
  }

  /** The pairwise (and ring) rounds: the result is the transpose, one message per rank and round. */
  method PairwiseAllToAll<V>(matrix: seq<seq<V>>) returns (out: array2<Option<V>>, ts: seq<Transfer>)
    requires matrix != [] && forall r | 0 <= r < |matrix| :: |matrix[r]| == |matrix|
    ensures out.Length0 == out.Length1 == |matrix|
    ensures forall c, r | 0 <= c < |matrix| && 0 <= r < |matrix| :: out[c, r] == Some(matrix[r][c])
    ensures Rotations(ts, |matrix|)
  {
    hide Hops;
    var n := |matrix|;
    out := new Option<V>[n, n]((c, r) => None);
    ts := [];
    for r := 0 to n
      invariant forall c, s | 0 <= c < n && 0 <= s < n :: out[c, s] == Sent(matrix, s, c, s < r && c == s)
    {
      out[r, r] := Some(matrix[r][r]);
    }
    forall c, r | 0 <= c < n && 0 <= r < n ensures (c == r) == (Hops(r, c, n) < 1) {
      HopsUnique(r, c, 0, n);
      ModRange(r, n);
    }
    for k := 1 to n
      invariant forall c, r | 0 <= c < n && 0 <= r < n :: out[c, r] == Sent(matrix, r, c, Hops(r, c, n) < k)
      invariant RotationsUpTo(ts, k - 1, n)
    {
      var round := AllToAllRound(out, matrix, k);
      RotationsStep(ts, round, k - 1, n);
      ts := ts + round;
    }
  }

  function Sent<V>(matrix: seq<seq<V>>, r: nat, c: nat, sent: bool): Option<V>
    requires r < |matrix| && c < |matrix[r]|
  {
    if sent then Some(matrix[r][c]) else None
  }

  lemma {:induction false} HopsUnique(r: nat, c: nat, k: nat, n: nat)
    requires r < n && c < n && k < n
    ensures Hops(r, c, n) == k <==> c == (r + k) % n
  {
    ModRange(r + k, n);
  }

  // ---- choice ----

  predicate RingLike(topology: string) { topology in {"ring", "line", "chain"} }

  const LARGE: int := 65536

  /** The rules in order; the first that matches wins. Returns the schedule and the number of the rule. */
  function SelectAlgorithm(op: Collective, workers: int, messageSize: int, topology: string): (choice: (Algorithm, nat))
  {
    if workers <= 1 then (Linear, 0)
    else if workers == 2 then (Pairwise, 1)
    else if RingLike(topology) then (Ring, 2)
    else if op == AllToAll then (Pairwise, 3)
    else if op in {AllReduce, AllGather} && messageSize >= LARGE then (Ring, 4)
    else if op in {AllReduce, AllGather, Scan} && Doubling.PowerOfTwo(workers) then (RecursiveDoubling, 5)
    else if op in {Broadcast, Scatter, Gather, Reduce} && workers >= 4 then (Tree, 6)
    else (Linear, 7)
  }

  /** A schedule that exchanges only between ranks one hop apart on the declared topology; on a line or a chain the
      last rank has no link back to the first. */
  ghost predicate UsesLinks(ts: seq<Transfer>, topology: string, n: nat) {
    forall t | t in ts :: HasLink(topology, n, t.src, t.dst)
  }

  predicate HasLink(topology: string, n: nat, a: nat, b: nat) {
    a + 1 == b || b + 1 == a || (topology == "ring" && ((a == 0 && b == n - 1) || (a == n - 1 && b == 0)))
  }

  lemma {:induction false} PathUsesLinksIff(ts: seq<Transfer>, start: nat, n: nat, topology: string)
    requires n >= 3 && RingLike(topology) && Path(ts, start, n)
    ensures UsesLinks(ts, topology, n) <==> topology == "ring" || start == 0
  {
    forall t | t in ts ensures topology == "ring" || start == 0 ==> HasLink(topology, n, t.src, t.dst) {
      var i :| 0 <= i < n - 1 && ts[i] == t;
      assert t == Transfer(i, Ahead(start, i, n), Ahead(start, i + 1, n));
    }
    if start != 0 {
      var i := n - 1 - start;
      assert ts[i] == Transfer(i, Ahead(start, i, n), Ahead(start, i + 1, n)) && ts[i] in ts;
    }
  }

  lemma {:induction false} AllRoundUsesLinksIff(ts: seq<Transfer>, steps: nat, n: nat, topology: string)
    requires n >= 3 && steps >= 1 && RingLike(topology) && AllRound(ts, steps, n)
    ensures UsesLinks(ts, topology, n) <==> topology == "ring"
  {
    assert Sends(ts, 0, n - 1, n);
    assert Transfer(0, n - 1, 0) in ts;
  }

  predicate OnRing(n: nat, messageSize: int, topology: string) {
    n >= 3 && (RingLike(topology) || messageSize >= LARGE)
  }

  /** For an operator with a unit, the allreduce chosen for n ranks is right on every list exactly under this law. */
  lemma {:induction false} ChosenAllReduceRightIff<V(!new)>(op: (V, V) -> V, e: V, n: nat, messageSize: int,
        topology: string)
    requires HasUnit(op, e) && n >= 1
    ensures AllReduceRight(SelectAlgorithm(AllReduce, n, messageSize, topology).0, op, n) <==>
      if OnRing(n, messageSize, topology) then Associative(op) && Commutative(op)
      else n <= 2 || !Doubling.PowerOfTwo(n) || Associative(op)
  {
    AllReduceRightIff(SelectAlgorithm(AllReduce, n, messageSize, topology).0, op, e, n);
  }

  /** `concat` gives the in-order text under the chosen schedule exactly when no ring was chosen. */
  lemma {:induction false} ChosenConcatIff(n: nat, messageSize: int, topology: string)
    requires n >= 1
    ensures AllReduceRight(SelectAlgorithm(AllReduce, n, messageSize, topology).0, Concat, n) <==>
      !OnRing(n, messageSize, topology)
  {
    ConcatLaws();
    ChosenAllReduceRightIff(Concat, "", n, messageSize, topology);
  }

  /** For an operator with a unit, the reduce chosen for n ranks is right on every list exactly under this law. */
  lemma {:induction false} ChosenReduceRightIff<V(!new)>(op: (V, V) -> V, e: V, n: nat, root: nat, messageSize: int,
        topology: string)
    requires HasUnit(op, e) && root < n
    ensures ReduceRight(SelectAlgorithm(Reduce, n, messageSize, topology).0, op, n, root) <==>
      if n <= 2 then root == 0 || Commutative(op)
      else if RingLike(topology) then
        (if root == 0 then Associative(op) else Commutative(op) && (root == n - 1 || Associative(op)))
      else if n >= 4 then Associative(op)
      else root == 0 || (Commutative(op) && (root == 1 || Associative(op)))
  {
    ReduceRightIff(SelectAlgorithm(Reduce, n, messageSize, topology).0, op, e, n, root);
  }

  /** The chosen allreduce. Under recursive doubling every transfer is an exchange of one of ceil(log2 n) rounds, so
      nothing is repaired. On a ring-like topology its transfers use existing links only exactly on a true ring. */
  method AllReduceSelected<V(==,!new)>(op: (V, V) -> V, values: seq<V>, messageSize: int, topology: string)
    returns (out: seq<V>, ts: seq<Transfer>)
    requires values != []
    ensures |out| == |values| && forall r | 0 <= r < |out| ::
      out[r] == AllReduced(SelectAlgorithm(AllReduce, |values|, messageSize, topology).0, op, values, r)
    ensures SelectAlgorithm(AllReduce, |values|, messageSize, topology).0 == RecursiveDoubling ==>
      Doubling.Exchanges(ts, Levels(|values|))
    ensures |values| >= 3 && RingLike(topology) ==> (UsesLinks(ts, topology, |values|) <==> topology == "ring")
  {
    hide AllReduced, Levels, UsesLinks, Doubling.Exchanges;
    out, ts := RunAllReduce(op, values, SelectAlgorithm(AllReduce, |values|, messageSize, topology).0);
    if |values| >= 3 && RingLike(topology) { AllRoundUsesLinksIff(ts, |values| - 1, |values|, topology); }
  }

  /** The chosen reduce. The tree takes n - 1 transfers in ceil(log2 n) levels. On a ring-like topology the transfers
      use existing links only exactly on a true ring or for the last rank as root. */
  method ReduceSelected<V(!new)>(op: (V, V) -> V, values: seq<V>, root: nat, messageSize: int, topology: string)
    returns (total: V, ts: seq<Transfer>)
    requires root < |values|
    ensures total == Reduced(SelectAlgorithm(Reduce, |values|, messageSize, topology).0, op, values, root)
    ensures |values| >= 4 && !RingLike(topology) ==> Drains(ts, root, 0, |values|) && Spans(ts, 0, Levels(|values|))
    ensures |values| >= 3 && RingLike(topology) ==>
      (UsesLinks(ts, topology, |values|) <==> topology == "ring" || root == |values| - 1)
  {
    hide Reduced, Drains, Spans, Levels, UsesLinks;
    total, ts := RunReduce(op, values, root, SelectAlgorithm(Reduce, |values|, messageSize, topology).0);
    if |values| >= 3 && RingLike(topology) { PathUsesLinksIff(ts, Ahead(root, 1, |values|), |values|, topology); }
  }

  /** The chosen broadcast is complete exactly from rank 0, for at most three ranks, or on a ring-like topology. There
      its transfers use existing links only exactly on a true ring or from rank 0. */
  method BroadcastSelected<V(==)>(value: V, root: nat, n: nat, messageSize: int, topology: string)
    returns (out: seq<Option<V>>, ts: seq<Transfer>)
    requires root < n
    ensures |out| == n
    ensures (forall r | 0 <= r < n :: out[r] == Some(value)) <==> root == 0 || n <= 3 || RingLike(topology)
    ensures n >= 4 && !RingLike(topology) && root == 0 ==> Floods(ts, 0, 0, n) && Spans(ts, 0, Levels(n))
    ensures n >= 3 && RingLike(topology) ==> (UsesLinks(ts, topology, n) <==> topology == "ring" || root == 0)
  {
    hide Floods, Spans, Levels, UsesLinks;
    out, ts := RunBroadcast(value, root, n, SelectAlgorithm(Broadcast, n, messageSize, topology).0);
    if n >= 3 && RingLike(topology) { PathUsesLinksIff(ts, root, n, topology); }
  }

  /** The chosen all-to-all, with one message per rank and round. On a ring-like topology, where the ring schedule is
      chosen, its transfers use existing links only exactly on a true ring of three. */
  method AllToAllSelected<V>(matrix: seq<seq<V>>, messageSize: int, topology: string)
    returns (out: array2<Option<V>>, ts: seq<Transfer>)
    requires matrix != [] && forall r | 0 <= r < |matrix| :: |matrix[r]| == |matrix|
    ensures |matrix| >= 2 ==> SelectAlgorithm(AllToAll, |matrix|, messageSize, topology).0 in {Pairwise, Ring}
    ensures out.Length0 == out.Length1 == |matrix|
    ensures forall c, r | 0 <= c < |matrix| && 0 <= r < |matrix| :: out[c, r] == Some(matrix[r][c])
    ensures Rotations(ts, |matrix|)
    ensures |matrix| >= 3 && RingLike(topology) ==>
      (UsesLinks(ts, topology, |matrix|) <==> topology == "ring" && |matrix| == 3)
  {
    hide UsesLinks, Rotations;
    out, ts := PairwiseAllToAll(matrix);
    if |matrix| >= 3 && RingLike(topology) { RotationsUseLinksIff(ts, |matrix|, topology); }
  }

  lemma {:induction false} RotationsUseLinksIff(ts: seq<Transfer>, n: nat, topology: string)
    requires n >= 3 && RingLike(topology) && Rotations(ts, n)
    ensures UsesLinks(ts, topology, n) <==> topology == "ring" && n == 3
  {
    if topology == "ring" && n == 3 {
      forall t | t in ts ensures HasLink(topology, n, t.src, t.dst) {
        assert t.dst == Ahead(t.src, t.step + 1, n);
      }
    } else if n == 3 {
      assert Rotates(ts, 0, 2, 3);
      assert Transfer(0, 2, 0) in ts;
    } else {
      assert Rotates(ts, 1, 0, n);
      assert Transfer(1, 0, 2) in ts;
    }
  }
}
