/** Recursive doubling: allreduce, allgather and inclusive scan. */
module DoublingCollectives {
  import opened Basics
  import opened Folds

  // ---- partners and aligned blocks ----

  /** r XOR dist for a power of two dist: the neighbour block at the same offset. */
  function Partner(r: nat, dist: nat): (p: nat)
    requires dist > 0
  {
    ModBelow(r, 2 * dist);
    if r % (2 * dist) < dist then r + dist else r - dist
  }

  /** First rank of the aligned block of size dist that holds r. */
  function BlockStart(r: nat, dist: nat): (b: nat)
    requires dist > 0
    ensures b <= r < b + dist
  {
    ModBelow(r, dist);
    r - r % dist
  }

  predicate PowerOfTwo(n: nat) { n == 1 || (n >= 2 && n % 2 == 0 && PowerOfTwo(n / 2)) }

  lemma {:induction false} PowerOfTwoIsPow2(n: nat)
    requires n >= 1
    ensures PowerOfTwo(n) <==> n == Pow2(Levels(n))
    decreases n
  {
    if n > 1 {
      if n % 2 == 0 {
        PowerOfTwoIsPow2(n / 2);
      }
    }
  }

  /** Two neighbouring blocks of size d make one aligned block of size 2d. */
  lemma {:induction false} BlocksPair(r: nat, d: nat)
    requires d > 0
    ensures var p, c := Partner(r, d), BlockStart(r, 2 * d);
      && BlockStart(Min(r, p), d) == c && BlockStart(Max(r, p), d) == c + d
      && BlockStart(p, 2 * d) == c
      && (r < p <==> BlockStart(r, d) == c)
      && Partner(p, d) == r && p != r
  {
    var q, e := r / (2 * d), r % (2 * d);
    assert r == q * (2 * d) + e;
    HalfBlock(q, e, d);
    HalfBlock(q, if e < d then e + d else e - d, d);
  }

  lemma {:induction false} HalfBlock(q: nat, e: nat, d: nat)
    requires d > 0 && e < 2 * d
    ensures (q * (2 * d) + e) % (2 * d) == e
    ensures (q * (2 * d) + e) % d == if e < d then e else e - d
  {
    var x := q * (2 * d) + e;
    assert (q + 1) * (2 * d) == q * (2 * d) + 2 * d;
    DivUnique(x, 2 * d, q);
    assert 2 * q * d == q * (2 * d) && (2 * q + 1) * d == q * (2 * d) + d && (2 * q + 2) * d == q * (2 * d) + 2 * d;
    DivUnique(x, d, if e < d then 2 * q else 2 * q + 1);
  }

  lemma {:induction false} LastBlockFits(r: nat, b: nat, m: nat)
    requires b > 0 && r < m * b
    ensures BlockStart(r, b) + b <= m * b
  {
    var q := r / b;
    assert r == q * b + r % b;
    assert (q + 1) * b == q * b + b;
    MulMonotone(m, q, b);
    MulMonotone(q + 1, m, b);
  }

  /** In a power-of-two world every aligned block of two partners fits. */
  lemma {:induction false} BlockFits(r: nat, k: nat, n: nat)
    requires r < n == Pow2(Levels(n)) && k < Levels(n)
    ensures BlockStart(r, Pow2(k + 1)) + Pow2(k + 1) <= n && Partner(r, Pow2(k)) < n
  {
    hide Levels, Partner, BlockStart;
    Pow2Splits(k + 1, Levels(n));
    LastBlockFits(r, Pow2(k + 1), Pow2(Levels(n) - (k + 1)));
    BlocksPair(r, Pow2(k));
  }

  // ---- allreduce ----

  /** What an exchange leaves on rank r: the lower rank's value combined with the higher rank's. */
  function Exchange<V>(op: (V, V) -> V, acc: seq<V>, r: nat, dist: nat): V
    requires dist > 0 && r < |acc| && Partner(r, dist) < |acc|
  {
    op(acc[Min(r, Partner(r, dist))], acc[Max(r, Partner(r, dist))])
  }

  /** Every rank holds its aligned block combined by halves. */
  ghost predicate BlockFolds<V>(op: (V, V) -> V, acc: seq<V>, values: seq<V>, dist: nat) {
    && dist > 0 && |acc| == |values|
    && forall r | 0 <= r < |acc| ::
      BlockStart(r, dist) + dist <= |values| && acc[r] == TreeFold(op, values, BlockStart(r, dist), BlockStart(r, dist) + dist)
  }

  lemma {:induction false} TreeFoldHalves<V>(op: (V, V) -> V, values: seq<V>, c: nat, d: nat)
    requires d > 0 && c + 2 * d <= |values|
    ensures TreeFold(op, values, c, c + 2 * d) == op(TreeFold(op, values, c, c + d), TreeFold(op, values, c + d, c + 2 * d))
  {
    assert (c + (c + 2 * d)) / 2 == c + d;
  }

  lemma {:induction false} BlockFoldsStep<V>(op: (V, V) -> V, acc: seq<V>, next: seq<V>, values: seq<V>, k: nat)
    requires |values| == Pow2(Levels(|values|)) && k < Levels(|values|)
    requires BlockFolds(op, acc, values, Pow2(k)) && |next| == |acc|
    requires forall r | 0 <= r < |acc| :: Partner(r, Pow2(k)) < |acc| ==> next[r] == Exchange(op, acc, r, Pow2(k))
    ensures BlockFolds(op, next, values, Pow2(k + 1))
  {
    hide TreeFold, Partner, BlockStart, Levels;
    var d := Pow2(k);
    forall r | 0 <= r < |next|
      ensures BlockStart(r, 2 * d) + 2 * d <= |values|
      ensures next[r] == TreeFold(op, values, BlockStart(r, 2 * d), BlockStart(r, 2 * d) + 2 * d)
    {
      BlockFits(r, k, |values|);
      BlocksPair(r, d);
      var c := BlockStart(r, 2 * d);
      TreeFoldHalves(op, values, c, d);
    }
  }

  lemma {:induction false} BlockFoldsStart<V>(op: (V, V) -> V, values: seq<V>)
    ensures BlockFolds(op, values, values, 1)
  {
    forall r: nat ensures BlockStart(r, 1) == r { DivUnique(r, 1, r); }
  }

  lemma {:induction false} BlockFoldsEnd<V>(op: (V, V) -> V, acc: seq<V>, values: seq<V>)
    requires values != [] && BlockFolds(op, acc, values, |values|)
    ensures forall r | 0 <= r < |values| :: acc[r] == TreeFold(op, values, 0, |values|)
  {
    hide TreeFold;
    forall r | 0 <= r < |values| ensures acc[r] == TreeFold(op, values, 0, |values|) {
      assert BlockStart(r, |values|) == 0;
    }
  }

  /** All transfers so far are exchanges of the doubling rounds before `rounds`. */
  ghost predicate Exchanges(ts: seq<Transfer>, rounds: nat) {
    forall t | t in ts :: t.step < rounds && t.dst == Partner(t.src, Pow2(t.step))
  }

  method ReduceRound<V>(op: (V, V) -> V, acc: array<V>, dist: nat, step: nat) returns (pairs: nat, ts: seq<Transfer>)
    requires dist > 0
    modifies acc
    ensures forall r | 0 <= r < acc.Length ::
      acc[r] == if Partner(r, dist) < acc.Length then Exchange(op, old(acc[..]), r, dist) else old(acc[r])
    ensures forall t | t in ts :: t.step == step && t.dst == Partner(t.src, dist)
    ensures pairs == |ts| <= acc.Length
    ensures (forall r | 0 <= r < acc.Length :: Partner(r, dist) < acc.Length) ==> pairs == acc.Length
  {
    hide Partner;
    var n := acc.Length;
    var snapshot := acc[..];
    ts := [];
    for r := 0 to n
      invariant forall k | 0 <= k < n ::
        acc[k] == if k < r && Partner(k, dist) < n then Exchange(op, snapshot, k, dist) else snapshot[k]
      invariant forall t | t in ts :: t.step == step && t.dst == Partner(t.src, dist)
      invariant |ts| <= r
      invariant (forall k | 0 <= k < n :: Partner(k, dist) < n) ==> |ts| == r
    {
      var p := Partner(r, dist);
      if p < n {
        ts := ts + [Transfer(step, r, p)];
        acc[r] := op(snapshot[Min(r, p)], snapshot[Max(r, p)]);
      }
    }
    pairs := |ts|;
  }

  lemma {:induction false} RoundKeepsBlocks<V>(op: (V, V) -> V, was: seq<V>, next: seq<V>, values: seq<V>,
        k: nat, pairs: nat)
    requires PowerOfTwo(|values|) && Pow2(k) < |values|
    requires BlockFolds(op, was, values, Pow2(k)) && |next| == |was|
    requires forall r | 0 <= r < |was| :: Partner(r, Pow2(k)) < |was| ==> next[r] == Exchange(op, was, r, Pow2(k))
    requires (forall r | 0 <= r < |was| :: Partner(r, Pow2(k)) < |was|) ==> pairs == |was|
    ensures BlockFolds(op, next, values, Pow2(k + 1)) && pairs == |values|
  {
    hide BlockFolds, Partner, PowerOfTwo, Levels;
    var n := |values|;
    PowerOfTwoIsPow2(n);
    RoundIsBeforeLast(n, k);
    BlockFoldsStep(op, was, next, values, k);
    assert |was| == n by { BlockFoldsShape(op, was, values, Pow2(k)); }
    forall r | 0 <= r < n ensures Partner(r, Pow2(k)) < n { BlockFits(r, k, n); }
  }

  lemma {:induction false} BlockFoldsShape<V>(op: (V, V) -> V, acc: seq<V>, values: seq<V>, dist: nat)
    requires BlockFolds(op, acc, values, dist)
    ensures |acc| == |values|
  {
  }

  /** The doubling rounds; pairedAll stays true as long as nobody was left without a partner. */
  method DoublingRounds<V>(op: (V, V) -> V, acc: array<V>, ghost values: seq<V>)
    returns (pairedAll: bool, steps: nat, ts: seq<Transfer>)
    requires acc[..] == values && values != []
    modifies acc
    ensures PowerOfTwo(|values|) ==> pairedAll && BlockFolds(op, acc[..], values, |values|)
    ensures steps == Levels(|values|) && Exchanges(ts, steps)
  {
    hide PowerOfTwo, Partner, BlockFolds, Levels, Exchange;
    var n := acc.Length;
    var step, dist := 0, 1;
    pairedAll, ts := true, [];
    BlockFoldsStart(op, values);
    while dist < n
      invariant dist == Pow2(step) && (step > 0 ==> Pow2(step - 1) < n)
      invariant PowerOfTwo(n) ==> pairedAll && BlockFolds(op, acc[..], values, dist)
      invariant Exchanges(ts, step)
      decreases n - dist
    {
      ghost var was := acc[..];
      var pairs, round := ReduceRound(op, acc, dist, step);
      if PowerOfTwo(n) {
        RoundKeepsBlocks(op, was, acc[..], values, step, pairs);
      }
      if pairs != n {
        pairedAll := false;
      }
      ts := ts + round;
      dist := dist * 2;
      step := step + 1;
    }
    steps := step;
    LevelsUnique(n, step);
    PowerOfTwoIsPow2(n);
  }

  /** The remainder repair: the serial fold replaces whatever differs from it. */
  method Repair<V(==)>(op: (V, V) -> V, acc: array<V>, values: seq<V>, step: nat) returns (ts: seq<Transfer>)
    requires values != []
    modifies acc
    ensures forall r | 0 <= r < acc.Length :: acc[r] == Fold(op, values)
  {
    var total := FoldLoop(op, values);
    ts := [];
    for r := 0 to acc.Length
      invariant forall k | 0 <= k < r :: acc[k] == total
    {
      if acc[r] != total {
        ts := ts + [Transfer(step, 0, r)];
        acc[r] := total;
      }
    }
  }

  /**
   * The recursive doubling allreduce. For a power of two the doubling rounds alone leave the combination by halves on
   * every rank, without any repair; for any other size the repair leaves the in-order fold, for any operator.
   */
  method AllReduce<V(==)>(op: (V, V) -> V, values: seq<V>) returns (out: seq<V>, ts: seq<Transfer>)
    requires values != []
    ensures |out| == |values|
    ensures forall r | 0 <= r < |out| ::
      out[r] == if PowerOfTwo(|values|) then TreeFold(op, values, 0, |values|) else Fold(op, values)
    ensures PowerOfTwo(|values|) ==> Exchanges(ts, Levels(|values|))
  {
    hide Fold, TreeFold, PowerOfTwo, BlockFolds, Levels, Exchanges;
    var n := |values|;
    var acc := new V[n](i requires 0 <= i < n => values[i]);
    assert acc[..] == values;
    var pairedAll, steps;
    pairedAll, steps, ts := DoublingRounds(op, acc, values);
    if !pairedAll || !PowerOfTwo(n) {
      var repairs := Repair(op, acc, values, steps);
      ts := ts + repairs;
    } else {
      BlockFoldsEnd(op, acc[..], values);
    }
    out := acc[..];
  }

  lemma {:induction false} RoundIsBeforeLast(n: nat, step: nat)
    requires n == Pow2(Levels(n)) && Pow2(step) < n
    ensures step < Levels(n)
  {
    if Levels(n) <= step { Pow2Monotone(Levels(n), step); }
  }

  /** The serial left-to-right combination. */
  method FoldLoop<V>(op: (V, V) -> V, values: seq<V>) returns (total: V)
    requires values != []
    ensures total == Fold(op, values)
  {
    total := values[0];
    assert values[..1] == [values[0]];
    for i := 1 to |values|
      invariant total == Fold(op, values[..i])
    {
      FoldSnoc(op, values[..i], values[i]);
      assert values[..i] + [values[i]] == values[..i + 1];
      total := op(total, values[i]);
    }
    assert values[..|values|] == values;
  }

  // ---- scan ----

  /** Every rank holds the fold of the last dist values up to its own. */
  ghost predicate Windows<V>(op: (V, V) -> V, acc: seq<V>, values: seq<V>, dist: nat) {
    && dist > 0 && |acc| == |values|
    && forall r | 0 <= r < |acc| :: acc[r] == Fold(op, values[Max(0, r - dist + 1)..r + 1])
  }

  lemma {:induction false} WindowsStep<V(!new)>(op: (V, V) -> V, acc: seq<V>, next: seq<V>, values: seq<V>, dist: nat)
    requires Associative(op) && Windows(op, acc, values, dist) && |next| == |acc|
    requires forall r | 0 <= r < |acc| && r < dist :: next[r] == acc[r]
    requires forall r | dist <= r < |acc| :: next[r] == op(acc[r - dist], acc[r])
    ensures Windows(op, next, values, 2 * dist)
  {
    hide Associative, Fold;
    forall r | 0 <= r < |next| ensures next[r] == Fold(op, values[Max(0, r - 2 * dist + 1)..r + 1]) {
      if r >= dist {
        var s := r - dist;
        assert acc[s] == Fold(op, values[Max(0, s - dist + 1)..s + 1]);
        assert acc[r] == Fold(op, values[s + 1..r + 1]);
        FoldSplit(op, values, Max(0, s - dist + 1), s + 1, r + 1);
        assert next[r] == op(acc[s], acc[r]);
        assert s - dist + 1 == r - 2 * dist + 1;
      } else {
        assert next[r] == acc[r] == Fold(op, values[0..r + 1]);
        assert Max(0, r - 2 * dist + 1) == 0;
      }
    }
  }

  /** Every rank from `dist` on combines the value `dist` ranks before it with its own. */
  method ScanRound<V>(op: (V, V) -> V, acc: array<V>, dist: nat)
    requires 0 < dist < acc.Length
    modifies acc
    ensures forall k | 0 <= k < dist :: acc[k] == old(acc[k])
    ensures forall k | dist <= k < acc.Length :: acc[k] == op(old(acc[k - dist]), old(acc[k]))
  {
    var snapshot := acc[..];
    var r := acc.Length - 1;
    while r >= dist
      invariant dist - 1 <= r < acc.Length
      invariant forall k | 0 <= k <= r :: acc[k] == snapshot[k]
      invariant forall k | r < k < acc.Length :: acc[k] == op(snapshot[k - dist], snapshot[k])
    {
      acc[r] := op(snapshot[r - dist], snapshot[r]);
      r := r - 1;
    }
  }

  /** The doubling scan: all inclusive prefixes, for any number of ranks, with associativity only. */
  method Scan<V(!new)>(op: (V, V) -> V, values: seq<V>) returns (out: seq<V>, rounds: nat)
    requires Associative(op) && values != []
    ensures |out| == |values| && forall r | 0 <= r < |out| :: out[r] == Fold(op, values[..r + 1])
    ensures rounds == Levels(|values|)
  {
    hide Associative, Fold, Windows, Levels;
    var n := |values|;
    var acc := new V[n](i requires 0 <= i < n => values[i]);
    assert acc[..] == values;
    var step, dist := 0, 1;
    WindowsStart(op, values);
    while dist < n
      invariant dist == Pow2(step) && (step > 0 ==> Pow2(step - 1) < n)
      invariant Windows(op, acc[..], values, dist)
      decreases n - dist
    {
      ghost var snapshot := acc[..];
      ScanRound(op, acc, dist);
      WindowsStep(op, snapshot, acc[..], values, dist);
      dist := dist * 2;
      step := step + 1;
    }
    LevelsUnique(n, step);
    rounds := step;
    out := acc[..];
    WindowsEnd(op, out, values, dist);
  }

  lemma {:induction false} WindowsStart<V>(op: (V, V) -> V, values: seq<V>)
    ensures Windows(op, values, values, 1)
  {
    forall r | 0 <= r < |values| ensures values[r] == Fold(op, values[Max(0, r)..r + 1]) {
      assert values[r..r + 1] == [values[r]];
    }
  }

  lemma {:induction false} WindowsEnd<V>(op: (V, V) -> V, acc: seq<V>, values: seq<V>, dist: nat)
    requires Windows(op, acc, values, dist) && dist >= |values|
    ensures forall r | 0 <= r < |acc| :: acc[r] == Fold(op, values[..r + 1])
  {
    hide Fold;
    forall r | 0 <= r < |acc| ensures acc[r] == Fold(op, values[..r + 1]) {
      assert values[0..r + 1] == values[..r + 1];
    }
  }

  // ---- allgather ----

  /** A rank's buffer never holds anything but the right value, and with all partners present exactly its block. */
  ghost predicate Gathered<V>(bufs: seq<seq<Option<V>>>, values: seq<V>, dist: nat) {
    && dist > 0 && |bufs| == |values|
    && (forall r | 0 <= r < |bufs| :: |bufs[r]| == |values|)
    && (forall r, i | 0 <= r < |bufs| && 0 <= i < |values| :: bufs[r][i] == None || bufs[r][i] == Some(values[i]))
    && (PowerOfTwo(|values|) ==> forall r, i | 0 <= r < |bufs| && 0 <= i < |values| ::
      bufs[r][i].Some? <==> BlockStart(r, dist) <= i < BlockStart(r, dist) + dist)
  }

  /** Entries of the other buffer overwrite, gaps keep what was there. */
  function Overlay<V>(mine: seq<Option<V>>, other: seq<Option<V>>): (m: seq<Option<V>>)
    requires |mine| == |other|
    ensures |m| == |mine|
  {
    seq(|mine|, i requires 0 <= i < |mine| => if other[i].Some? then other[i] else mine[i])
  }

  lemma {:induction false} GatheredStep<V>(bufs: seq<seq<Option<V>>>, next: seq<seq<Option<V>>>, values: seq<V>, k: nat)
    requires Pow2(k) < |values| && Gathered(bufs, values, Pow2(k)) && |next| == |bufs|
    requires forall r | 0 <= r < |bufs| ::
      next[r] == if Partner(r, Pow2(k)) < |bufs| then Overlay(bufs[r], bufs[Partner(r, Pow2(k))]) else bufs[r]
    ensures Gathered(next, values, Pow2(k + 1))
  {
    var n, d := |values|, Pow2(k);
    hide Partner, BlockStart, PowerOfTwo, Levels;
    if PowerOfTwo(n) {
      PowerOfTwoIsPow2(n);
      RoundIsBeforeLast(n, k);
      forall r, i | 0 <= r < n && 0 <= i < n
        ensures next[r][i].Some? <==> BlockStart(r, 2 * d) <= i < BlockStart(r, 2 * d) + 2 * d
      {
        BlockFits(r, k, n);
        BlocksPair(r, d);
      }
    }
  }

  /** Before the first round rank r holds nothing but its own value. */
  function Own<V>(values: seq<V>, r: nat, i: nat): Option<V>
    requires i < |values|
  {
    if i == r then Some(values[i]) else None
  }

  lemma {:induction false} GatheredStart<V>(bufs: seq<seq<Option<V>>>, values: seq<V>)
    requires |bufs| == |values| && forall r | 0 <= r < |bufs| :: |bufs[r]| == |values|
    requires forall r, i | 0 <= r < |bufs| && 0 <= i < |values| :: bufs[r][i] == Own(values, r, i)
    ensures Gathered(bufs, values, 1)
  {
    forall r: nat ensures BlockStart(r, 1) == r { DivUnique(r, 1, r); }
  }

  lemma {:induction false} GatheredShape<V>(bufs: seq<seq<Option<V>>>, values: seq<V>, dist: nat)
    requires Gathered(bufs, values, dist)
    ensures |bufs| == |values| && forall r | 0 <= r < |bufs| :: |bufs[r]| == |values|
    ensures forall r, i | 0 <= r < |bufs| && 0 <= i < |values| :: bufs[r][i] == None || bufs[r][i] == Some(values[i])
  {
  }

  lemma {:induction false} GatheredEnd<V>(bufs: seq<seq<Option<V>>>, values: seq<V>)
    requires Gathered(bufs, values, |values|) && PowerOfTwo(|values|)
    ensures forall r, i | 0 <= r < |bufs| && 0 <= i < |bufs[r]| :: bufs[r][i].Some?
  {
    forall r | 0 <= r < |bufs| ensures BlockStart(r, |values|) == 0 {
      ModRange(r, |values|);
    }
  }

  /** One exchange round: every paired rank overlays its partner's entries as they were before the round. */
  method GatherRound<V>(bufs: array<seq<Option<V>>>, dist: nat, step: nat) returns (ts: seq<Transfer>)
    requires dist > 0 && forall r, s | 0 <= r < bufs.Length && 0 <= s < bufs.Length :: |bufs[r]| == |bufs[s]|
    modifies bufs
    ensures forall r | 0 <= r < bufs.Length ::
      bufs[r] == if Partner(r, dist) < bufs.Length then Overlay(old(bufs[r]), old(bufs[..])[Partner(r, dist)]) else old(bufs[r])
    ensures forall t | t in ts :: t.step == step && t.dst == Partner(t.src, dist)
  {
    hide Partner, Overlay;
    var n := bufs.Length;
    var snapshot := bufs[..];
    ts := [];
    for r := 0 to n
      invariant forall k | 0 <= k < n ::
        bufs[k] == if k < r && Partner(k, dist) < n then Overlay(snapshot[k], snapshot[Partner(k, dist)]) else snapshot[k]
      invariant forall t | t in ts :: t.step == step && t.dst == Partner(t.src, dist)
    {
      var p := Partner(r, dist);
      if p < n {
        ts := ts + [Transfer(step, r, p)];
        bufs[r] := Overlay(bufs[r], snapshot[p]);
      }
    }
  }

  predicate Full<V>(row: seq<Option<V>>) { forall i | 0 <= i < |row| :: row[i].Some? }

  function Values<V>(row: seq<Option<V>>): (v: seq<V>)
    requires Full(row)
    ensures |v| == |row| && forall i | 0 <= i < |row| :: row[i] == Some(v[i])
  {
    seq(|row|, i requires 0 <= i < |row| => row[i].value)
  }

  lemma {:induction false} RowIsFull<V>(row: seq<Option<V>>, values: seq<V>)
    requires |row| == |values| && forall i | 0 <= i < |row| :: row[i] == Some(values[i])
    ensures Full(row) && Values(row) == values
  {
  }

  /** The linear fill of the entries no partner could deliver. */
  method FillRow<V(==)>(row: seq<Option<V>>, values: seq<V>, r: nat, step: nat) returns (full: seq<Option<V>>,
        ts: seq<Transfer>)
    requires |row| == |values| && forall i | 0 <= i < |row| :: row[i] == None || row[i] == Some(values[i])
    ensures |full| == |values| && forall i | 0 <= i < |full| :: full[i] == Some(values[i])
    ensures (forall i | 0 <= i < |row| :: row[i].Some?) ==> ts == []
  {
    full, ts := row, [];
    for i := 0 to |row|
      invariant |full| == |row|
      invariant forall k | 0 <= k < |row| :: full[k] == if k < i then Some(values[k]) else row[k]
      invariant (forall k | 0 <= k < |row| :: row[k].Some?) ==> ts == []
    {
      if full[i] == None {
        ts := ts + [Transfer(step, i, r)];
        full := full[i := Some(values[i])];
      }
    }
  }

  /** The recursive doubling allgather fills every buffer; for a power of two no rank is left to be filled in. */
  method AllGather<V(==)>(values: seq<V>) returns (out: seq<seq<V>>, ts: seq<Transfer>)
    requires values != []
    ensures |out| == |values| && forall r | 0 <= r < |out| :: out[r] == values
    ensures PowerOfTwo(|values|) ==> Exchanges(ts, Levels(|values|))
  {
    hide Gathered, PowerOfTwo, Partner, Levels, Overlay;
    var n := |values|;
    var bufs := new seq<Option<V>>[n](r => seq(n, i requires 0 <= i < n => Own(values, r, i)));
    GatheredStart(bufs[..], values);
    var step, dist := 0, 1;
    ts := [];
    while dist < n
      invariant dist == Pow2(step) && (step > 0 ==> Pow2(step - 1) < n)
      invariant Gathered(bufs[..], values, dist)
      invariant Exchanges(ts, step)
      decreases n - dist
    {
      ghost var was := bufs[..];
      GatheredShape(was, values, dist);
      var round := GatherRound(bufs, dist, step);
      GatheredStep(was, bufs[..], values, step);
      ts := ts + round;
      dist := dist * 2;
      step := step + 1;
    }
    LevelsUnique(n, step);
    PowerOfTwoIsPow2(n);
    GatheredShape(bufs[..], values, dist);
    ghost var full := PowerOfTwo(n);
    if full { GatheredEnd(bufs[..], values); }
    for r := 0 to n
      invariant forall k | 0 <= k < n :: |bufs[k]| == n
      invariant forall k, i | r <= k < n && 0 <= i < n :: bufs[k][i] == None || bufs[k][i] == Some(values[i])
      invariant forall k, i | 0 <= k < r && 0 <= i < n :: bufs[k][i] == Some(values[i])
      invariant full ==> (forall k, i | 0 <= k < n && 0 <= i < n :: bufs[k][i].Some?) && Exchanges(ts, step)
    {
      var fill: seq<Transfer>;
      bufs[r], fill := FillRow(bufs[r], values, r, step);
      ts := ts + fill;
    }
    var rows := bufs[..];
    forall r | 0 <= r < n ensures Full(rows[r]) && Values(rows[r]) == values {
      RowIsFull(rows[r], values);
    }
    out := seq(n, r requires 0 <= r < n && Full(rows[r]) => Values(rows[r]));
  }
}
