/**
 * The halving and binomial schedules: reduce, gather and scatter over a recursively halved range of
 * ranks, the binomial broadcast, and the tree scan built on it.
 */
module TreeCollectives {
  import opened Basics
  import opened Folds

  // ---- schedules ----

  ghost function Senders(ts: seq<Transfer>): set<nat> { set t | t in ts :: t.src }

  ghost function Receivers(ts: seq<Transfer>): set<nat> { set t | t in ts :: t.dst }

  ghost predicate Other(r: nat, lo: nat, hi: nat, self: nat) { lo <= r < hi && r != self }

  ghost function Others(lo: nat, hi: nat, self: nat): set<nat> { set r: nat | lo <= r < hi && Other(r, lo, hi, self) }

  ghost predicate Within(ts: seq<Transfer>, lo: nat, hi: nat) {
    forall t | t in ts :: lo <= t.src < hi && lo <= t.dst < hi
  }

  /** Every rank but the target sends exactly once, and is silent and deaf from then on. */
  ghost predicate Drains(ts: seq<Transfer>, target: nat, lo: nat, hi: nat) {
    && Within(ts, lo, hi)
    && Senders(ts) == Others(lo, hi, target)
    && |ts| == hi - lo - 1
    && forall i, j | 0 <= i < j < |ts| :: ts[i].src != ts[j].src && ts[i].src != ts[j].dst
  }

  /** Some transfer before position i brought the data to the sender of transfer i, in an earlier step. */
  ghost predicate Supplied(ts: seq<Transfer>, i: nat)
    requires i < |ts|
  {
    exists j | 0 <= j < i :: ts[j].dst == ts[i].src && ts[j].step < ts[i].step
  }

  ghost predicate Ready(ts: seq<Transfer>, i: nat, root: nat)
    requires i < |ts|
  {
    ts[i].src == root || Supplied(ts, i)
  }

  /** Every rank but the root receives exactly once, always from a rank that already has the data. */
  ghost predicate Floods(ts: seq<Transfer>, root: nat, lo: nat, hi: nat) {
    && Within(ts, lo, hi)
    && Receivers(ts) == Others(lo, hi, root)
    && |ts| == hi - lo - 1
    && forall i | 0 <= i < |ts| :: Ready(ts, i, root)
  }

  lemma {:induction false} SpansNode(a: seq<Transfer>, b: seq<Transfer>, t: Transfer, all: seq<Transfer>, m: nat,
        n: nat)
    requires 1 <= m == n / 2 && n >= 2
    requires Spans(a, t.step + 1, Levels(m)) && Spans(b, t.step + 1, Levels(n - m))
    requires all == a + b + [t] || all == [t] + a + b
    ensures Spans(all, t.step, Levels(n))
  {
    LevelsMonotone(m, n - m);
    assert n - m == (n + 1) / 2;
    assert forall u :: u in all <==> u in a || u in b || u == t;
    if Levels(n - m) > 0 {
      var u :| u in b && u.step == t.step + 1 + Levels(n - m) - 1;
      assert u in all;
    } else {
      assert t in all;
    }
  }

  lemma {:induction false} DrainsNode(a: seq<Transfer>, b: seq<Transfer>, t: Transfer, target: nat, ta: nat, tb: nat,
        lo: nat, mid: nat, hi: nat)
    requires lo <= ta < mid <= tb < hi
    requires Drains(a, ta, lo, mid) && Drains(b, tb, mid, hi)
    requires (target == ta && t.src == tb && t.dst == ta) || (target == tb && t.src == ta && t.dst == tb)
    ensures Drains(a + b + [t], target, lo, hi)
  {
    var all := a + b + [t];
    assert forall u :: u in all <==> u in a || u in b || u == t;
    assert Senders(all) == Senders(a) + Senders(b) + {t.src};
    forall i, j | 0 <= i < j < |all| ensures all[i].src != all[j].src && all[i].src != all[j].dst {
      assert i < |a| ==> all[i] == a[i] && all[i] in a && all[i].src in Senders(a);
      assert |a| <= i < |a| + |b| ==> all[i] == b[i - |a|] && all[i] in b && all[i].src in Senders(b);
      assert j < |a| ==> all[j] == a[j] && all[j] in a;
      assert |a| <= j < |a| + |b| ==> all[j] == b[j - |a|] && all[j] in b;
    }
  }

  /** The first transfer of a node supplies the root of the half it reaches. */
  lemma {:induction false} ReadyInHalf(half: seq<Transfer>, i: nat, all: seq<Transfer>, shift: nat, root: nat,
        halfRoot: nat)
    requires i < |half| && Ready(half, i, halfRoot)
    requires 1 <= shift && shift + |half| <= |all|
    requires forall k | 0 <= k < |half| :: all[shift + k] == half[k]
    requires halfRoot == root || (all[0].dst == halfRoot && all[0].step < half[i].step)
    ensures Ready(all, shift + i, root)
  {
    assert all[shift + i] == half[i];
    if half[i].src != halfRoot {
      var j :| 0 <= j < i && half[j].dst == half[i].src && half[j].step < half[i].step;
      assert all[shift + j] == half[j];
    }
  }

  lemma {:induction false} RootReady(ts: seq<Transfer>, root: nat)
    requires ts != [] && ts[0].src == root
    ensures Ready(ts, 0, root)
  {
  }

  lemma {:induction false} FloodsNode(a: seq<Transfer>, b: seq<Transfer>, t: Transfer, root: nat, ra: nat, rb: nat,
        lo: nat, mid: nat, hi: nat)
    requires lo <= ra < mid <= rb < hi
    requires Floods(a, ra, lo, mid) && Floods(b, rb, mid, hi)
    requires forall u | u in a || u in b :: u.step > t.step
    requires (root == ra && t.src == ra && t.dst == rb) || (root == rb && t.src == rb && t.dst == ra)
    ensures Floods([t] + a + b, root, lo, hi)
  {
    var all := [t] + a + b;
    assert forall u :: u in all <==> u in a || u in b || u == t;
    assert Receivers(all) == Receivers(a) + Receivers(b) + {t.dst};
    assert Receivers(all) == Others(lo, hi, root);
    hide Receivers, Others, Supplied;
    forall i | 0 <= i < |all| ensures Ready(all, i, root) {
      NodeReady(a, b, t, i, root, ra, rb);
    }
  }

  lemma {:induction false} NodeReady(a: seq<Transfer>, b: seq<Transfer>, t: Transfer, i: nat, root: nat, ra: nat,
        rb: nat)
    requires i < 1 + |a| + |b|
    requires forall k | 0 <= k < |a| :: Ready(a, k, ra) && a[k].step > t.step
    requires forall k | 0 <= k < |b| :: Ready(b, k, rb) && b[k].step > t.step
    requires (root == ra && t.src == ra && t.dst == rb) || (root == rb && t.src == rb && t.dst == ra)
    ensures Ready([t] + a + b, i, root)
  {
    hide Ready;
    var all := [t] + a + b;
    if i == 0 {
      RootReady(all, root);
    } else if i <= |a| {
      ReadyInHalf(a, i - 1, all, 1, root, ra);
    } else {
      ReadyInHalf(b, i - 1 - |a|, all, 1 + |a|, root, rb);
    }
  }

  // ---- reduce ----

  ghost predicate TreeRight<V>(op: (V, V) -> V, values: seq<V>) {
    values != [] ==> TreeFold(op, values, 0, |values|) == Fold(op, values)
  }

  /** The halving reduce gives the in-order fold of every list exactly when the operator is associative. */
  lemma {:induction false} TreeRightIff<V(!new)>(op: (V, V) -> V)
    ensures (forall values: seq<V> :: TreeRight(op, values)) <==> Associative(op)
  {
    if Associative(op) {
      forall values: seq<V> ensures TreeRight(op, values) {
        if values != [] {
          TreeFoldIsFold(op, values, 0, |values|);
          assert values[0..|values|] == values;
        }
      }
    }
    if forall values: seq<V> :: TreeRight(op, values) {
      forall a, b, c ensures op(op(a, b), c) == op(a, op(b, c)) {
        var v := [a, b, c];
        assert TreeRight(op, v);
        FoldSnoc(op, [a], b);
        FoldSnoc(op, [a] + [b], c);
        assert [a] + [b] + [c] == v;
        assert TreeFold(op, v, 1, 3) == op(b, c);
      }
    }
  }

  /** The recursive halving reduce over ranks [lo, hi). */
  method ReduceRange<V>(op: (V, V) -> V, acc: array<V>, ghost values: seq<V>, target: nat, lo: nat, hi: nat, step: nat)
    returns (ts: seq<Transfer>)
    requires lo <= target < hi <= acc.Length == |values|
    requires forall r | lo <= r < hi :: acc[r] == values[r]
    modifies acc
    ensures acc[target] == TreeFold(op, values, lo, hi)
    ensures forall r | 0 <= r < acc.Length && !(lo <= r < hi) :: acc[r] == old(acc[r])
    ensures Drains(ts, target, lo, hi) && Spans(ts, step, Levels(hi - lo))
    decreases hi - lo
  {
    hide Drains, Spans, Levels;
    ts := [];
    if hi - lo <= 1 {
      NoTransfers(target, lo, hi, step);
      return;
    }
    var mid := (lo + hi) / 2;
    if target < mid {
      var a := ReduceRange(op, acc, values, target, lo, mid, step + 1);
      var b := ReduceRange(op, acc, values, mid, mid, hi, step + 1);
      var t := Transfer(step, mid, target);
      ts := a + b + [t];
      acc[target] := op(acc[target], acc[mid]);
      DrainsNode(a, b, t, target, target, mid, lo, mid, hi);
      SpansNode(a, b, t, ts, mid - lo, hi - lo);
    } else {
      var a := ReduceRange(op, acc, values, lo, lo, mid, step + 1);
      var b := ReduceRange(op, acc, values, target, mid, hi, step + 1);
      var t := Transfer(step, lo, target);
      ts := a + b + [t];
      acc[target] := op(acc[lo], acc[target]);
      DrainsNode(a, b, t, target, lo, target, lo, mid, hi);
      SpansNode(a, b, t, ts, mid - lo, hi - lo);
    }
  }

  lemma {:induction false} NoTransfers(root: nat, lo: nat, hi: nat, step: nat)
    requires lo == root && hi == lo + 1
    ensures Drains([], root, lo, hi) && Floods([], root, lo, hi) && Spans([], step, Levels(hi - lo))
  {
    assert Others(lo, hi, root) == {};
  }

  /** The tree reduce: the in-order fold reaches any root, for any associative operator. */
  method Reduce<V(!new)>(op: (V, V) -> V, values: seq<V>, root: nat) returns (total: V, ts: seq<Transfer>)
    requires root < |values|
    ensures total == TreeFold(op, values, 0, |values|)
    ensures Associative(op) ==> total == Fold(op, values)
    ensures Drains(ts, root, 0, |values|) && Spans(ts, 0, Levels(|values|))
  {
    hide Associative, Fold, TreeFold, Drains, Spans, Levels;
    var acc := new V[|values|](i requires 0 <= i < |values| => values[i]);
    ts := ReduceRange(op, acc, values, root, 0, |values|, 0);
    total := acc[root];
    assert values[0..|values|] == values;
    if Associative(op) { TreeFoldIsFold(op, values, 0, |values|); }
  }

  // ---- gather ----

  /** The (rank, value) pairs of ranks [lo, hi) in rank order. */
  function Entries<V>(values: seq<V>, lo: nat, hi: nat): (e: seq<(nat, V)>)
    requires lo <= hi <= |values|
  {
    seq(hi - lo, i requires 0 <= i < hi - lo => (lo + i, values[lo + i]))
  }

  /** The recursive gather over ranks [lo, hi): the target ends with every pair in rank order, all others with nothing. */
  method GatherRange<V>(held: array<seq<(nat, V)>>, ghost values: seq<V>, target: nat, lo: nat, hi: nat, step: nat)
    returns (ts: seq<Transfer>)
    requires lo <= target < hi <= held.Length == |values|
    requires forall r | lo <= r < hi :: held[r] == [(r, values[r])]
    modifies held
    ensures held[target] == Entries(values, lo, hi)
    ensures forall r | lo <= r < hi && r != target :: held[r] == []
    ensures forall r | 0 <= r < held.Length && !(lo <= r < hi) :: held[r] == old(held[r])
    ensures Drains(ts, target, lo, hi) && Spans(ts, step, Levels(hi - lo))
    decreases hi - lo
  {
    hide Drains, Spans, Levels;
    ts := [];
    if hi - lo <= 1 {
      NoTransfers(target, lo, hi, step);
      assert Entries(values, lo, hi) == [(lo, values[lo])];
      return;
    }
    var mid := (lo + hi) / 2;
    assert Entries(values, lo, hi) == Entries(values, lo, mid) + Entries(values, mid, hi);
    if target < mid {
      var a := GatherRange(held, values, target, lo, mid, step + 1);
      var b := GatherRange(held, values, mid, mid, hi, step + 1);
      var t := Transfer(step, mid, target);
      ts := a + b + [t];
      held[target] := held[target] + held[mid];
      held[mid] := [];
      DrainsNode(a, b, t, target, target, mid, lo, mid, hi);
      SpansNode(a, b, t, ts, mid - lo, hi - lo);
    } else {
      var a := GatherRange(held, values, lo, lo, mid, step + 1);
      var b := GatherRange(held, values, target, mid, hi, step + 1);
      var t := Transfer(step, lo, target);
      ts := a + b + [t];
      held[target] := held[lo] + held[target];
      held[lo] := [];
      DrainsNode(a, b, t, target, lo, target, lo, mid, hi);
      SpansNode(a, b, t, ts, mid - lo, hi - lo);
    }
  }

  /** The tree gather: the root receives every value in rank order. */
  method Gather<V>(values: seq<V>, root: nat) returns (all: seq<V>, ts: seq<Transfer>)
    requires root < |values|
    ensures all == values
    ensures Drains(ts, root, 0, |values|) && Spans(ts, 0, Levels(|values|))
  {
    var held := new seq<(nat, V)>[|values|](i requires 0 <= i < |values| => [(i, values[i])]);
    ts := GatherRange(held, values, root, 0, |values|, 0);
    var pairs := held[root];
    all := seq(|pairs|, i requires 0 <= i < |pairs| => pairs[i].1);
  }

  // ---- scatter ----

  /** The chunks of ranks [lo, hi), sent in one message. */
  datatype Block = Block(lo: nat, hi: nat)

  /** Message j brought the sender of message i every chunk that message i carries. */
  ghost predicate Feeds(ts: seq<Transfer>, sent: seq<Block>, j: nat, i: nat)
    requires j < |ts| == |sent| && i < |ts|
  {
    ts[j].dst == ts[i].src && sent[j].lo <= sent[i].lo && sent[i].hi <= sent[j].hi
  }

  ghost predicate Fed(ts: seq<Transfer>, sent: seq<Block>, i: nat, root: nat)
    requires i < |ts| == |sent|
  {
    ts[i].src == root || exists j: nat | j < i :: Feeds(ts, sent, j, i)
  }

  /** Every message carries its receiver's own chunk, and only chunks that its sender has received before. */
  ghost predicate Forwards(ts: seq<Transfer>, sent: seq<Block>, root: nat, lo: nat, hi: nat) {
    && |sent| == |ts|
    && forall i | 0 <= i < |ts| :: Fits(ts, sent, i, lo, hi) && Fed(ts, sent, i, root)
  }

  ghost predicate Fits(ts: seq<Transfer>, sent: seq<Block>, i: nat, lo: nat, hi: nat)
    requires i < |ts| == |sent|
  {
    lo <= sent[i].lo <= ts[i].dst < sent[i].hi <= hi
  }

  lemma {:induction false} FedInHalf(half: seq<Transfer>, sent: seq<Block>, i: nat, all: seq<Transfer>, blocks: seq<Block>,
        shift: nat, root: nat, halfRoot: nat)
    requires i < |half| == |sent| && Fed(half, sent, i, halfRoot)
    requires 1 <= shift && shift + |half| <= |all| == |blocks|
    requires forall k | 0 <= k < |half| :: all[shift + k] == half[k] && blocks[shift + k] == sent[k]
    requires halfRoot == root || (all[0].dst == halfRoot && blocks[0].lo <= sent[i].lo && sent[i].hi <= blocks[0].hi)
    ensures Fed(all, blocks, shift + i, root)
  {
    assert all[shift + i] == half[i] && blocks[shift + i] == sent[i];
    if half[i].src != halfRoot {
      var j: nat :| j < i && Feeds(half, sent, j, i);
      assert all[shift + j] == half[j] && blocks[shift + j] == sent[j];
      assert Feeds(all, blocks, shift + j, shift + i);
    } else if halfRoot != root {
      assert Feeds(all, blocks, 0, shift + i);
    }
  }

  lemma {:induction false} NodeFed(a: seq<Transfer>, sa: seq<Block>, b: seq<Transfer>, sb: seq<Block>, t: Transfer,
        block: Block, i: nat, root: nat, ra: nat, rb: nat, lo: nat, mid: nat, hi: nat)
    requires lo <= ra < mid <= rb < hi && i < 1 + |a| + |b|
    requires Forwards(a, sa, ra, lo, mid) && Forwards(b, sb, rb, mid, hi)
    requires (root == ra && t.src == ra && t.dst == rb && block == Block(mid, hi))
      || (root == rb && t.src == rb && t.dst == ra && block == Block(lo, mid))
    ensures Fits([t] + a + b, [block] + sa + sb, i, lo, hi) && Fed([t] + a + b, [block] + sa + sb, i, root)
  {
    var all, sent := [t] + a + b, [block] + sa + sb;
    hide Fed;
    if i == 0 {
      FedByRoot(all, sent, root);
    } else if i <= |a| {
      assert all[i] == a[i - 1] && sent[i] == sa[i - 1];
      FedInHalf(a, sa, i - 1, all, sent, 1, root, ra);
    } else {
      assert all[i] == b[i - 1 - |a|] && sent[i] == sb[i - 1 - |a|];
      FedInHalf(b, sb, i - 1 - |a|, all, sent, 1 + |a|, root, rb);
    }
  }

  lemma {:induction false} ForwardsNode(a: seq<Transfer>, sa: seq<Block>, b: seq<Transfer>, sb: seq<Block>, t: Transfer,
        block: Block, root: nat, ra: nat, rb: nat, lo: nat, mid: nat, hi: nat)
    requires lo <= ra < mid <= rb < hi
    requires Forwards(a, sa, ra, lo, mid) && Forwards(b, sb, rb, mid, hi)
    requires (root == ra && t.src == ra && t.dst == rb && block == Block(mid, hi))
      || (root == rb && t.src == rb && t.dst == ra && block == Block(lo, mid))
    ensures Forwards([t] + a + b, [block] + sa + sb, root, lo, hi)
  {
    hide Fed, Fits;
    forall i | 0 <= i < |[t] + a + b|
      ensures Fits([t] + a + b, [block] + sa + sb, i, lo, hi) && Fed([t] + a + b, [block] + sa + sb, i, root)
    {
      NodeFed(a, sa, b, sb, t, block, i, root, ra, rb, lo, mid, hi);
    }
  }

  lemma {:induction false} FedByRoot(ts: seq<Transfer>, sent: seq<Block>, root: nat)
    requires |ts| == |sent| > 0 && ts[0].src == root
    ensures Fed(ts, sent, 0, root)
  {
  }

  /** The recursive scatter of the chunks of ranks [lo, hi) from their holder; message i carries block `sent[i]`. */
  method ScatterRange<V>(chunks: seq<V>, out: array<Option<V>>, holder: nat, lo: nat, hi: nat, step: nat)
    returns (ts: seq<Transfer>, sent: seq<Block>)
    requires lo <= holder < hi <= out.Length == |chunks|
    modifies out
    ensures forall r | lo <= r < hi :: out[r] == Some(chunks[r])
    ensures forall r | 0 <= r < out.Length && !(lo <= r < hi) :: out[r] == old(out[r])
    ensures Floods(ts, holder, lo, hi) && Spans(ts, step, Levels(hi - lo)) && Forwards(ts, sent, holder, lo, hi)
    decreases hi - lo
  {
    hide Floods, Spans, Levels, Forwards;
    ts, sent := [], [];
    if hi - lo <= 1 {
      out[lo] := Some(chunks[lo]);
      NoTransfers(holder, lo, hi, step);
      NothingForwarded(holder, lo, hi);
      return;
    }
    var mid := (lo + hi) / 2;
    if holder < mid {
      var a, sa := ScatterRange(chunks, out, holder, lo, mid, step + 1);
      var b, sb := ScatterRange(chunks, out, mid, mid, hi, step + 1);
      var t := Transfer(step, holder, mid);
      ts, sent := [t] + a + b, [Block(mid, hi)] + sa + sb;
      ScatterNode(a, b, t, holder, holder, mid, lo, mid, hi);
      ForwardsNode(a, sa, b, sb, t, Block(mid, hi), holder, holder, mid, lo, mid, hi);
    } else {
      var a, sa := ScatterRange(chunks, out, lo, lo, mid, step + 1);
      var b, sb := ScatterRange(chunks, out, holder, mid, hi, step + 1);
      var t := Transfer(step, holder, lo);
      ts, sent := [t] + a + b, [Block(lo, mid)] + sa + sb;
      ScatterNode(a, b, t, holder, lo, holder, lo, mid, hi);
      ForwardsNode(a, sa, b, sb, t, Block(lo, mid), holder, lo, holder, lo, mid, hi);
    }
  }

  lemma {:induction false} NothingForwarded(root: nat, lo: nat, hi: nat)
    ensures Forwards([], [], root, lo, hi)
  {
  }

  lemma {:induction false} ScatterNode(a: seq<Transfer>, b: seq<Transfer>, t: Transfer, root: nat, ra: nat, rb: nat,
        lo: nat, mid: nat, hi: nat)
    requires lo <= ra < mid <= rb < hi && mid == (lo + hi) / 2
    requires Floods(a, ra, lo, mid) && Spans(a, t.step + 1, Levels(mid - lo))
    requires Floods(b, rb, mid, hi) && Spans(b, t.step + 1, Levels(hi - mid))
    requires (root == ra && t.src == ra && t.dst == rb) || (root == rb && t.src == rb && t.dst == ra)
    ensures Floods([t] + a + b, root, lo, hi) && Spans([t] + a + b, t.step, Levels(hi - lo))
  {
    assert forall u | u in a || u in b :: u.step > t.step;
    hide Floods, Levels;
    FloodsNode(a, b, t, root, ra, rb, lo, mid, hi);
    hide Spans;
    SpansNode(a, b, t, [t] + a + b, mid - lo, hi - lo);
  }

  /** The tree scatter: every rank receives its own chunk, from any root. */
  method Scatter<V>(chunks: seq<V>, root: nat) returns (out: seq<V>, ts: seq<Transfer>, sent: seq<Block>)
    requires root < |chunks|
    ensures out == chunks
    ensures Floods(ts, root, 0, |chunks|) && Spans(ts, 0, Levels(|chunks|)) && Forwards(ts, sent, root, 0, |chunks|)
  {
    var slots := new Option<V>[|chunks|](_ => None);
    ts, sent := ScatterRange(chunks, slots, root, 0, |chunks|, 0);
    out := seq(|chunks|, i requires 0 <= i < |chunks| && slots.Length == |chunks| && slots[i].Some? reads slots => slots[i].value);
  }
}
