/** What each reduction schedule computes, and what it asks of the operator to be right on every list of some length. */
module OperatorLaws {
  import opened Folds
  import opened RingCollectives
  import Doubling = DoublingCollectives

  datatype Algorithm = Linear | Tree | Ring | RecursiveDoubling | Pairwise

  /** What rank r holds after an allreduce. */
  function AllReduced<V>(algorithm: Algorithm, op: (V, V) -> V, values: seq<V>, r: nat): V
    requires r < |values|
  {
    match algorithm
    case Linear => Fold(op, values)
    case Pairwise => Fold(op, values)
    case Tree => TreeFold(op, values, 0, |values|)
    case RecursiveDoubling =>
      if Doubling.PowerOfTwo(|values|) then TreeFold(op, values, 0, |values|) else Fold(op, values)
    case Ring => Fold(op, RingOrder(values, r, |values|))
  }

  /** What the root holds after a reduce. */
  function Reduced<V>(algorithm: Algorithm, op: (V, V) -> V, values: seq<V>, root: nat): V
    requires root < |values|
  {
    match algorithm
    case Linear => Fold(op, RootFirst(values, root))
    case Pairwise => Fold(op, RootFirst(values, root))
    case Tree => TreeFold(op, values, 0, |values|)
    case RecursiveDoubling => TreeFold(op, values, 0, |values|)
    case Ring => if |values| == 1 then values[0] else op(values[root], Fold(op, AfterRoot(values, root)))
  }

  /** The allreduce leaves the in-order fold on every rank, for every list of length n. */
  ghost predicate AllReduceRight<V(!new)>(algorithm: Algorithm, op: (V, V) -> V, n: nat) {
    forall values: seq<V>, r: nat | |values| == n && r < n :: AllReduced(algorithm, op, values, r) == Fold(op, values)
  }

  ghost predicate ReduceRight<V(!new)>(algorithm: Algorithm, op: (V, V) -> V, n: nat, root: nat) {
    forall values: seq<V> | |values| == n && root < n :: Reduced(algorithm, op, values, root) == Fold(op, values)
  }

  /** The law an allreduce over n ranks asks for. */
  ghost predicate AllReduceLaw<V(!new)>(algorithm: Algorithm, op: (V, V) -> V, n: nat) {
    match algorithm
    case Linear => true
    case Pairwise => true
    case Tree => n <= 2 || Associative(op)
    case RecursiveDoubling => n <= 2 || !Doubling.PowerOfTwo(n) || Associative(op)
    case Ring => n <= 1 || (Commutative(op) && (n == 2 || Associative(op)))
  }

  /** The law a reduce of n ranks to a root asks for. */
  ghost predicate ReduceLaw<V(!new)>(algorithm: Algorithm, op: (V, V) -> V, n: nat, root: nat) {
    match algorithm
    case Linear => root == 0 || (Commutative(op) && (root == 1 || Associative(op)))
    case Pairwise => root == 0 || (Commutative(op) && (root == 1 || Associative(op)))
    case Tree => n <= 2 || Associative(op)
    case RecursiveDoubling => n <= 2 || Associative(op)
    case Ring =>
      if root == 0 then n <= 2 || Associative(op)
      else Commutative(op) && (root == n - 1 || Associative(op))
  }

  // ---- lists of few values and many units ----

  function Units<V>(e: V, k: nat): (u: seq<V>)
    ensures |u| == k && forall i | 0 <= i < k :: u[i] == e
  {
    seq(k, _ => e)
  }

  lemma {:induction false} FoldPad<V(!new)>(op: (V, V) -> V, e: V, s: seq<V>, k: nat)
    requires HasUnit(op, e) && s != []
    ensures Fold(op, s + Units(e, k)) == Fold(op, s)
    decreases k
  {
    if k == 0 {
      assert s + Units(e, 0) == s;
    } else {
      FoldPad(op, e, s, k - 1);
      assert s + Units(e, k) == (s + Units(e, k - 1)) + [e];
      FoldSnoc(op, s + Units(e, k - 1), e);
    }
  }

  /** The fold of two values, with units behind each. */
  lemma {:induction false} FoldTwo<V(!new)>(op: (V, V) -> V, e: V, a: V, j: nat, b: V, k: nat)
    requires HasUnit(op, e)
    ensures Fold(op, [a] + Units(e, j) + [b] + Units(e, k)) == op(a, b)
  {
    hide HasUnit;
    FoldPad(op, e, [a] + Units(e, j) + [b], k);
    FoldSnoc(op, [a] + Units(e, j), b);
    FoldPad(op, e, [a], j);
  }

  lemma {:induction false} FoldThree<V(!new)>(op: (V, V) -> V, e: V, a: V, i: nat, b: V, j: nat, c: V, k: nat)
    requires HasUnit(op, e)
    ensures Fold(op, [a] + Units(e, i) + [b] + Units(e, j) + [c] + Units(e, k)) == op(op(a, b), c)
  {
    hide HasUnit;
    FoldPad(op, e, [a] + Units(e, i) + [b] + Units(e, j) + [c], k);
    FoldSnoc(op, [a] + Units(e, i) + [b] + Units(e, j), c);
    FoldTwo(op, e, a, i, b, j);
  }

  /** A range with one value and units otherwise combines to that value. */
  lemma {:induction false} TreeOne<V(!new)>(op: (V, V) -> V, e: V, v: seq<V>, lo: nat, hi: nat, i: nat)
    requires HasUnit(op, e) && lo <= i < hi <= |v|
    requires forall k | lo <= k < hi && k != i :: v[k] == e
    ensures TreeFold(op, v, lo, hi) == v[i]
    decreases hi - lo
  {
    if hi - lo > 1 {
      var mid := (lo + hi) / 2;
      TreeOne(op, e, v, lo, mid, if i < mid then i else lo);
      TreeOne(op, e, v, mid, hi, if i < mid then mid else i);
    }
  }

  /** The list that tells the two groupings apart: a first, b in the middle, c last. */
  lemma {:induction false} TreeThree<V(!new)>(op: (V, V) -> V, e: V, n: nat, a: V, b: V, c: V) returns (v: seq<V>)
    requires HasUnit(op, e) && n >= 3
    ensures |v| == n && TreeFold(op, v, 0, n) == op(a, op(b, c)) && Fold(op, v) == op(op(a, b), c)
  {
    var mid := n / 2;
    v := [a] + Units(e, mid - 1) + [b] + Units(e, n - 2 - mid) + [c] + Units(e, 0);
    FoldThree(op, e, a, mid - 1, b, n - 2 - mid, c, 0);
    var m := (mid + n) / 2;
    TreeOne(op, e, v, 0, mid, 0);
    TreeOne(op, e, v, mid, m, mid);
    TreeOne(op, e, v, m, n, n - 1);
  }

  lemma {:induction false} TreeLaw<V(!new)>(op: (V, V) -> V, e: V, n: nat)
    requires HasUnit(op, e) && n >= 3
    requires forall values: seq<V> | |values| == n :: TreeFold(op, values, 0, n) == Fold(op, values)
    ensures Associative(op)
  {
    forall a, b, c ensures op(op(a, b), c) == op(a, op(b, c)) { var v := TreeThree(op, e, n, a, b, c); }
  }

  lemma {:induction false} SmallTree<V>(op: (V, V) -> V, values: seq<V>)
    requires 1 <= |values| <= 2
    ensures TreeFold(op, values, 0, |values|) == Fold(op, values)
  {
    if |values| == 2 {
      FoldSnoc(op, [values[0]], values[1]);
      assert values == [values[0]] + [values[1]];
      assert TreeFold(op, values, 1, 2) == values[1];
    }
  }

  lemma {:induction false} TreeIsFold<V(!new)>(op: (V, V) -> V, values: seq<V>)
    requires values != [] && (|values| <= 2 || Associative(op))
    ensures TreeFold(op, values, 0, |values|) == Fold(op, values)
  {
    hide TreeFold, Fold;
    if |values| <= 2 {
      SmallTree(op, values);
    } else {
      TreeFoldIsFold(op, values, 0, |values|);
      assert values[0..|values|] == values;
    }
  }

  // ---- the laws suffice, for any operator ----

  lemma {:induction false} SwapFirstTwo<V(!new)>(op: (V, V) -> V, a: V, b: V, rest: seq<V>)
    requires Commutative(op)
    ensures Fold(op, [b, a] + rest) == Fold(op, [a, b] + rest)
    decreases |rest|
  {
    if rest == [] {
      FoldSnoc(op, [a], b);
      FoldSnoc(op, [b], a);
      assert [a] + [b] == [a, b] + rest && [b] + [a] == [b, a] + rest;
    } else {
      var k := |rest| - 1;
      SwapFirstTwo(op, a, b, rest[..k]);
      FoldSnoc(op, [a, b] + rest[..k], rest[k]);
      FoldSnoc(op, [b, a] + rest[..k], rest[k]);
      assert [a, b] + rest == ([a, b] + rest[..k]) + [rest[k]] && [b, a] + rest == ([b, a] + rest[..k]) + [rest[k]];
    }
  }

  lemma {:induction false} RingSuffices<V(!new)>(op: (V, V) -> V, values: seq<V>, r: nat)
    requires r < |values| && AllReduceLaw(Ring, op, |values|)
    ensures Fold(op, RingOrder(values, r, |values|)) == Fold(op, values)
  {
    hide Fold;
    if |values| == 1 {
      assert RingOrder(values, r, 1) == values;
    } else if |values| == 2 {
      assert values == [values[0], values[1]] + [];
      assert RingOrder(values, r, 2) == if r == 0 then values else [values[1], values[0]] + [];
      SwapFirstTwo(op, values[0], values[1], []);
    } else {
      RingOrderKeepsElements(values, r);
      FoldReordered(op, values, RingOrder(values, r, |values|));
    }
  }

  lemma {:induction false} AllReduceLawSuffices<V(!new)>(algorithm: Algorithm, op: (V, V) -> V, values: seq<V>, r: nat)
    requires r < |values| && AllReduceLaw(algorithm, op, |values|)
    ensures AllReduced(algorithm, op, values, r) == Fold(op, values)
  {
    hide Fold, TreeFold, Associative, Commutative;
    match algorithm
    case Linear =>
    case Pairwise =>
    case Tree => TreeIsFold(op, values);
    case RecursiveDoubling => if Doubling.PowerOfTwo(|values|) { TreeIsFold(op, values); }
    case Ring => RingSuffices(op, values, r);
  }

  lemma {:induction false} LinearSuffices<V(!new)>(op: (V, V) -> V, values: seq<V>, root: nat)
    requires root < |values| && ReduceLaw(Linear, op, |values|, root)
    ensures Fold(op, RootFirst(values, root)) == Fold(op, values)
  {
    hide Fold;
    RootFirstKeepsElements(values, root);
    if root == 1 {
      assert values == [values[0], values[1]] + values[2..];
      assert RootFirst(values, 1) == [values[1], values[0]] + values[2..];
      SwapFirstTwo(op, values[0], values[1], values[2..]);
    } else if root > 1 {
      ReduceOrders(op, values, root);
    }
  }

  lemma {:induction false} RingReduceSuffices<V(!new)>(op: (V, V) -> V, values: seq<V>, root: nat)
    requires root < |values| && |values| >= 2 && ReduceLaw(Ring, op, |values|, root)
    ensures op(values[root], Fold(op, AfterRoot(values, root))) == Fold(op, values)
  {
    hide Fold;
    var last := |values| - 1;
    if root == 0 && |values| == 2 {
      assert AfterRoot(values, 0) == [values[1]] && values == [values[0]] + [values[1]];
      FoldOne(op, values[0]);
      FoldOne(op, values[1]);
      FoldSnoc(op, [values[0]], values[1]);
    } else if root == last && root > 0 {
      assert AfterRoot(values, root) == values[..last] && values == values[..last] + [values[last]];
      FoldSnoc(op, values[..last], values[last]);
    } else {
      ReduceOrders(op, values, root);
    }
  }

  lemma {:induction false} ReduceLawSuffices<V(!new)>(algorithm: Algorithm, op: (V, V) -> V, values: seq<V>, root: nat)
    requires root < |values| && ReduceLaw(algorithm, op, |values|, root)
    ensures Reduced(algorithm, op, values, root) == Fold(op, values)
  {
    hide Fold, TreeFold, Associative, Commutative;
    match algorithm
    case Linear => LinearSuffices(op, values, root);
    case Pairwise => LinearSuffices(op, values, root);
    case Tree => TreeIsFold(op, values);
    case RecursiveDoubling => TreeIsFold(op, values);
    case Ring =>
      if |values| == 1 { FoldOne(op, values[0]); assert values == [values[0]]; }
      else { RingReduceSuffices(op, values, root); }
  }

  // ---- the laws are needed, when the operator has a unit to fill the other ranks with ----

  lemma {:induction false} RingNeedsCommutative<V(!new)>(op: (V, V) -> V, e: V, n: nat, a: V, b: V)
    requires HasUnit(op, e) && n >= 2 && AllReduceRight(Ring, op, n)
    ensures op(a, b) == op(b, a)
  {
    hide HasUnit, Fold;
    var v := [a] + Units(e, 0) + [b] + Units(e, n - 2);
    FoldTwo(op, e, a, 0, b, n - 2);
    assert RingOrder(v, 1, n) == [b] + Units(e, 0) + [a] + Units(e, n - 2);
    FoldTwo(op, e, b, 0, a, n - 2);
    assert AllReduced(Ring, op, v, 1) == Fold(op, v);
  }

  lemma {:induction false} RingNeedsSwap<V(!new)>(op: (V, V) -> V, e: V, n: nat, a: V, b: V, c: V)
    requires HasUnit(op, e) && n >= 3 && AllReduceRight(Ring, op, n)
    ensures op(op(a, b), c) == op(op(a, c), b)
  {
    hide HasUnit, Fold;
    var v := [a] + Units(e, 0) + [b] + Units(e, 0) + [c] + Units(e, n - 3);
    FoldThree(op, e, a, 0, b, 0, c, n - 3);
    assert RingOrder(v, 0, n) == [a] + Units(e, n - 3) + [c] + Units(e, 0) + [b] + Units(e, 0);
    FoldThree(op, e, a, n - 3, c, 0, b, 0);
    assert AllReduced(Ring, op, v, 0) == Fold(op, v);
  }

  /** With commutativity, moving the last two operands past each other is associativity. */
  lemma {:induction false} SwapIsAssociative<V(!new)>(op: (V, V) -> V)
    requires Commutative(op) && forall a, b, c :: op(op(a, b), c) == op(op(a, c), b)
    ensures Associative(op)
  {
    forall a, b, c ensures op(op(a, b), c) == op(a, op(b, c)) {
      assert op(op(b, a), c) == op(op(b, c), a);
    }
  }

  lemma {:induction false} RingLaw<V(!new)>(op: (V, V) -> V, e: V, n: nat)
    requires HasUnit(op, e) && n >= 2 && AllReduceRight(Ring, op, n)
    ensures AllReduceLaw(Ring, op, n)
  {
    forall a, b ensures op(a, b) == op(b, a) { RingNeedsCommutative(op, e, n, a, b); }
    if n >= 3 {
      forall a, b, c ensures op(op(a, b), c) == op(op(a, c), b) { RingNeedsSwap(op, e, n, a, b, c); }
      SwapIsAssociative(op);
    }
  }

  /** For an operator with a unit, an allreduce over n ranks is right on every list exactly under its law. */
  lemma {:induction false} AllReduceRightIff<V(!new)>(algorithm: Algorithm, op: (V, V) -> V, e: V, n: nat)
    requires HasUnit(op, e) && n >= 1
    ensures AllReduceRight(algorithm, op, n) <==> AllReduceLaw(algorithm, op, n)
  {
    hide Fold, TreeFold, HasUnit;
    if AllReduceLaw(algorithm, op, n) {
      forall values: seq<V>, r: nat | |values| == n && r < n
        ensures AllReduced(algorithm, op, values, r) == Fold(op, values)
      {
        AllReduceLawSuffices(algorithm, op, values, r);
      }
    }
    if AllReduceRight(algorithm, op, n) && n >= 2 {
      if algorithm == Ring {
        RingLaw(op, e, n);
      } else if n >= 3 && (algorithm == Tree || (algorithm == RecursiveDoubling && Doubling.PowerOfTwo(n))) {
        forall values: seq<V> | |values| == n ensures TreeFold(op, values, 0, n) == Fold(op, values) {
          assert AllReduced(algorithm, op, values, 0) == Fold(op, values);
        }
        TreeLaw(op, e, n);
      }
    }
  }

  lemma {:induction false} LinearNeedsCommutative<V(!new)>(op: (V, V) -> V, e: V, n: nat, root: nat, a: V, c: V)
    requires HasUnit(op, e) && 1 <= root < n
    requires forall values: seq<V> | |values| == n :: Fold(op, RootFirst(values, root)) == Fold(op, values)
    ensures op(c, a) == op(a, c)
  {
    hide HasUnit, Fold, RootFirst;
    var before := [a] + Units(e, root - 1);
    var v := before + [c] + Units(e, n - root - 1);
    FoldTwo(op, e, a, root - 1, c, n - root - 1);
    RootMovesFirst(before, c, Units(e, n - root - 1));
    assert [c] + before + Units(e, n - root - 1) == [c] + Units(e, 0) + [a] + Units(e, n - 2);
    FoldTwo(op, e, c, 0, a, n - 2);
  }

  lemma {:induction false} RootMovesFirst<V>(before: seq<V>, x: V, after: seq<V>)
    ensures |before + [x] + after| == |before| + 1 + |after|
    ensures RootFirst(before + [x] + after, |before|) == [x] + before + after
  {
    var v := before + [x] + after;
    assert v[..|before|] == before && v[|before| + 1..] == after;
  }

  lemma {:induction false} LinearNeedsSwap<V(!new)>(op: (V, V) -> V, e: V, n: nat, root: nat, a: V, b: V, c: V)
    requires HasUnit(op, e) && 2 <= root < n
    requires forall values: seq<V> | |values| == n :: Fold(op, RootFirst(values, root)) == Fold(op, values)
    ensures op(op(c, a), b) == op(op(a, b), c)
  {
    hide HasUnit, Fold, RootFirst;
    var before := [a] + Units(e, 0) + [b] + Units(e, root - 2);
    var v := before + [c] + Units(e, n - root - 1);
    FoldThree(op, e, a, 0, b, root - 2, c, n - root - 1);
    RootMovesFirst(before, c, Units(e, n - root - 1));
    assert [c] + before + Units(e, n - root - 1) == [c] + Units(e, 0) + [a] + Units(e, 0) + [b] + Units(e, n - 3);
    FoldThree(op, e, c, 0, a, 0, b, n - 3);
  }

  lemma {:induction false} LinearLaw<V(!new)>(op: (V, V) -> V, e: V, n: nat, root: nat)
    requires HasUnit(op, e) && 1 <= root < n
    requires forall values: seq<V> | |values| == n :: Fold(op, RootFirst(values, root)) == Fold(op, values)
    ensures ReduceLaw(Linear, op, n, root)
  {
    hide HasUnit, Fold, RootFirst;
    forall a, b ensures op(a, b) == op(b, a) { LinearNeedsCommutative(op, e, n, root, b, a); }
    if root >= 2 {
      forall a, b, c ensures op(op(a, b), c) == op(op(a, c), b) {
        LinearNeedsSwap(op, e, n, root, a, b, c);
        assert op(c, a) == op(a, c);
      }
      SwapIsAssociative(op);
    }
  }

  /** The root's own value is combined with the fold of the others, in ring order. */
  lemma {:induction false} RingReduceNeeds<V(!new)>(op: (V, V) -> V, e: V, n: nat, root: nat, a: V, b: V, c: V)
    requires HasUnit(op, e) && n >= 2 && root < n && ReduceRight(Ring, op, n, root)
    ensures root == 0 && n >= 3 ==> op(a, op(b, c)) == op(op(a, b), c)
    ensures root == n - 1 ==> op(c, a) == op(a, c)
    ensures 0 < root < n - 1 ==> op(b, op(c, a)) == op(op(a, b), c)
  {
    hide HasUnit, Fold;
    if root == 0 {
      if n >= 3 {
        var v := [a] + Units(e, 0) + [b] + Units(e, 0) + [c] + Units(e, n - 3);
        FoldThree(op, e, a, 0, b, 0, c, n - 3);
        assert AfterRoot(v, 0) == [b] + Units(e, 0) + [c] + Units(e, n - 3);
        FoldTwo(op, e, b, 0, c, n - 3);
        assert Reduced(Ring, op, v, 0) == Fold(op, v);
      }
    } else if root == n - 1 {
      var v := [a] + Units(e, n - 2) + [c] + Units(e, 0);
      FoldTwo(op, e, a, n - 2, c, 0);
      assert AfterRoot(v, root) == [a] + Units(e, n - 2);
      FoldPad(op, e, [a], n - 2);
      FoldOne(op, a);
      assert Reduced(Ring, op, v, root) == Fold(op, v);
    } else {
      var v := [a] + Units(e, root - 1) + [b] + Units(e, 0) + [c] + Units(e, n - root - 2);
      FoldThree(op, e, a, root - 1, b, 0, c, n - root - 2);
      assert AfterRoot(v, root) == [c] + Units(e, n - root - 2) + [a] + Units(e, root - 1);
      FoldTwo(op, e, c, n - root - 2, a, root - 1);
      assert Reduced(Ring, op, v, root) == Fold(op, v);
    }
  }

  lemma {:induction false} RingReduceLaw<V(!new)>(op: (V, V) -> V, e: V, n: nat, root: nat)
    requires HasUnit(op, e) && n >= 2 && root < n && ReduceRight(Ring, op, n, root)
    ensures ReduceLaw(Ring, op, n, root)
  {
    hide Fold, AfterRoot, ReduceRight;
    if root == 0 {
      if n >= 3 {
        forall a, b, c ensures op(op(a, b), c) == op(a, op(b, c)) { RingReduceNeeds(op, e, n, root, a, b, c); }
      }
    } else {
      forall a, b ensures op(a, b) == op(b, a) {
        RingReduceNeeds(op, e, n, root, a, b, e);
        RingReduceNeeds(op, e, n, root, b, e, a);
      }
      if root < n - 1 {
        forall a, b, c ensures op(op(a, b), c) == op(op(a, c), b) {
          RingReduceNeeds(op, e, n, root, a, b, c);
          assert op(b, op(c, a)) == op(op(c, a), b) == op(op(a, c), b);
        }
        SwapIsAssociative(op);
      }
    }
  }

  /** For an operator with a unit, a reduce of n ranks to a root is right on every list exactly under its law. */
  lemma {:induction false} ReduceRightIff<V(!new)>(algorithm: Algorithm, op: (V, V) -> V, e: V, n: nat, root: nat)
    requires HasUnit(op, e) && root < n
    ensures ReduceRight(algorithm, op, n, root) <==> ReduceLaw(algorithm, op, n, root)
  {
    hide Fold, TreeFold, HasUnit;
    if ReduceLaw(algorithm, op, n, root) {
      forall values: seq<V> | |values| == n ensures Reduced(algorithm, op, values, root) == Fold(op, values) {
        ReduceLawSuffices(algorithm, op, values, root);
      }
    }
    if ReduceRight(algorithm, op, n, root) && n >= 2 {
      match algorithm
      case Ring => RingReduceLaw(op, e, n, root);
      case Tree => TreeReduceLaw(Tree, op, e, n, root);
      case RecursiveDoubling => TreeReduceLaw(RecursiveDoubling, op, e, n, root);
      case _ =>
        if root > 0 {
          forall values: seq<V> | |values| == n ensures Fold(op, RootFirst(values, root)) == Fold(op, values) {
            assert Reduced(algorithm, op, values, root) == Fold(op, values);
          }
          LinearLaw(op, e, n, root);
        }
    }
  }

  lemma {:induction false} TreeReduceLaw<V(!new)>(algorithm: Algorithm, op: (V, V) -> V, e: V, n: nat, root: nat)
    requires HasUnit(op, e) && root < n && n >= 2 && algorithm in {Tree, RecursiveDoubling}
    requires ReduceRight(algorithm, op, n, root)
    ensures n <= 2 || Associative(op)
  {
    hide Fold, TreeFold, HasUnit;
    if n >= 3 {
      forall values: seq<V> | |values| == n ensures TreeFold(op, values, 0, n) == Fold(op, values) {
        assert Reduced(algorithm, op, values, root) == Fold(op, values);
      }
      TreeLaw(op, e, n);
    }
  }

  // ---- the operator `concat` on lists of characters, and an operator without a unit ----

  function Concat(a: string, b: string): string { a + b }

  lemma {:induction false} ConcatLaws()
    ensures HasUnit(Concat, "") && Associative(Concat) && !Commutative(Concat)
  {
    forall a, b, c ensures Concat(Concat(a, b), c) == Concat(a, Concat(b, c)) { assert (a + b) + c == a + (b + c); }
    forall a ensures Concat("", a) == a && Concat(a, "") == a { assert "" + a == a && a + "" == a; }
    assert Concat("a", "b")[0] == 'a' && Concat("b", "a")[0] == 'b';
  }

  /** On a ring of three, rank 1 concatenates "a", "b" and "c" to "bac". */
  lemma {:induction false} ConcatOnARing()
    ensures AllReduced(Ring, Concat, ["a", "b", "c"], 1) == "bac" && Fold(Concat, ["a", "b", "c"]) == "abc"
  {
    assert RingOrder(["a", "b", "c"], 1, 3) == ["b", "a", "c"];
    FoldOfThree(Concat, "b", "a", "c");
    FoldOfThree(Concat, "a", "b", "c");
  }

  function OneTwo(a: int, b: int): int { if a == 1 && b == 2 then 3 else 0 }

  /** Without a unit the law is not needed: this operator does not commute, yet a ring of three is right. */
  lemma {:induction false} UnitIsNeeded()
    ensures !Commutative(OneTwo) && Associative(OneTwo) && AllReduceRight(Ring, OneTwo, 3)
  {
    assert OneTwo(1, 2) == 3 && OneTwo(2, 1) == 0;
    forall values: seq<int>, r: nat | |values| == 3 && r < 3
      ensures AllReduced(Ring, OneTwo, values, r) == Fold(OneTwo, values)
    {
      var o := RingOrder(values, r, 3);
      assert o == [o[0], o[1], o[2]] && values == [values[0], values[1], values[2]];
      FoldOfThree(OneTwo, o[0], o[1], o[2]);
      FoldOfThree(OneTwo, values[0], values[1], values[2]);
    }
  }
}
