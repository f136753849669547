/** Reduction operators and plain in-order folds, the reference every collective is compared with. */
module Folds {
  ghost predicate Associative<V(!new)>(op: (V, V) -> V) { forall a, b, c :: op(op(a, b), c) == op(a, op(b, c)) }

  ghost predicate HasUnit<V(!new)>(op: (V, V) -> V, e: V) { forall x :: op(e, x) == x && op(x, e) == x }

  ghost predicate Commutative<V(!new)>(op: (V, V) -> V) { forall a, b :: op(a, b) == op(b, a) }

  /** Left fold of a nonempty list. */
  function Fold<V>(op: (V, V) -> V, s: seq<V>): V
    requires s != []
  {
    if |s| == 1 then s[0] else op(Fold(op, s[..|s| - 1]), s[|s| - 1])
  }

  lemma {:induction false} FoldSnoc<V>(op: (V, V) -> V, s: seq<V>, v: V)
    requires s != []
    ensures Fold(op, s + [v]) == op(Fold(op, s), v)
  {
    assert (s + [v])[..|s|] == s;
  }

  lemma {:induction false} FoldConcat<V(!new)>(op: (V, V) -> V, s: seq<V>, t: seq<V>)
    requires Associative(op) && s != [] && t != []
    ensures Fold(op, s + t) == op(Fold(op, s), Fold(op, t))
    decreases |t|
  {
    var front, last := t[..|t| - 1], t[|t| - 1];
    if |t| == 1 {
      assert s + t == s + [last];
      FoldSnoc(op, s, last);
    } else {
      FoldConcat(op, s, front);
      assert s + t == (s + front) + [last];
      FoldSnoc(op, s + front, last);
    }
  }

  /** The fold of two adjacent stretches of a list. */
  lemma {:induction false} FoldSplit<V(!new)>(op: (V, V) -> V, v: seq<V>, lo: nat, mid: nat, hi: nat)
    requires Associative(op) && lo < mid < hi <= |v|
    ensures Fold(op, v[lo..hi]) == op(Fold(op, v[lo..mid]), Fold(op, v[mid..hi]))
  {
    assert v[lo..hi] == v[lo..mid] + v[mid..hi];
    FoldConcat(op, v[lo..mid], v[mid..hi]);
  }

  /** Any element may be combined last. */
  lemma {:induction false} FoldExtract<V(!new)>(op: (V, V) -> V, s: seq<V>, i: nat)
    requires Associative(op) && Commutative(op) && i < |s| && |s| >= 2
    ensures Fold(op, s) == op(Fold(op, s[..i] + s[i + 1..]), s[i])
  {
    var a, b, x := s[..i], s[i + 1..], s[i];
    assert s == a + ([x] + b);
    if b == [] {
      assert a + b == a && s == a + [x];
      FoldSnoc(op, a, x);
    } else {
      FoldConcat(op, [x], b);
      assert Fold(op, [x]) == x;
      if a == [] {
        assert a + b == b && s == [x] + b;
      } else {
        FoldConcat(op, a, [x] + b);
        FoldConcat(op, a, b);
        var fa, fb := Fold(op, a), Fold(op, b);
        assert op(fa, op(x, fb)) == op(fa, op(fb, x)) == op(op(fa, fb), x);
      }
    }
  }

  lemma {:induction false} DropOne<V>(t: seq<V>, i: nat)
    requires i < |t|
    ensures multiset(t[..i] + t[i + 1..]) == multiset(t) - multiset{t[i]}
    ensures t[i] in multiset(t)
  {
    assert t == t[..i] + [t[i]] + t[i + 1..];
    assert multiset(t) == multiset(t[..i]) + multiset{t[i]} + multiset(t[i + 1..]);
  }

  /** Taking the last element of a list out of a reordering of it. */
  lemma {:induction false} ExtractLast<V>(s: seq<V>, t: seq<V>) returns (i: nat)
    requires s != [] && multiset(s) == multiset(t)
    ensures |t| == |s| && i < |t| && t[i] == s[|s| - 1]
    ensures multiset(s[..|s| - 1]) == multiset(t[..i] + t[i + 1..])
  {
    assert |multiset(s)| == |s| && |multiset(t)| == |t|;
    var n := |s| - 1;
    DropOne(s, n);
    assert s[n] in multiset(t);
    i :| 0 <= i < |t| && t[i] == s[n];
    DropOne(t, i);
    assert s[..n] + s[n + 1..] == s[..n];
  }

  /** For a commutative operator the order of the operands does not matter. */
  lemma {:induction false} FoldReordered<V(!new)>(op: (V, V) -> V, s: seq<V>, t: seq<V>)
    requires Associative(op) && Commutative(op) && s != [] && multiset(s) == multiset(t)
    ensures t != [] && Fold(op, s) == Fold(op, t)
    decreases |s|
  {
    hide Associative, Commutative;
    var i := ExtractLast(s, t);
    if |s| > 1 {
      FoldReordered(op, s[..|s| - 1], t[..i] + t[i + 1..]);
      FoldExtract(op, t, i);
    }
  }

  // ---- halving ----

  /** The combination of a range by halves: each half first, then their results. */
  function TreeFold<V>(op: (V, V) -> V, values: seq<V>, lo: nat, hi: nat): V
    requires lo < hi <= |values|
    decreases hi - lo
  {
    if hi - lo == 1 then values[lo]
    else
      var mid := (lo + hi) / 2;
      op(TreeFold(op, values, lo, mid), TreeFold(op, values, mid, hi))
  }

  lemma {:induction false} TreeFoldIsFold<V(!new)>(op: (V, V) -> V, values: seq<V>, lo: nat, hi: nat)
    requires Associative(op) && lo < hi <= |values|
    ensures TreeFold(op, values, lo, hi) == Fold(op, values[lo..hi])
    decreases hi - lo
  {
    if hi - lo == 1 {
      assert values[lo..hi] == [values[lo]];
    } else {
      var mid := (lo + hi) / 2;
      TreeFoldIsFold(op, values, lo, mid);
      TreeFoldIsFold(op, values, mid, hi);
      FoldSplit(op, values, lo, mid, hi);
    }
  }

  // ---- powers of two and levels ----

  function Pow2(k: nat): (p: nat)
    ensures p >= 1
  {
    if k == 0 then 1 else 2 * Pow2(k - 1)
  }

  /** Number of times n must be halved, rounding up, to reach one. */
  function Levels(n: nat): nat { if n <= 1 then 0 else 1 + Levels((n + 1) / 2) }

  /** Levels is the binary logarithm rounded up. */
  lemma {:induction false} LevelsIsCeilLog(n: nat)
    requires n >= 1
    ensures n <= Pow2(Levels(n))
    ensures n > 1 ==> Pow2(Levels(n) - 1) < n
    decreases n
  {
    if n > 1 { LevelsIsCeilLog((n + 1) / 2); }
  }

  lemma {:induction false} Pow2Monotone(j: nat, k: nat)
    requires j <= k
    ensures Pow2(j) <= Pow2(k)
    decreases k
  {
    if j < k { Pow2Monotone(j, k - 1); }
  }

  lemma {:induction false} Pow2Splits(k: nat, l: nat)
    requires k <= l
    ensures Pow2(l) == Pow2(l - k) * Pow2(k)
    decreases l
  {
    if k < l { Pow2Splits(k, l - 1); }
  }

  /** A doubling loop that first reaches n in round k has run Levels(n) rounds. */
  lemma {:induction false} LevelsUnique(n: nat, k: nat)
    requires n >= 1 && n <= Pow2(k) && (k > 0 ==> Pow2(k - 1) < n)
    ensures k == Levels(n)
  {
    LevelsIsCeilLog(n);
    var l := Levels(n);
    if k < l { Pow2Monotone(k, l - 1); }
    if l < k { Pow2Monotone(l, k - 1); }
  }

  lemma {:induction false} LevelsMonotone(m: nat, n: nat)
    requires m <= n
    ensures Levels(m) <= Levels(n)
    decreases n
  {
    if m > 1 { LevelsMonotone((m + 1) / 2, (n + 1) / 2); }
  }

  // ---- transfers ----

  datatype Transfer = Transfer(step: nat, src: nat, dst: nat)

  /** Every transfer happens in one of the `levels` steps from `step`, and the last of them is used. */
  ghost predicate Spans(ts: seq<Transfer>, step: nat, levels: nat) {
    && (forall t | t in ts :: step <= t.step < step + levels)
    && (levels > 0 ==> exists t | t in ts :: t.step == step + levels - 1)
  }
}
