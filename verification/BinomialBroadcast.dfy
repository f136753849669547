/** The binomial broadcast over a range of ranks and the tree scan, which uses it from the first rank of the right half. */
module BinomialBroadcasts {
  import opened Basics
  import opened Folds
  import opened TreeCollectives

  /** The rank a sender at relative distance x reaches in the round with distance dist. */
  function Destination(lo: nat, n: nat, root: nat, sender: nat, dist: nat): (d: nat)
    requires n > 0 && lo <= root && lo <= sender
    ensures lo <= d < lo + n
  {
    lo + ((sender - lo) % n + dist + (root - lo)) % n
  }

  /** The rank that no round reaches when the root is not the first rank. */
  function Stranded(lo: nat, n: nat, root: nat): (d: nat)
    requires n > 0 && lo <= root
    ensures lo <= d < lo + n
  {
    lo + (root - lo + 1) % n
  }

  lemma {:induction false} StrandedIsMissed(lo: nat, n: nat, root: nat, sender: nat, dist: nat)
    requires lo <= root < lo + n && lo <= sender < lo + n && 1 <= dist && sender - lo + dist < n
    requires sender != lo || dist != 1
    ensures Destination(lo, n, root, sender, dist) != Stranded(lo, n, root)
  {
    ModRange(sender - lo, n);
    ModRange(sender - lo + dist + (root - lo), n);
    ModRange(root - lo + 1, n);
  }

  /** With the root first: ranks are reached in order, each by a rank that was reached in an earlier round. */
  ghost predicate InOrder(ts: seq<Transfer>, lo: nat, hi: nat) {
    && lo + |ts| < hi
    && forall i | 0 <= i < |ts| :: ts[i].dst == lo + i + 1 && lo <= ts[i].src <= lo + i
  }

  ghost predicate Timed(ts: seq<Transfer>, lo: nat) {
    forall i | 0 <= i < |ts| && lo < ts[i].src :: 0 <= ts[i].src - lo - 1 < |ts| && ts[ts[i].src - lo - 1].step < ts[i].step
  }

  lemma {:induction false} InOrderFloods(ts: seq<Transfer>, lo: nat, hi: nat)
    requires InOrder(ts, lo, hi) && Timed(ts, lo) && lo + |ts| + 1 == hi
    ensures Floods(ts, lo, lo, hi)
  {
    forall i | 0 <= i < |ts| ensures Ready(ts, i, lo) {
      if ts[i].src != lo {
        var j := ts[i].src - lo - 1;
        assert ts[j].dst == ts[i].src && ts[j].step < ts[i].step;
      }
    }
    forall r | r in Others(lo, hi, lo) ensures r in Receivers(ts) {
      assert Other(r, lo, hi, lo) && ts[r - lo - 1] in ts && ts[r - lo - 1].dst == r;
    }
    forall r | r in Receivers(ts) ensures r in Others(lo, hi, lo) {
      assert Other(r, lo, hi, lo);
    }
  }

  /** The buffer differs from its first contents exactly in the ranks that have the value. */
  ghost predicate Holders<V>(now: seq<Option<V>>, first: seq<Option<V>>, root: nat, have: seq<nat>) {
    && root in have && root < |first| == |now|
    && forall r | 0 <= r < |now| :: now[r] == if r in have then first[root] else first[r]
  }

  /** With the root first: who has the value, and how it got there. */
  ghost predicate Reached(have: seq<nat>, ts: seq<Transfer>, lo: nat, hi: nat) {
    && (forall i | 0 <= i < |have| :: have[i] == lo + i)
    && |ts| == |have| - 1
    && InOrder(ts, lo, hi) && Timed(ts, lo)
  }

  lemma {:induction false} ReachedStep(have: seq<nat>, ts: seq<Transfer>, lo: nat, hi: nat, t: Transfer)
    requires Reached(have, ts, lo, hi) && lo + |have| < hi && t.dst == lo + |have|
    requires lo <= t.src < lo + |have|
    requires t.src != lo ==> ts[t.src - lo - 1].step < t.step
    ensures Reached(have + [t.dst], ts + [t], lo, hi)
  {
  }

  lemma {:induction false} HoldersStep<V>(now: seq<Option<V>>, first: seq<Option<V>>, root: nat, have: seq<nat>,
        src: nat, d: nat)
    requires Holders(now, first, root, have) && src in have && src < |now| && d < |now|
    ensures Holders(now[d := now[src]], first, root, have + [d])
  {
  }

  /**
   * One round: every rank that has the value at the start of the round sends it `dist` further on.
   * With the root at lo the first 2 * dist ranks then have it; with any other root, one rank is passed over.
   */
  method Round<V>(buf: array<Option<V>>, ghost first: seq<Option<V>>, root: nat, lo: nat, hi: nat, dist: nat, step: nat,
      have: seq<nat>, ts: seq<Transfer>)
    returns (have': seq<nat>, ts': seq<Transfer>)
    requires lo <= root < hi <= buf.Length && 1 <= dist < hi - lo
    requires Holders(buf[..], first, root, have) && forall v | v in have :: lo <= v < hi
    requires root == lo ==> |have| == dist && Reached(have, ts, lo, hi)
    requires root != lo && dist == 1 ==> have == [root]
    requires forall t | t in ts :: t.step < step
    modifies buf
    ensures Holders(buf[..], first, root, have') && forall v | v in have' :: lo <= v < hi
    ensures root == lo ==> |have'| == Min(2 * dist, hi - lo) && Reached(have', ts', lo, hi)
    ensures root != lo && Stranded(lo, hi - lo, root) !in have ==> Stranded(lo, hi - lo, root) !in have'
    ensures ts <= ts' && forall t | t in ts' :: t in ts || t.step == step
    ensures root == lo ==> |ts'| > |ts| && ts'[|ts|].step == step
  {
    hide Holders, Reached, Destination, Stranded;
    var n := hi - lo;
    have', ts' := have, ts;
    for k := 0 to |have|
      invariant have <= have'
      invariant Holders(buf[..], first, root, have') && forall v | v in have' :: lo <= v < hi
      invariant root == lo ==> |have'| == Min(dist + k, n) && Reached(have', ts', lo, hi)
      invariant root != lo && Stranded(lo, n, root) !in have ==> Stranded(lo, n, root) !in have'
      invariant ts <= ts' && forall t | t in ts' :: t in ts || t.step == step
      invariant k == 0 ==> ts' == ts
      invariant root == lo && k > 0 ==> |ts'| > |ts| && ts'[|ts|].step == step
    {
      var v := have[k];
      assert v in have && v in have';
      ModRange(v - lo, n);
      if (v - lo) % n + dist < n {
        var d := Destination(lo, n, root, v, dist);
        var t := Transfer(step, v, d);
        HoldersStep(buf[..], first, root, have', v, d);
        if root != lo {
          assert dist == 1 ==> v == root;
          StrandedIsMissed(lo, n, root, v, dist);
        } else {
          FirstRootStep(have, ts, have', ts', lo, hi, dist, k, step);
        }
        ghost var now := buf[..];
        ts' := ts' + [t];
        buf[d] := buf[v];
        assert buf[..] == now[d := now[v]];
        have' := have' + [d];
      } else if root == lo {
        assert v == lo + k by { ReachedAt(have, ts, lo, hi, k); }
      }
    }
  }

  lemma {:induction false} ReachedAt(have: seq<nat>, ts: seq<Transfer>, lo: nat, hi: nat, k: nat)
    requires Reached(have, ts, lo, hi) && k < |have|
    ensures have[k] == lo + k
  {
  }

  lemma {:induction false} FirstRootStep(have: seq<nat>, ts: seq<Transfer>, have': seq<nat>, ts': seq<Transfer>,
      lo: nat, hi: nat, dist: nat, k: nat, step: nat)
    requires lo < hi && Reached(have, ts, lo, hi) && Reached(have', ts', lo, hi) && ts <= ts'
    requires |have| == dist && k < dist && have[k] - lo + dist < hi - lo && |have'| == Min(dist + k, hi - lo)
    requires forall t | t in ts :: t.step < step
    ensures have[k] == lo + k && Destination(lo, hi - lo, lo, have[k], dist) == lo + |have'| < hi
    ensures Reached(have' + [lo + |have'|], ts' + [Transfer(step, have[k], lo + |have'|)], lo, hi)
  {
    ModRange(k, hi - lo);
    ModRange(k + dist, hi - lo);
    if k > 0 {
      assert ts'[k - 1] == ts[k - 1] && ts[k - 1] in ts;
    }
    ReachedStep(have', ts', lo, hi, Transfer(step, have[k], lo + |have'|));
  }

  /** The binomial broadcast of buf[root] into ranks [lo, hi); returns the number of rounds. */
  method BinomialBroadcast<V>(buf: array<Option<V>>, root: nat, lo: nat, hi: nat, step0: nat)
    returns (rounds: nat, ts: seq<Transfer>)
    requires lo <= root < hi <= buf.Length
    modifies buf
    ensures rounds == Levels(hi - lo)
    ensures forall r | 0 <= r < buf.Length && !(lo <= r < hi) :: buf[r] == old(buf[r])
    ensures forall r | lo <= r < hi :: buf[r] == old(buf[r]) || buf[r] == old(buf[root])
    ensures root == lo ==> forall r | lo <= r < hi :: buf[r] == old(buf[root])
    ensures root == lo ==> Floods(ts, root, lo, hi) && Spans(ts, step0, Levels(hi - lo))
    ensures root != lo ==> var s := Stranded(lo, hi - lo, root); s != root && buf[s] == old(buf[s])
  {
    hide Holders, Reached, Stranded, Floods, Levels;
    var n := hi - lo;
    ts := [];
    ghost var first, stranded := buf[..], Stranded(lo, n, root);
    StrandedIsNotRoot(lo, n, root);
    StartHolders(first, root, lo, hi);
    if n <= 1 {
      NoTransfers(root, lo, hi, step0);
      return Levels(n), ts;
    }
    var have := [root];
    var dist, step := 1, step0;
    while dist < n
      invariant step0 <= step && dist == Pow2(step - step0)
      invariant step > step0 ==> Pow2(step - step0 - 1) < n
      invariant Holders(buf[..], first, root, have) && forall v | v in have :: lo <= v < hi
      invariant root == lo ==> |have| == Min(dist, n) && Reached(have, ts, lo, hi)
      invariant root != lo ==> stranded !in have
      invariant dist == 1 ==> have == [root]
      invariant forall t | t in ts :: step0 <= t.step < step
      invariant root == lo && step > step0 ==> exists t | t in ts :: t.step == step - 1
      decreases n - dist
    {
      ghost var k := |ts|;
      have, ts := Round(buf, first, root, lo, hi, dist, step, have, ts);
      assert root == lo ==> ts[k] in ts;
      dist := 2 * dist;
      step := step + 1;
    }
    rounds := step - step0;
    LevelsUnique(n, rounds);
    HoldersEnd(buf[..], first, root, have, ts, lo, hi);
  }

  lemma {:induction false} StrandedIsNotRoot(lo: nat, n: nat, root: nat)
    requires lo < root < lo + n || (lo == root && n > 0)
    ensures root != lo ==> Stranded(lo, n, root) != root
  {
    ModRange(root - lo + 1, n);
  }

  lemma {:induction false} StartHolders<V>(first: seq<Option<V>>, root: nat, lo: nat, hi: nat)
    requires lo <= root < hi <= |first|
    ensures Holders(first, first, root, [root])
    ensures root == lo ==> Reached([root], [], lo, hi)
  {
  }

  lemma {:induction false} HoldersEnd<V>(now: seq<Option<V>>, first: seq<Option<V>>, root: nat, have: seq<nat>,
        ts: seq<Transfer>, lo: nat, hi: nat)
    requires lo <= root < hi <= |now| && Holders(now, first, root, have)
    requires forall v | v in have :: lo <= v < hi
    ensures forall r | 0 <= r < |now| && !(lo <= r < hi) :: now[r] == first[r]
    ensures forall r | lo <= r < hi :: now[r] == first[r] || now[r] == first[root]
    ensures forall r | lo <= r < hi && r !in have :: now[r] == first[r]
    ensures root == lo && |have| == hi - lo && Reached(have, ts, lo, hi) ==>
              Floods(ts, lo, lo, hi) && forall r | lo <= r < hi :: now[r] == first[root]
  {
    if root == lo && |have| == hi - lo && Reached(have, ts, lo, hi) {
      InOrderFloods(ts, lo, hi);
      forall r | lo <= r < hi ensures r in have {
        assert have[r - lo] == r;
      }
    }
  }

  /** The public tree broadcast reaches every rank exactly when the root is rank 0 or there is nobody else. */
  method TreeBroadcast<V(==)>(value: V, root: nat, n: nat) returns (out: seq<Option<V>>, rounds: nat, ts: seq<Transfer>)
    requires root < n
    ensures |out| == n && rounds == Levels(n) && out[root] == Some(value)
    ensures forall r | 0 <= r < n :: out[r] == None || out[r] == Some(value)
    ensures (forall r | 0 <= r < n :: out[r] == Some(value)) <==> root == 0 || n == 1
    ensures root == 0 ==> Floods(ts, 0, 0, n) && Spans(ts, 0, Levels(n))
  {
    var buf := new Option<V>[n](_ => None);
    buf[root] := Some(value);
    rounds, ts := BinomialBroadcast(buf, root, 0, n, 0);
    out := buf[..];
    if root != 0 {
      assert out[Stranded(0, n, root)] == None;
    }
  }

  // ---- tree scan ----

  ghost predicate Prefixes<V>(op: (V, V) -> V, now: seq<V>, values: seq<V>, lo: nat, hi: nat) {
    lo <= hi <= |now| == |values| && forall r | lo <= r < hi :: now[r] == Fold(op, values[lo..r + 1])
  }

  /** No transfer has its sender below the line and its receiver at or above it. */
  ghost predicate NoneCrosses(ts: seq<Transfer>, line: nat) { forall t | t in ts :: t.src < line ==> t.dst < line }

  /** A route along transfers, in any order of their steps. */
  ghost predicate Route(ts: seq<Transfer>, p: seq<nat>) { forall i | 0 < i < |p| :: Linked(ts, p[i - 1], p[i]) }

  ghost predicate Linked(ts: seq<Transfer>, a: nat, b: nat) { exists t | t in ts :: t.src == a && t.dst == b }

  /** What rank a holds can reach rank b. */
  ghost predicate Reaches(ts: seq<Transfer>, a: nat, b: nat) {
    exists p :: p != [] && p[0] == a && p[|p| - 1] == b && Route(ts, p)
  }

  lemma {:induction false} RouteStaysBelow(ts: seq<Transfer>, p: seq<nat>, line: nat, i: nat)
    requires NoneCrosses(ts, line) && Route(ts, p) && i < |p| && p[0] < line
    ensures p[i] < line
    decreases i
  {
    if i > 0 {
      RouteStaysBelow(ts, p, line, i - 1);
      assert Linked(ts, p[i - 1], p[i]);
    }
  }

  lemma {:induction false} NeverReaches(ts: seq<Transfer>, line: nat, a: nat, b: nat)
    requires NoneCrosses(ts, line) && a < line <= b
    ensures !Reaches(ts, a, b)
  {
    if Reaches(ts, a, b) {
      var p :| p != [] && p[0] == a && p[|p| - 1] == b && Route(ts, p);
      RouteStaysBelow(ts, p, line, |p| - 1);
    }
  }

  /** Number of transfers the tree scan records. */
  function ScanTransfers(n: nat): nat {
    if n <= 1 then 0 else ScanTransfers(n / 2) + ScanTransfers((n + 1) / 2) + (n + 1) / 2 - 1
  }

  lemma {:induction false} ScanTransfersStep(lo: nat, hi: nat)
    requires lo < hi
    ensures hi - lo <= 1 ==> ScanTransfers(hi - lo) == 0
    ensures hi - lo > 1 ==> var mid := (lo + hi) / 2;
      lo < mid < hi && ScanTransfers(hi - lo) == ScanTransfers(mid - lo) + ScanTransfers(hi - mid) + hi - mid - 1
  {
    var mid := (lo + hi) / 2;
    assert mid - lo == (hi - lo) / 2 && hi - mid == (hi - lo + 1) / 2;
  }

  lemma {:induction false} PrefixesJoin<V(!new)>(op: (V, V) -> V, now: seq<V>, next: seq<V>, values: seq<V>, lo: nat,
        mid: nat, hi: nat)
    requires Associative(op) && lo < mid < hi
    requires Prefixes(op, now, values, lo, mid) && Prefixes(op, now, values, mid, hi) && |next| == |now|
    requires forall r | lo <= r < hi :: next[r] == if r < mid then now[r] else op(Fold(op, values[lo..mid]), now[r])
    ensures Prefixes(op, next, values, lo, hi)
    ensures Fold(op, values[lo..hi]) == op(Fold(op, values[lo..mid]), Fold(op, values[mid..hi]))
  {
    hide Associative, Fold;
    FoldSplit(op, values, lo, mid, hi);
    forall r | mid <= r < hi ensures next[r] == Fold(op, values[lo..r + 1]) {
      FoldSplit(op, values, lo, mid, r + 1);
    }
  }

  /** The left total, once in the first rank of the right half, reaches that whole half. */
  method BroadcastTotal<V>(left: V, n: nat, mid: nat, hi: nat, step: nat) returns (ts: seq<Transfer>)
    requires mid < hi <= n
    ensures |ts| == hi - mid - 1 && Floods(ts, mid, mid, hi) && Within(ts, mid, hi)
  {
    var buf := new Option<V>[n](_ => None);
    buf[mid] := Some(left);
    var rounds: nat;
    rounds, ts := BinomialBroadcast(buf, mid, mid, hi, step);
    assert forall r | mid <= r < hi :: buf[r] == Some(left);
  }

  lemma {:induction false} HalvesDoNotCross(a: seq<Transfer>, b: seq<Transfer>, c: seq<Transfer>, lo: nat, mid: nat,
        hi: nat)
    requires lo <= mid <= hi && Within(a, lo, mid) && Within(b, mid, hi) && Within(c, mid, hi)
    ensures Within(a + b + c, lo, hi) && NoneCrosses(a + b + c, mid)
  {
    assert forall t :: t in a + b + c <==> t in a || t in b || t in c;
  }

  /** Inclusive prefixes of ranks [lo, hi), in place. No recorded transfer carries the left total into the right half. */
  method ScanRange<V(!new)>(op: (V, V) -> V, acc: array<V>, ghost values: seq<V>, lo: nat, hi: nat, step: nat)
    returns (total: V, ts: seq<Transfer>)
    requires Associative(op) && lo < hi <= acc.Length == |values|
    requires forall r | lo <= r < hi :: acc[r] == values[r]
    modifies acc
    ensures Prefixes(op, acc[..], values, lo, hi)
    ensures forall r | 0 <= r < acc.Length && !(lo <= r < hi) :: acc[r] == old(acc[r])
    ensures total == Fold(op, values[lo..hi])
    ensures |ts| == ScanTransfers(hi - lo) && Within(ts, lo, hi)
    ensures lo + 1 < hi ==> NoneCrosses(ts, (lo + hi) / 2)
    decreases hi - lo
  {
    hide *;
    ScanTransfersStep(lo, hi);
    if hi - lo <= 1 {
      total, ts := acc[lo], [];
      LeafPrefix(op, acc[..], values, lo);
      NothingIsWithin(lo, hi);
      return;
    }
    var mid := (lo + hi) / 2;
    var left, a := ScanRange(op, acc, values, lo, mid, step + 1);
    ghost var half := acc[..];
    var right, b := ScanRange(op, acc, values, mid, hi, step + 1);
    PrefixesKept(op, half, acc[..], values, lo, mid);
    ghost var now := acc[..];
    var c := BroadcastTotal(left, acc.Length, mid, hi, step);
    ts := a + b + c;
    HalvesDoNotCross(a, b, c, lo, mid, hi);
    Combine(op, left, acc, mid, hi);
    total := op(left, right);
    PrefixesJoin(op, now, acc[..], values, lo, mid, hi);
  }

  method Combine<V>(op: (V, V) -> V, left: V, acc: array<V>, mid: nat, hi: nat)
    requires mid <= hi <= acc.Length
    modifies acc
    ensures forall k | 0 <= k < acc.Length :: acc[k] == if mid <= k < hi then op(left, old(acc[k])) else old(acc[k])
  {
    for r := mid to hi
      invariant forall k | 0 <= k < acc.Length :: acc[k] == if mid <= k < r then op(left, old(acc[k])) else old(acc[k])
    {
      acc[r] := op(left, acc[r]);
    }
  }

  lemma {:induction false} LeafPrefix<V>(op: (V, V) -> V, now: seq<V>, values: seq<V>, lo: nat)
    requires lo < |now| == |values| && now[lo] == values[lo]
    ensures Prefixes(op, now, values, lo, lo + 1) && Fold(op, values[lo..lo + 1]) == now[lo]
  {
    assert values[lo..lo + 1] == [values[lo]];
  }

  lemma {:induction false} PrefixesKept<V>(op: (V, V) -> V, now: seq<V>, next: seq<V>, values: seq<V>, lo: nat, hi: nat)
    requires Prefixes(op, now, values, lo, hi) && |next| == |now|
    requires forall r | lo <= r < hi :: next[r] == now[r]
    ensures Prefixes(op, next, values, lo, hi)
  {
  }

  lemma {:induction false} NothingIsWithin(lo: nat, hi: nat)
    ensures Within([], lo, hi)
  {
  }

  /** The recorded transfers bring every rank what lies below it. */
  ghost predicate Delivers(ts: seq<Transfer>, n: nat) { forall a: nat, b: nat | a < b < n :: Reaches(ts, a, b) }

  lemma {:induction false} ScanDoesNotDeliver(ts: seq<Transfer>, n: nat)
    requires n >= 1 && (n > 1 ==> NoneCrosses(ts, n / 2))
    ensures Delivers(ts, n) <==> n == 1
  {
    if n > 1 { NeverReaches(ts, n / 2, 0, n - 1); }
  }

  /** The tree scan: every rank holds the in-order fold of the values up to and including its own. Its recorded
      transfers alone could not have produced that, except for a single rank. */
  method TreeScan<V(!new)>(op: (V, V) -> V, values: seq<V>) returns (out: seq<V>, ts: seq<Transfer>)
    requires Associative(op) && values != []
    ensures |out| == |values| && forall r | 0 <= r < |values| :: out[r] == Fold(op, values[..r + 1])
    ensures |ts| == ScanTransfers(|values|) && (|values| == 2 ==> ts == [])
    ensures |values| > 1 ==> NoneCrosses(ts, |values| / 2)
    ensures Delivers(ts, |values|) <==> |values| == 1
  {
    hide *;
    var acc := new V[|values|](i requires 0 <= i < |values| => values[i]);
    var total: V;
    total, ts := ScanRange(op, acc, values, 0, |values|, 0);
    out := acc[..];
    AllPrefixes(op, out, values);
    ScanDoesNotDeliver(ts, |values|);
    ScanTransfersStep(0, |values|);
    ScanTransfersStep(0, 1);
  }

  lemma {:induction false} AllPrefixes<V>(op: (V, V) -> V, now: seq<V>, values: seq<V>)
    requires Prefixes(op, now, values, 0, |values|)
    ensures forall r | 0 <= r < |values| :: now[r] == Fold(op, values[..r + 1])
  {
    hide Fold;
    forall r | 0 <= r < |values| ensures now[r] == Fold(op, values[..r + 1]) {
      assert values[0..r + 1] == values[..r + 1];
    }
  }
}
