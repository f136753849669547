/** Small shared vocabulary: optional values, sorted listings of finite integer sets, pigeonholes. */
module Basics {
  datatype Option<+T> = None | Some(value: T)

  /** How a call ended: the state it leaves, and whether an exception left it. */
  datatype Exit<+S> = Exit(state: S, raised: bool)

  ghost predicate Distinct<T>(s: seq<T>) { forall i, j | 0 <= i < j < |s| :: s[i] != s[j] }

  predicate Ascending(s: seq<int>) { forall i, j | 0 <= i < j < |s| :: s[i] < s[j] }

  lemma {:induction false} Pick<T>(s: set<T>) returns (x: T)
    requires s != {}
    ensures x in s
  {
    x :| x in s;
  }

  lemma {:induction false} HasLeast(s: set<int>) returns (m: int)
    requires s != {}
    ensures m in s && forall x | x in s :: m <= x
    decreases |s|
  {
    m := Pick(s);
    var rest := s - {m};
    assert s == rest + {m};
    if rest != {} {
      var r := HasLeast(rest);
      if r < m { m := r; }
    }
  }

  function Least(s: set<int>): (m: int)
    requires s != {}
    ensures m in s && forall x | x in s :: m <= x
  {
    assert exists m :: m in s && forall x | x in s :: m <= x by { var m := HasLeast(s); }
    var m :| m in s && forall x | x in s :: m <= x;
    m
  }

  /** The elements of a finite set in increasing order. */
  function Sorted(s: set<int>): (q: seq<int>)
    ensures Ascending(q)
    ensures forall x :: x in q <==> x in s
    ensures |q| == |s|
    decreases |s|
  {
    if s == {} then []
    else
      var m := Least(s);
      [m] + Sorted(s - {m})
  }

  /** A list longer than the set it draws from repeats an element. */
  lemma {:induction false} Pigeonhole<T>(s: seq<T>, pool: set<T>) returns (i: nat, j: nat)
    requires forall k | 0 <= k < |s| :: s[k] in pool
    requires |s| > |pool|
    ensures i < j < |s| && s[i] == s[j]
    decreases |s|
  {
    var last := |s| - 1;
    if k :| 0 <= k < last && s[k] == s[last] {
      i, j := k, last;
    } else {
      assert |pool - {s[last]}| == |pool| - 1;
      i, j := Pigeonhole(s[..last], pool - {s[last]});
    }
  }

  function Min(a: int, b: int): (m: int)
    ensures a >= 0 && b >= 0 ==> m >= 0
  {
    if a < b then a else b
  }

  function Max(a: int, b: int): (m: int)
    ensures m >= a
  {
    if a < b then b else a
  }

  function Reversed<T>(s: seq<T>): (r: seq<T>)
    ensures |r| == |s| && forall i | 0 <= i < |r| :: r[i] == s[|s| - 1 - i]
  {
    seq(|s|, i requires 0 <= i < |s| => s[|s| - 1 - i])
  }

  /** A sum of two residues leaves the range at most once. */
  lemma {:induction false} ModRange(x: nat, n: nat)
    requires 0 <= x < 2 * n
    ensures x % n == if x < n then x else x - n
  {
    if x < n {
      DivUnique(x, n, 0);
    } else {
      DivUnique(x, n, 1);
    }
  }

  lemma {:induction false} DivUnique(x: nat, n: nat, q: nat)
    requires n > 0 && q * n <= x < (q + 1) * n
    ensures x / n == q && x % n == x - q * n
  {
    var d := x / n;
    assert x == d * n + x % n;
    MulMonotone(d + 1, q, n);
    MulMonotone(q + 1, d, n);
  }

  lemma {:induction false} ModBelow(x: nat, n: nat)
    requires n > 0
    ensures x % n <= x
  {
    if x < n {
      DivUnique(x, n, 0);
    }
  }

  lemma {:induction false} MulMonotone(a: nat, b: nat, n: nat)
    ensures a <= b ==> a * n <= b * n
  {
  }
}
