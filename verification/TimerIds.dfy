/** Timer identifiers: a number written in decimal, padded to five digits, and compared as text. */
module TimerIds {
  import opened Basics

  function Digits(n: nat): (d: seq<nat>)
    ensures d != [] && forall i | 0 <= i < |d| :: d[i] < 10
  {
    if n < 10 then [n] else Digits(n / 10) + [n % 10]
  }

  function Zeros(k: nat): (z: seq<nat>)
    ensures |z| == k && forall i | 0 <= i < k :: z[i] == 0
  {
    seq(k, _ => 0)
  }

  /** The digits of a timer id; the common prefix "TM" is left out. */
  function Id(n: nat): (d: seq<nat>)
    ensures |d| >= 5 && forall i | 0 <= i < |d| :: d[i] < 10
  {
    var d := Digits(n);
    if |d| < 5 then Zeros(5 - |d|) + d else d
  }

  /** Text order. */
  predicate TextBefore(p: seq<nat>, q: seq<nat>)
    decreases |p|
  {
    q != [] && (p == [] || p[0] < q[0] || (p[0] == q[0] && TextBefore(p[1..], q[1..])))
  }

  function Value(d: seq<nat>): (n: nat)
  {
    if d == [] then 0 else 10 * Value(d[..|d| - 1]) + d[|d| - 1]
  }

  lemma {:induction false} DigitsValue(n: nat)
    ensures Value(Digits(n)) == n
    decreases n
  {
    if n >= 10 {
      DigitsValue(n / 10);
      assert (Digits(n / 10) + [n % 10])[..|Digits(n / 10)|] == Digits(n / 10);
    }
  }

  lemma {:induction false} PaddingKeepsValue(k: nat, d: seq<nat>)
    ensures Value(Zeros(k) + d) == Value(d)
    decreases |d| + k
  {
    if d == [] {
      if k > 0 {
        assert Zeros(k)[..k - 1] == Zeros(k - 1);
        assert Zeros(k) + d == Zeros(k) && Zeros(k - 1) + d == Zeros(k - 1);
        PaddingKeepsValue(k - 1, d);
      }
    } else {
      assert (Zeros(k) + d)[..k + |d| - 1] == Zeros(k) + d[..|d| - 1];
      PaddingKeepsValue(k, d[..|d| - 1]);
    }
  }

  /** The number can be read back from its id, so ids are distinct. */
  lemma {:induction false} IdValue(n: nat)
    ensures Value(Id(n)) == n
  {
    DigitsValue(n);
    var d := Digits(n);
    if |d| < 5 { PaddingKeepsValue(5 - |d|, d); }
  }

  lemma {:induction false} DigitsLength(n: nat, k: nat, bound: nat)
    requires k >= 1 && bound == Tens(k) && n < bound
    ensures |Digits(n)| <= k
    decreases k
  {
    if n >= 10 { DigitsLength(n / 10, k - 1, Tens(k - 1)); }
  }

  function Tens(k: nat): (t: nat)
    ensures t >= 1
  {
    if k == 0 then 1 else 10 * Tens(k - 1)
  }

  // ---- text order is a strict total order ----

  lemma {:induction false} TextSnoc(p: seq<nat>, q: seq<nat>, a: nat, b: nat)
    requires |p| == |q|
    ensures TextBefore(p + [a], q + [b]) <==> TextBefore(p, q) || (p == q && a < b)
    decreases |p|
  {
    if p == [] {
      assert p + [a] == [a] && q + [b] == [b];
      assert !TextBefore([a][1..], [b][1..]);
    } else {
      assert (p + [a])[1..] == p[1..] + [a] && (q + [b])[1..] == q[1..] + [b];
      TextSnoc(p[1..], q[1..], a, b);
      assert p == [p[0]] + p[1..] && q == [q[0]] + q[1..];
    }
  }

  lemma {:induction false} ValueSnoc(p: seq<nat>, a: nat)
    ensures Value(p + [a]) == 10 * Value(p) + a
  {
    assert (p + [a])[..|p|] == p;
  }

  /** Texts of equal length are ordered like the numbers they write. */
  lemma {:induction false} EqualLengthIsNumeric(p: seq<nat>, q: seq<nat>)
    requires |p| == |q| && forall i | 0 <= i < |p| :: p[i] < 10 && q[i] < 10
    ensures TextBefore(p, q) <==> Value(p) < Value(q)
    ensures p == q <==> Value(p) == Value(q)
    decreases |p|
  {
    if p != [] {
      var n := |p| - 1;
      hide TextBefore, Value;
      var a, b := p[..n], q[..n];
      EqualLengthIsNumeric(a, b);
      assert p == a + [p[n]] && q == b + [q[n]];
      TextSnoc(a, b, p[n], q[n]);
      ValueSnoc(a, p[n]);
      ValueSnoc(b, q[n]);
      LastDigit(Value(a), Value(b), p[n], q[n]);
    }
  }

  lemma {:induction false} LastDigit(v: nat, w: nat, a: nat, b: nat)
    requires a < 10 && b < 10
    ensures 10 * v + a < 10 * w + b <==> v < w || (v == w && a < b)
    ensures 10 * v + a == 10 * w + b <==> v == w && a == b
  {
  }

  lemma {:induction false} TextTotal(p: seq<nat>, q: seq<nat>)
    ensures p == q || TextBefore(p, q) || TextBefore(q, p)
    ensures !(TextBefore(p, q) && TextBefore(q, p)) && !TextBefore(p, p)
    decreases |p|
  {
    if p != [] && q != [] {
      TextTotal(p[1..], q[1..]);
      assert p == [p[0]] + p[1..] && q == [q[0]] + q[1..];
    }
    if p != [] { TextTotal(p[1..], p[1..]); }
  }

  lemma {:induction false} TextTransitive(p: seq<nat>, q: seq<nat>, r: seq<nat>)
    requires TextBefore(p, q) && TextBefore(q, r)
    ensures TextBefore(p, r)
    decreases |p|
  {
    if p != [] && p[0] == q[0] == r[0] { TextTransitive(p[1..], q[1..], r[1..]); }
  }

  predicate IdBefore(m: nat, n: nat) { TextBefore(Id(m), Id(n)) }

  lemma {:induction false} IdTotal(m: nat, n: nat)
    ensures m != n ==> IdBefore(m, n) || IdBefore(n, m)
    ensures !(IdBefore(m, n) && IdBefore(n, m)) && !IdBefore(m, m)
  {
    TextTotal(Id(m), Id(n));
    IdValue(m);
    IdValue(n);
  }

  /** Up to 99999 the text order of ids is the order of creation. */
  lemma {:induction false} FiveDigitOrder(m: nat, n: nat)
    requires m < 100000 && n < 100000
    ensures IdBefore(m, n) <==> m < n
  {
    assert Tens(5) == 100000;
    DigitsLength(m, 5, 100000);
    DigitsLength(n, 5, 100000);
    IdValue(m);
    IdValue(n);
    EqualLengthIsNumeric(Id(m), Id(n));
  }

  /** Timer 100000 sorts before timer 99999. */
  lemma {:induction false} SixDigitsOvertake()
    ensures IdBefore(100000, 99999)
  {
    assert Digits(9) == [9] && Digits(99) == [9, 9] && Digits(999) == [9, 9, 9] && Digits(9999) == [9, 9, 9, 9];
    assert Digits(99999) == [9, 9, 9, 9, 9];
    assert Digits(1) == [1] && Digits(10) == [1, 0] && Digits(100) == [1, 0, 0] && Digits(1000) == [1, 0, 0, 0];
    assert Digits(10000) == [1, 0, 0, 0, 0] && Digits(100000) == [1, 0, 0, 0, 0, 0];
    assert Id(99999)[0] == 9 && Id(100000)[0] == 1;
  }

  /** Among the first `count` timers text order is creation order exactly when there are at most 100000. */
  lemma {:induction false} IdOrderIff(count: nat)
    ensures (forall m: nat, n: nat | m < n < count :: IdBefore(m, n)) <==> count <= 100000
  {
    hide IdBefore;
    if count <= 100000 {
      forall m: nat, n: nat | m < n < count ensures IdBefore(m, n) { FiveDigitOrder(m, n); }
    } else {
      SixDigitsOvertake();
      IdTotal(99999, 100000);
    }
  }
}
