/** Bitwise exclusive or on naturals, and residues modulo powers of two. */
module Bits {
  import opened Basics
  import opened Folds

  function Xor(a: nat, b: nat): (x: nat)
    decreases a + b
  {
    if a == 0 && b == 0 then 0 else 2 * Xor(a / 2, b / 2) + (a + b) % 2
  }

  /** The bits of an exclusive or: the last one, and all the others. */
  lemma {:induction false} XorParts(a: nat, b: nat)
    ensures Xor(a, b) / 2 == Xor(a / 2, b / 2) && Xor(a, b) % 2 == (a + b) % 2
  {
  }

  /** Xor with the same word twice gives the first word back. */
  lemma {:induction false} XorCancels(a: nat, b: nat)
    ensures Xor(Xor(a, b), b) == a
    decreases a + b
  {
    if a == 0 && b == 0 {
      assert Xor(0, 0) == 0;
    } else {
      hide Xor;
      XorCancels(a / 2, b / 2);
      XorParts(a, b);
      XorParts(Xor(a, b), b);
      SumParity(a, b, Xor(a, b));
    }
  }

  lemma {:induction false} SumParity(a: nat, b: nat, x: nat)
    requires x % 2 == (a + b) % 2
    ensures (x + b) % 2 == a % 2
  {
  }

  lemma {:induction false} XorZero(a: nat)
    ensures Xor(a, 0) == a
    decreases a
  {
    if a != 0 { XorZero(a / 2); }
  }

  lemma {:induction false} XorCommutes(a: nat, b: nat)
    ensures Xor(a, b) == Xor(b, a)
    decreases a + b
  {
    if a != 0 || b != 0 { XorCommutes(a / 2, b / 2); }
  }

  lemma {:induction false} HalfMod(a: nat, k: nat)
    ensures a % Pow2(k + 1) == 2 * ((a / 2) % Pow2(k)) + a % 2
  {
    var m, h := Pow2(k), a / 2;
    var q, r := h / m, h % m;
    assert h == q * m + r;
    assert a == q * (2 * m) + (2 * r + a % 2);
    assert (q + 1) * (2 * m) == q * (2 * m) + 2 * m;
    DivUnique(a, 2 * m, q);
  }

  /** The low k bits of an exclusive or depend on the low k bits of its operands only. */
  lemma {:induction false} XorMod(a: nat, b: nat, k: nat)
    ensures Xor(a, b) % Pow2(k) == Xor(a % Pow2(k), b % Pow2(k))
    decreases k
  {
    if k > 0 {
      hide Xor, Pow2;
      var x, y := a % Pow2(k), b % Pow2(k);
      XorMod(a / 2, b / 2, k - 1);
      XorParts(a, b);
      LowBits(Xor(a, b), k);
      XorParts(x, y);
      LowBits(a, k);
      LowBits(b, k);
      SameParity(a, b, x, y);
      assert Xor(x, y) / 2 == (Xor(a, b) % Pow2(k)) / 2;
      assert Xor(x, y) % 2 == (Xor(a, b) % Pow2(k)) % 2;
    }
  }

  lemma {:induction false} LowBits(a: nat, k: nat)
    requires k > 0
    ensures (a % Pow2(k)) / 2 == (a / 2) % Pow2(k - 1) && (a % Pow2(k)) % 2 == a % 2
  {
    hide Pow2;
    HalfMod(a, k - 1);
  }

  lemma {:induction false} SameParity(a: nat, b: nat, x: nat, y: nat)
    requires x % 2 == a % 2 && y % 2 == b % 2
    ensures (x + y) % 2 == (a + b) % 2
  {
  }

  lemma {:induction false} XorBound(a: nat, b: nat, k: nat)
    requires a < Pow2(k) && b < Pow2(k)
    ensures Xor(a, b) < Pow2(k)
  {
    XorMod(a, b, k);
    ModSmall(a, Pow2(k));
    ModSmall(b, Pow2(k));
    ModUnder(Xor(a, b), Pow2(k));
  }

  lemma {:induction false} ModSmall(x: nat, n: nat)
    requires x < n
    ensures x % n == x
  {
    DivUnique(x, n, 0);
  }

  lemma {:induction false} ModUnder(x: nat, n: nat)
    requires n > 0
    ensures x % n < n
  {
  }

  /** Adding multiples of the modulus does not change a residue. */
  lemma {:induction false} ModShift(x: nat, q: nat, n: nat)
    requires n > 0
    ensures (x + q * n) % n == x % n
  {
    var d, r := x / n, x % n;
    assert x == d * n + r;
    assert (d + q) * n == d * n + q * n && (d + q + 1) * n == d * n + q * n + n;
    DivUnique(x + q * n, n, d + q);
  }

  /** A residue may be taken before multiplying. */
  lemma {:induction false} ModMul(a: nat, b: nat, n: nat)
    requires n > 0
    ensures (a * b) % n == ((a % n) * b) % n
  {
    var q, r := a / n, a % n;
    assert a == q * n + r;
    assert a * b == r * b + (q * b) * n;
    ModShift(r * b, q * b, n);
  }

  /** Reducing modulo a larger power of two first loses nothing. */
  lemma {:induction false} ModTower(x: nat, j: nat, k: nat)
    requires j <= k
    ensures (x % Pow2(k)) % Pow2(j) == x % Pow2(j)
  {
    Pow2Splits(j, k);
    ModDivides(x, Pow2(k - j), Pow2(j));
  }

  lemma {:induction false} ModDivides(x: nat, s: nat, n: nat)
    requires s > 0 && n > 0
    ensures s * n > 0 && (x % (s * n)) % n == x % n
  {
    MulMonotone(1, s, n);
    var m := s * n;
    var q, r := x / m, x % m;
    MulAssociates(q, s, n);
    assert x == q * m + r;
    ModShift(r, q * s, n);
  }

  lemma {:induction false} MulAssociates(a: nat, b: nat, c: nat)
    ensures a * (b * c) == (a * b) * c
  {
  }
}
