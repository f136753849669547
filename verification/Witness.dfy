/** The row-sequence witness: a multiply-and-xor hash of a list of words modulo 2^64. */
module Witnesses {
  import opened Basics
  import opened Folds
  import opened Bits

  const WORD: nat := 0x1_0000_0000_0000_0000
  const FNV_OFFSET: nat := 1469598103934665603
  const FNV_PRIME: nat := 1099511628211

  /** The multiplicative inverse of FNV_PRIME modulo 2^64. */
  const PRIME_INVERSE: nat := 14886173955864302971

  function Low64(x: nat): (l: nat)
    ensures l < WORD
  {
    x % WORD
  }

  lemma {:induction false} Pow2Of64()
    ensures Pow2(64) == WORD
  {
    assert Pow2(8) == 256;
    Pow2Splits(8, 16);
    Pow2Splits(16, 32);
    Pow2Splits(32, 64);
  }

  /** One row: multiply by the prime, then exclusive or with the row's word. */
  function Mix(acc: nat, w: nat): (next: nat)
  {
    Xor(Low64(acc * FNV_PRIME), Low64(w))
  }

  function Witness(words: seq<nat>, acc: nat): (w: nat)
  {
    if words == [] then Low64(acc) else Mix(Witness(words[..|words| - 1], acc), words[|words| - 1])
  }

  /** Values below 2^64 are unchanged by every mask in the loop. */
  lemma {:induction false} MixBound(acc: nat, w: nat)
    ensures Mix(acc, w) < WORD
  {
    Pow2Of64();
    XorBound(Low64(acc * FNV_PRIME), Low64(w), 64);
  }

  lemma {:induction false} WitnessBound(words: seq<nat>, acc: nat)
    ensures Witness(words, acc) < WORD
  {
    if words != [] { MixBound(Witness(words[..|words| - 1], acc), words[|words| - 1]); }
  }

  method ReferenceWitness(words: seq<nat>, accIn: nat) returns (acc: nat)
    ensures acc == Witness(words, accIn)
  {
    hide Mix, Low64;
    acc := Low64(accIn);
    for i := 0 to |words|
      invariant acc == Witness(words[..i], accIn)
    {
      assert words[..i + 1][..i] == words[..i];
      acc := MixStep(acc, words[i]);
    }
    assert words[..|words|] == words;
    WitnessBound(words, accIn);
    LowIsSame(acc);
    acc := Low64(acc);
  }

  /** The loop body: multiply and mask, then xor with the masked word. */
  method MixStep(acc: nat, w: nat) returns (next: nat)
    ensures next == Mix(acc, w)
  {
    next := Low64(acc * FNV_PRIME);
    next := Xor(next, Low64(w));
  }

  lemma {:induction false} LowIsSame(x: nat)
    ensures x < WORD ==> Low64(x) == x
  {
    if x < WORD { ModSmall(x, WORD); }
  }

  /** Two witnesses worked out by hand: the row is multiplied in before its word is mixed in, never after. */
  lemma {:induction false} KnownWitnesses()
    ensures Witness([1], 2) == 2199023256423
    ensures Witness([0, 0], FNV_OFFSET) == 11126445248426326267
  {
    hide Xor;
    assert Low64(2 * FNV_PRIME) == 2199023256422 && Low64(2) == 2 && Low64(1) == 1 && Low64(0) == 0;
    assert [1][..0] == [] && [0, 0][..1] == [0] && [0][..0] == [];
    assert Xor(2199023256422, 1) == 2199023256423 by {
      XorParts(2199023256422, 1);
      XorZero(1099511628211);
    }
    var once, twice := 4953163356653287321, 11126445248426326267;
    assert Low64(FNV_OFFSET) == FNV_OFFSET && Low64(FNV_OFFSET * FNV_PRIME) == once && Low64(once * FNV_PRIME) == twice;
    XorZero(once);
    XorZero(twice);
    assert Witness([0], FNV_OFFSET) == once;
    assert Witness([1], 2) == Mix(2, 1);
  }

  // ---- what the witness detects ----

  /** The word operation run backwards. */
  function Unmix(next: nat, w: nat): (acc: nat)
  {
    Low64(Xor(next, Low64(w)) * PRIME_INVERSE)
  }

  lemma {:induction false} PrimeInverts(a: nat)
    ensures Low64(Low64(a * FNV_PRIME) * PRIME_INVERSE) == Low64(a)
    ensures Low64(Low64(a * PRIME_INVERSE) * FNV_PRIME) == Low64(a)
  {
    var m := WORD;
    var q := 887285111055;
    assert FNV_PRIME * PRIME_INVERSE == 1 + q * WORD;
    Inverts(a, FNV_PRIME, PRIME_INVERSE, q, m);
    Inverts(a, PRIME_INVERSE, FNV_PRIME, q, m);
  }

  lemma {:induction false} Inverts(a: nat, p: nat, i: nat, q: nat, m: nat)
    requires m > 0 && p * i == 1 + q * m
    ensures (((a * p) % m) * i) % m == a % m
  {
    ModMul(a * p, i, m);
    Distributes(a, p, i, q, m);
    ModShift(a, a * q, m);
  }

  lemma {:induction false} Distributes(a: nat, p: nat, i: nat, q: nat, m: nat)
    requires p * i == 1 + q * m
    ensures (a * p) * i == a + (a * q) * m
  {
    MulAssociates(a, p, i);
    MulAssociates(a, q, m);
    assert a * (1 + q * m) == a + a * (q * m);
  }

  /** Mixing with a fixed word is a bijection of the 64-bit accumulators, and Unmix is its inverse. */
  lemma {:induction false} MixInverts(acc: nat, w: nat)
    ensures Unmix(Mix(acc, w), w) == Low64(acc)
    ensures acc < WORD ==> Mix(Unmix(acc, w), w) == acc
  {
    hide Low64;
    XorCancels(Low64(acc * FNV_PRIME), Low64(w));
    PrimeInverts(acc);
    if acc < WORD {
      var x := Xor(acc, Low64(w));
      PrimeInverts(x);
      Pow2Of64();
      XorBound(acc, Low64(w), 64);
      LowIsSame(x);
      XorCancels(acc, Low64(w));
    }
  }

  lemma {:induction false} MixSeparates(a: nat, b: nat, v: nat, w: nat)
    ensures Mix(a, w) == Mix(b, w) <==> Low64(a) == Low64(b)
    ensures Mix(a, v) == Mix(a, w) <==> Low64(v) == Low64(w)
  {
    hide Low64;
    MixInverts(a, w);
    MixInverts(b, w);
    if Low64(a) == Low64(b) {
      LowTimesPrime(a);
      LowTimesPrime(b);
    }
    var m := Low64(a * FNV_PRIME);
    XorCommutes(m, Low64(v));
    XorCommutes(m, Low64(w));
    XorCancels(Low64(v), m);
    XorCancels(Low64(w), m);
  }

  lemma {:induction false} LowTimesPrime(a: nat)
    ensures Low64(a * FNV_PRIME) == Low64(Low64(a) * FNV_PRIME)
  {
    ModMul(a, FNV_PRIME, WORD);
  }

  /** Two starting accumulators give the same witness exactly when they agree on 64 bits. */
  lemma {:induction false} StartIsDetected(words: seq<nat>, a: nat, b: nat)
    ensures Witness(words, a) == Witness(words, b) <==> Low64(a) == Low64(b)
    decreases |words|
  {
    if words != [] {
      var n := |words| - 1;
      hide Low64, Mix;
      StartIsDetected(words[..n], a, b);
      MixSeparates(Witness(words[..n], a), Witness(words[..n], b), 0, words[n]);
      WitnessBound(words[..n], a);
      WitnessBound(words[..n], b);
      LowIsSame(Witness(words[..n], a));
      LowIsSame(Witness(words[..n], b));
    }
  }

  /** Replacing one word anywhere changes the witness exactly when the word changes on 64 bits. */
  lemma {:induction false} OneWordIsDetected(words: seq<nat>, i: nat, w: nat, acc: nat)
    requires i < |words|
    ensures Witness(words[i := w], acc) == Witness(words, acc) <==> Low64(w) == Low64(words[i])
    decreases |words|
  {
    hide Low64, Mix;
    var n := |words| - 1;
    var other := words[i := w];
    if i == n {
      assert other[..n] == words[..n];
      MixSeparates(Witness(words[..n], acc), 0, w, words[n]);
    } else {
      assert other[..n] == words[..n][i := w] && other[n] == words[n];
      OneWordIsDetected(words[..n], i, w, acc);
      var x, y := Witness(other[..n], acc), Witness(words[..n], acc);
      MixSeparates(x, y, 0, words[n]);
      WitnessBound(other[..n], acc);
      WitnessBound(words[..n], acc);
      LowIsSame(x);
      LowIsSame(y);
    }
  }

  /** One word is all it detects: any change of a word can be hidden by a change of the next. */
  lemma {:induction false} TwoWordsCanCancel(words: seq<nat>, i: nat, w: nat, acc: nat) returns (v: nat)
    requires i + 1 < |words|
    ensures Witness(words[i := w][i + 1 := v], acc) == Witness(words, acc)
  {
    hide Low64, Mix;
    var front := words[..i];
    var target := Witness(words[..i + 2], acc);
    WitnessBound(words[..i + 2], acc);
    var start := Mix(Witness(front, acc), w);
    v := Compensation(start, target);
    var other := words[i := w][i + 1 := v];
    WitnessSnoc(front, w, acc);
    WitnessSnoc(front + [w], v, acc);
    assert other[..i + 2] == front + [w] + [v];
    SameTail(words, other, i + 2, acc);
  }

  lemma {:induction false} WitnessSnoc(words: seq<nat>, w: nat, acc: nat)
    ensures Witness(words + [w], acc) == Mix(Witness(words, acc), w)
  {
    assert (words + [w])[..|words|] == words;
  }

  /** The word that takes one accumulator to a wanted one. */
  lemma {:induction false} Compensation(start: nat, target: nat) returns (v: nat)
    requires target < WORD
    ensures Mix(start, v) == target
  {
    var m := Low64(start * FNV_PRIME);
    v := Xor(target, m);
    Pow2Of64();
    XorBound(target, m, 64);
    LowIsSame(v);
    XorCommutes(m, v);
    XorCancels(target, m);
  }

  lemma {:induction false} SameTail(a: seq<nat>, b: seq<nat>, k: nat, acc: nat)
    requires |a| == |b| && k <= |a| && a[k..] == b[k..]
    requires Witness(a[..k], acc) == Witness(b[..k], acc)
    ensures Witness(a, acc) == Witness(b, acc)
    decreases |a| - k
  {
    if k == |a| {
      assert a[..k] == a && b[..k] == b;
    } else {
      hide Witness, Mix;
      assert a[k] == a[k..][0] && b[k] == b[k..][0];
      assert a[..k] + [a[k]] == a[..k + 1] && b[..k] + [b[k]] == b[..k + 1];
      WitnessSnoc(a[..k], a[k], acc);
      WitnessSnoc(b[..k], b[k], acc);
      assert a[k + 1..] == a[k..][1..] && b[k + 1..] == b[k..][1..];
      SameTail(a, b, k + 1, acc);
    }
  }

  // ---- segments ----

  /** Consecutive segments of at most maxRows words. */
  function Segments(words: seq<nat>, maxRows: nat): (segs: seq<seq<nat>>)
    requires maxRows >= 1
    ensures forall s | s in segs :: 1 <= |s| <= maxRows
  {
    if words == [] then []
    else if |words| <= maxRows then [words]
    else [words[..maxRows]] + Segments(words[maxRows..], maxRows)
  }

  function Joined(segs: seq<seq<nat>>): (words: seq<nat>)
  {
    if segs == [] then [] else segs[0] + Joined(segs[1..])
  }

  /** Nothing is lost, repeated or reordered. */
  lemma {:induction false} SegmentsJoin(words: seq<nat>, maxRows: nat)
    requires maxRows >= 1
    ensures Joined(Segments(words, maxRows)) == words
    decreases |words|
  {
    if words != [] {
      var rest := if |words| <= maxRows then [] else words[maxRows..];
      var first := if |words| <= maxRows then words else words[..maxRows];
      SegmentsJoin(rest, maxRows);
      hide Joined;
      JoinedCons(first, Segments(rest, maxRows));
      assert words == first + rest;
    }
  }

  lemma {:induction false} JoinedCons(first: seq<nat>, rest: seq<seq<nat>>)
    ensures Joined([first] + rest) == first + Joined(rest)
  {
    assert ([first] + rest)[1..] == rest;
  }

  /** Threading the accumulator through two parts is witnessing the whole. */
  lemma {:induction false} WitnessConcat(a: seq<nat>, b: seq<nat>, acc: nat)
    ensures Witness(a + b, acc) == Witness(b, Witness(a, acc))
    decreases |b|
  {
    hide Low64, Mix;
    if b == [] {
      assert a + b == a;
      WitnessBound(a, acc);
      LowIsSame(Witness(a, acc));
    } else {
      var n := |b| - 1;
      WitnessConcat(a, b[..n], acc);
      assert (a + b)[..|a + b| - 1] == a + b[..n];
    }
  }

  /** The accumulator after a chain of segments. */
  function Threaded(segs: seq<seq<nat>>, acc: nat): (out: nat)
  {
    if segs == [] then acc else Threaded(segs[1..], Witness(segs[0], acc))
  }

  lemma {:induction false} ThreadedIsJoined(segs: seq<seq<nat>>, acc: nat)
    requires acc < WORD
    ensures Threaded(segs, acc) == Witness(Joined(segs), acc)
    decreases |segs|
  {
    if segs == [] {
      LowIsSame(acc);
    } else {
      WitnessBound(segs[0], acc);
      ThreadedIsJoined(segs[1..], Witness(segs[0], acc));
      WitnessConcat(segs[0], Joined(segs[1..]), acc);
    }
  }
}
