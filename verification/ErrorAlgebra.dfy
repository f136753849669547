/** Composition of error terms under declared assumptions, in exact real arithmetic. */
module ErrorAlgebra {
  import opened Basics

  datatype Unit = Probability | LogProbability | Dimensionless | Second | Hertz | CountUnit | Radian

  datatype Kind = SuccessProbability | FailureProbability | Infidelity | LogSuccess | AdditiveError
    | Variance | StdDev | Duration | Rate | CountKind

  datatype Assumption = Independent | Correlated | UnknownCorrelation | SmallError | ExactMultiplicative | ExactLogarithmic

  datatype Law = L1 | L2 | L3 | L4 | L5 | L6

  datatype Term = Term(value: real, unit: Unit, kind: Kind, independence: Assumption, epoch: Option<int>)

  datatype Reason = MixedDimensions | UnjustifiedIndependence | UnknownStructure | NoLaw | MixedEpochs | OutsideDomain | NeedsCovariance

  /** Refused is the error that the constructor of the combined term raises. */
  datatype Outcome = Resolved(law: Law, term: Term, neglected: real) | Unresolved(reason: Reason) | Refused

  /** What the constructor of a term insists on. */
  predicate WellFormed(t: Term) { t.unit == Probability ==> 0.0 <= t.value <= 1.0 }

  ghost predicate AllWellFormed(terms: seq<Term>) { forall i | 0 <= i < |terms| :: WellFormed(terms[i]) }

  /** The first registered law for a kind under an assumption. */
  function LawFor(kind: Kind, assumption: Assumption): Option<Law> {
    if assumption == Independent && kind in {SuccessProbability, FailureProbability, Infidelity} then Some(L1)
    else if assumption == Independent && kind == LogSuccess then Some(L2)
    else if assumption == SmallError && kind in {AdditiveError, Infidelity, FailureProbability} then Some(L3)
    else if assumption == Independent && kind in {Variance, StdDev} then Some(L4)
    else if assumption == Correlated && kind in {Variance, StdDev} then Some(L5)
    else if assumption == Independent && kind == Duration then Some(L6)
    else None
  }

  function Success(t: Term): real { if t.kind == SuccessProbability then t.value else 1.0 - t.value }

  /** Product of the terms' success probabilities. */
  function Product(terms: seq<Term>): real {
    if terms == [] then 1.0 else Product(terms[..|terms| - 1]) * Success(terms[|terms| - 1])
  }

  /** What a term adds under the additive laws; a standard deviation adds its square. */
  function Summand(t: Term): real { if t.kind == StdDev then t.value * t.value else t.value }

  function Sum(terms: seq<Term>): real {
    if terms == [] then 0.0 else Sum(terms[..|terms| - 1]) + Summand(terms[|terms| - 1])
  }

  /** Sum over all pairs of the product of their values. */
  function PairSum(terms: seq<Term>): real {
    if terms == [] then 0.0 else PairSum(terms[..|terms| - 1]) + Sum(terms[..|terms| - 1]) * Summand(terms[|terms| - 1])
  }

  predicate SameDimension(terms: seq<Term>) { forall i,
        j | 0 <= i < |terms| && 0 <= j < |terms| :: terms[i].unit == terms[j].unit && terms[i].kind == terms[j].kind }

  predicate Justified(terms: seq<Term>) {
    forall i | 0 <= i < |terms| :: terms[i].independence in {Independent, ExactMultiplicative, ExactLogarithmic, SmallError}
  }

  predicate SameEpoch(terms: seq<Term>) {
    forall i, j | 0 <= i < |terms| && 0 <= j < |terms| && terms[i].epoch.Some? && terms[j].epoch.Some? :: terms[i].epoch == terms[j].epoch
  }

  /** The common epoch, if any term declares one. */
  function Epoch(terms: seq<Term>): Option<int> {
    if terms == [] then None
    else if terms[|terms| - 1].epoch.Some? then terms[|terms| - 1].epoch
    else Epoch(terms[..|terms| - 1])
  }

  function ValueUnder(law: Law, terms: seq<Term>): real
    requires terms != []
  {
    if law == L1 then (if terms[0].kind == SuccessProbability then Product(terms) else 1.0 - Product(terms)) else Sum(terms)
  }

  function Combined(law: Law, terms: seq<Term>, assumption: Assumption): Term
    requires terms != []
  {
    Term(ValueUnder(law, terms),
      if law == L4 && terms[0].unit == Probability then Dimensionless else terms[0].unit,
      if law == L4 then Variance else terms[0].kind,
      assumption, Epoch(terms))
  }

  /** The composition, as a sequence of refusals in the source's order and then the law. */
  function Composed(terms: seq<Term>, assumption: Assumption): (o: Outcome)
    requires terms != []
  {
    if !SameDimension(terms) then Unresolved(MixedDimensions)
    else if assumption == Independent && !Justified(terms) then Unresolved(UnjustifiedIndependence)
    else if assumption == UnknownCorrelation then Unresolved(UnknownStructure)
    else
      var law := LawFor(terms[0].kind, assumption);
      if law == None then Unresolved(NoLaw)
      else if !SameEpoch(terms) then Unresolved(MixedEpochs)
      else if law == Some(L5) then Unresolved(NeedsCovariance)
      else if law == Some(L3) && Sum(terms) > 1.0 then Unresolved(OutsideDomain)
      else if !WellFormed(Combined(law.value, terms, assumption)) then Refused
      else Resolved(law.value, Combined(law.value, terms, assumption),
        if law == Some(L3) then Abs(Sum(terms) - (1.0 - Product(terms))) else 0.0)
  }

  function Abs(x: real): real { if x < 0.0 then -x else x }

  method Multiply(terms: seq<Term>) returns (p: real)
    ensures p == Product(terms)
  {
    p := 1.0;
    for i := 0 to |terms|
      invariant p == Product(terms[..i])
    {
      assert terms[..i + 1][..i] == terms[..i];
      p := p * Success(terms[i]);
    }
    assert terms[..|terms|] == terms;
  }

  method Add(terms: seq<Term>) returns (s: real)
    ensures s == Sum(terms)
  {
    s := 0.0;
    for i := 0 to |terms|
      invariant s == Sum(terms[..i])
    {
      assert terms[..i + 1][..i] == terms[..i];
      s := s + Summand(terms[i]);
    }
    assert terms[..|terms|] == terms;
  }

  /** An empty list is an error; a correlated law is outside this model. */
  method Compose(terms: seq<Term>, assumption: Assumption) returns (o: Option<Outcome>)
    ensures terms == [] <==> o == None
    ensures o.Some? ==> o.value == Composed(terms, assumption)
  {
    hide Sum, Product, SameDimension, SameEpoch, Justified, Epoch;
    if terms == [] {
      return None;
    }
    if !SameDimension(terms) {
      return Some(Unresolved(MixedDimensions));
    }
    if assumption == Independent && !Justified(terms) {
      return Some(Unresolved(UnjustifiedIndependence));
    }
    if assumption == UnknownCorrelation {
      return Some(Unresolved(UnknownStructure));
    }
    var law := LawFor(terms[0].kind, assumption);
    if law == None {
      return Some(Unresolved(NoLaw));
    }
    if !SameEpoch(terms) {
      return Some(Unresolved(MixedEpochs));
    }
    if law == Some(L5) {
      return Some(Unresolved(NeedsCovariance));
    }
    var sum := Add(terms);
    var neglected, value := 0.0, sum;
    if law == Some(L1) {
      var product := Multiply(terms);
      value := if terms[0].kind == SuccessProbability then product else 1.0 - product;
    } else if law == Some(L3) {
      var product := Multiply(terms);
      neglected := Abs(sum - (1.0 - product));
      if sum > 1.0 {
        return Some(Unresolved(OutsideDomain));
      }
    }
    var kind := if law == Some(L4) then Variance else terms[0].kind;
    var unit := if law == Some(L4) && terms[0].unit == Probability then Dimensionless else terms[0].unit;
    var combined := Term(value, unit, kind, assumption, Epoch(terms));
    if !WellFormed(combined) {
      return Some(Refused);
    }
    return Some(Resolved(law.value, combined, neglected));
  }

  // ---- ranges ----

  ghost predicate Probabilities(terms: seq<Term>) { forall i | 0 <= i < |terms| :: 0.0 <= terms[i].value <= 1.0 }

  lemma {:induction false} ProductInRange(terms: seq<Term>)
    requires Probabilities(terms)
    ensures 0.0 <= Product(terms) <= 1.0
    decreases |terms|
  {
    if terms != [] {
      ProductInRange(terms[..|terms| - 1]);
      Scale(Product(terms[..|terms| - 1]), Success(terms[|terms| - 1]));
    }
  }

  lemma {:induction false} Scale(p: real, q: real)
    requires 0.0 <= p <= 1.0 && 0.0 <= q <= 1.0
    ensures 0.0 <= p * q <= 1.0 && p * q <= q
  {
  }

  /** Composing probabilities by the product, the additive and the variance law never raises: the result stays in range. */
  lemma {:induction false} NeverRefused(terms: seq<Term>, assumption: Assumption)
    requires terms != [] && AllWellFormed(terms) && LawFor(terms[0].kind, assumption) in {Some(L1), Some(L3), Some(L4)}
    ensures Composed(terms, assumption) != Refused
  {
    hide Sum, Product, PairSum;
    if terms[0].unit == Probability && SameDimension(terms) {
      assert forall i | 0 <= i < |terms| :: terms[i].unit == Probability && WellFormed(terms[i]);
      ProductInRange(terms);
      SumNotNegative(terms);
    }
  }

  lemma {:induction false} SumNotNegative(terms: seq<Term>)
    requires forall i | 0 <= i < |terms| :: terms[i].value >= 0.0
    ensures Sum(terms) >= 0.0 && PairSum(terms) >= 0.0
    decreases |terms|
  {
    if terms != [] {
      var front, last := terms[..|terms| - 1], terms[|terms| - 1];
      assert Sum(terms) == Sum(front) + Summand(last) && PairSum(terms) == PairSum(front) + Sum(front) * Summand(last);
      hide Sum, PairSum;
      SumNotNegative(front);
      NotNegative(last.value, last.value);
      NotNegative(Sum(front), Summand(last));
    }
  }

  lemma {:induction false} NotNegative(a: real, b: real)
    requires a >= 0.0 && b >= 0.0
    ensures a * b >= 0.0
  {
  }

  // ---- what the additive law neglects ----

  function Times(a: real, b: real): real { a * b }

  /** 1 - sum <= product <= 1 - sum + sum over pairs, and twice the pairs are at most the square of the sum. */
  lemma {:induction false} ProductBounds(terms: seq<Term>)
    requires Probabilities(terms)
    requires forall i | 0 <= i < |terms| :: terms[i].kind != SuccessProbability && terms[i].kind != StdDev
    ensures 1.0 - Sum(terms) <= Product(terms) <= 1.0 - Sum(terms) + PairSum(terms)
    ensures 2.0 * PairSum(terms) <= Times(Sum(terms), Sum(terms))
    decreases |terms|
  {
    if terms != [] {
      hide Product, Sum, PairSum, Times;
      var front, e := terms[..|terms| - 1], terms[|terms| - 1].value;
      OneMore(terms);
      ProductBounds(front);
      ProductInRange(front);
      SumNotNegative(front);
      BoundsStep(Product(front), Sum(front), PairSum(front), e);
    }
  }

  lemma {:induction false} OneMore(terms: seq<Term>)
    requires terms != [] && terms[|terms| - 1].kind != SuccessProbability && terms[|terms| - 1].kind != StdDev
    ensures var front, e := terms[..|terms| - 1], terms[|terms| - 1].value;
      && Product(terms) == Product(front) - Times(Product(front), e)
      && Sum(terms) == Sum(front) + e
      && PairSum(terms) == PairSum(front) + Times(Sum(front), e)
  {
  }

  lemma {:induction false} BoundsStep(q: real, s: real, p: real, e: real)
    requires 0.0 <= e <= 1.0 && 0.0 <= q <= 1.0 && p >= 0.0
    requires 1.0 - s <= q <= 1.0 - s + p && 2.0 * p <= Times(s, s)
    ensures 1.0 - (s + e) <= q - Times(q, e) <= 1.0 - (s + e) + (p + Times(s, e))
    ensures 2.0 * (p + Times(s, e)) <= Times(s + e, s + e)
  {
    hide Times;
    TimesFacts(q, e);
    TimesFacts(p, e);
    TimesFacts(e, e);
    Remainder(1.0 - s + p, q, e);
    SplitTop(s, p, e);
    Square(s, e);
  }

  lemma {:induction false} TimesFacts(a: real, e: real)
    requires a >= 0.0 && 0.0 <= e
    ensures Times(a, e) >= 0.0 && (a <= 1.0 ==> Times(a, e) <= e)
  {
    NotNegative(a, e);
    if a <= 1.0 { AtMost(a, e); }
  }

  lemma {:induction false} AtMost(a: real, e: real)
    requires a <= 1.0 && 0.0 <= e
    ensures a * e <= e
  {
  }

  lemma {:induction false} Remainder(a: real, q: real, e: real)
    requires q <= a && e <= 1.0
    ensures a - q - Times(a, e) + Times(q, e) >= 0.0
  {
    NotNegative(a - q, 1.0 - e);
    assert (a - q) * (1.0 - e) == a - q - a * e + q * e;
  }

  lemma {:induction false} SplitTop(s: real, p: real, e: real)
    ensures Times(1.0 - s + p, e) == e - Times(s, e) + Times(p, e)
  {
  }

  lemma {:induction false} Square(s: real, e: real)
    ensures Times(s + e, s + e) == Times(s, s) + 2.0 * Times(s, e) + Times(e, e)
  {
  }

  /** The additive value over-estimates the exact one, by what is reported, and by at most half its own square. */
  lemma {:induction false} AdditiveLawError(terms: seq<Term>)
    requires terms != [] && Probabilities(terms) && Composed(terms, SmallError).Resolved?
    ensures var o := Composed(terms, SmallError);
      var exact := 1.0 - Product(terms);
      && o.law == L3 && o.neglected == o.term.value - exact
      && 0.0 <= o.neglected <= PairSum(terms)
      && 2.0 * PairSum(terms) <= o.term.value * o.term.value
  {
    hide Sum, Product, PairSum;
    assert terms[0].kind in {AdditiveError, Infidelity, FailureProbability};
    ProductBounds(terms);
  }

  // ---- grouping ----

  lemma {:induction false} ProductLast(terms: seq<Term>)
    ensures terms == [] ==> Product(terms) == 1.0
    ensures terms != [] ==> Product(terms) == Times(Product(terms[..|terms| - 1]), Success(terms[|terms| - 1]))
  {
  }

  lemma {:induction false} ProductConcat(a: seq<Term>, b: seq<Term>)
    ensures Product(a + b) == Times(Product(a), Product(b))
    decreases |b|
  {
    ProductLast(b);
    if b == [] {
      assert a + b == a;
    } else {
      hide Product, Times;
      var front := b[..|b| - 1];
      ProductLast(a + b);
      assert (a + b)[..|a + b| - 1] == a + front;
      ProductConcat(a, front);
      Reassociate(Product(a), Product(front), Success(b[|b| - 1]));
    }
  }

  lemma {:induction false} Reassociate(x: real, y: real, z: real)
    ensures Times(Times(x, y), z) == Times(x, Times(y, z))
  {
  }

  lemma {:induction false} SumConcat(a: seq<Term>, b: seq<Term>)
    ensures Sum(a + b) == Sum(a) + Sum(b)
    decreases |b|
  {
    if b == [] {
      assert a + b == a;
    } else {
      assert (a + b)[..|a + b| - 1] == a + b[..|b| - 1];
      SumConcat(a, b[..|b| - 1]);
    }
  }

  /** Composing two groups and then their results: the outcome of the whole list, for every law but the correlated one. */
  ghost predicate RegroupsAs(a: seq<Term>, b: seq<Term>, assumption: Assumption) {
    && a != [] && b != []
    && Composed(a, assumption).Resolved? && Composed(b, assumption).Resolved?
    && var pair := Composed([Composed(a, assumption).term, Composed(b, assumption).term], assumption);
      && pair.Resolved? && Composed(a + b, assumption).Resolved?
      && pair.law == Composed(a + b, assumption).law
      && pair.term == Composed(a + b, assumption).term
  }

  lemma {:induction false} EpochConcat(a: seq<Term>, b: seq<Term>)
    ensures Epoch(a + b) == if Epoch(b).Some? then Epoch(b) else Epoch(a)
    decreases |b|
  {
    if b == [] {
      assert a + b == a;
    } else {
      assert (a + b)[..|a + b| - 1] == a + b[..|b| - 1];
      EpochConcat(a, b[..|b| - 1]);
    }
  }

  lemma {:induction false} EpochIsDeclared(terms: seq<Term>) returns (i: nat)
    requires Epoch(terms).Some?
    ensures i < |terms| && terms[i].epoch == Epoch(terms)
    decreases |terms|
  {
    i := |terms| - 1;
    if terms[i].epoch == None { i := EpochIsDeclared(terms[..i]); }
  }

  lemma {:induction false} EpochOfPair(a: seq<Term>, b: seq<Term>, x: Term, y: Term)
    requires SameEpoch(a + b) && x.epoch == Epoch(a) && y.epoch == Epoch(b)
    ensures SameEpoch(a) && SameEpoch(b) && SameEpoch([x, y]) && Epoch([x, y]) == Epoch(a + b)
  {
    var all := a + b;
    assert (forall i | 0 <= i < |a| :: all[i] == a[i]) && forall i | 0 <= i < |b| :: all[|a| + i] == b[i];
    EpochConcat(a, b);
    EpochConcat([x], [y]);
    assert [x] + [y] == [x, y];
    EpochOfOne(x);
    EpochOfOne(y);
    hide Epoch;
    if Epoch(a).Some? && Epoch(b).Some? {
      var i := EpochIsDeclared(a);
      var j := EpochIsDeclared(b);
      assert all[i].epoch == all[|a| + j].epoch;
    }
  }

  lemma {:induction false} EpochOfOne(x: Term)
    ensures Epoch([x]) == x.epoch
  {
    assert [x][..0] == [];
  }

  lemma {:induction false} DimensionOfParts(a: seq<Term>, b: seq<Term>)
    requires a != [] && b != [] && SameDimension(a + b)
    ensures SameDimension(a) && SameDimension(b) && a[0].kind == b[0].kind == (a + b)[0].kind && a[0].unit == b[0].unit == (a + b)[0].unit
    ensures Justified(a + b) ==> Justified(a) && Justified(b)
    ensures AllWellFormed(a + b) ==> AllWellFormed(a) && AllWellFormed(b)
  {
    var all := a + b;
    assert (forall i | 0 <= i < |a| :: all[i] == a[i]) && forall i | 0 <= i < |b| :: all[|a| + i] == b[i];
  }

  lemma {:induction false} PairValues(x: Term, y: Term)
    ensures Product([x, y]) == Times(Success(x), Success(y)) && Sum([x, y]) == Summand(x) + Summand(y)
  {
    assert [x, y][..1] == [x] && [x][..0] == [];
    assert Product([x]) == 1.0 * Success(x) && Sum([x]) == 0.0 + Summand(x);
  }

  /** Under the additive small-error law each part must stay in the law's domain by itself. */
  predicate PartsInDomain(a: seq<Term>, b: seq<Term>, assumption: Assumption)
    requires a != []
  {
    LawFor(a[0].kind, assumption) == Some(L3) ==> Sum(a) <= 1.0 && Sum(b) <= 1.0
  }

  /** The parts of a resolved list resolve exactly when they are in the domain. */
  lemma {:induction false} PartsResolve(a: seq<Term>, b: seq<Term>, assumption: Assumption)
    requires a != [] && b != [] && AllWellFormed(a + b) && Composed(a + b, assumption).Resolved?
    ensures Composed(a, assumption).Resolved? && Composed(b, assumption).Resolved? <==> PartsInDomain(a, b, assumption)
  {
    DimensionOfParts(a, b);
    EpochOfPair(a, b, Combined(L1, a, assumption), Combined(L1, b, assumption));
    SumConcat(a, b);
    var law := LawFor(a[0].kind, assumption);
    if law == Some(L1) || law == Some(L4) {
      NeverRefused(a, assumption);
      NeverRefused(b, assumption);
    } else {
      var all := a + b;
      assert (forall i | 0 <= i < |a| :: all[i] == a[i]) && forall i | 0 <= i < |b| :: all[|a| + i] == b[i];
      if a[0].unit == Probability {
        NotNegativeParts(a, b);
      }
    }
  }

  lemma {:induction false} NotNegativeParts(a: seq<Term>, b: seq<Term>)
    requires forall i | 0 <= i < |a + b| :: (a + b)[i].value >= 0.0
    ensures 0.0 <= Sum(a) <= Sum(a + b) && 0.0 <= Sum(b) <= Sum(a + b)
  {
    var all := a + b;
    assert (forall i | 0 <= i < |a| :: all[i] == a[i]) && forall i | 0 <= i < |b| :: all[|a| + i] == b[i];
    SumNotNegative(a);
    SumNotNegative(b);
    SumConcat(a, b);
  }

  /**
   * When a list resolves, composition does not depend on grouping, exactly when its parts are in the law's domain:
   * then they resolve too, and their results together, under the same law and to the same term. Values that are not
   * negative are always in the domain.
   */
  lemma {:induction false} Regroup(a: seq<Term>, b: seq<Term>, assumption: Assumption)
    requires a != [] && b != [] && AllWellFormed(a + b) && Composed(a + b, assumption).Resolved?
    ensures RegroupsAs(a, b, assumption) <==> PartsInDomain(a, b, assumption)
    ensures (forall i | 0 <= i < |a + b| :: (a + b)[i].value >= 0.0) ==> PartsInDomain(a, b, assumption)
  {
    PartsResolve(a, b, assumption);
    if forall i | 0 <= i < |a + b| :: (a + b)[i].value >= 0.0 {
      DimensionOfParts(a, b);
      NotNegativeParts(a, b);
    }
    if PartsInDomain(a, b, assumption) { ResolvedPartsRegroup(a, b, assumption); }
  }

  lemma {:induction false} ResolvedPartsRegroup(a: seq<Term>, b: seq<Term>, assumption: Assumption)
    requires a != [] && b != [] && AllWellFormed(a + b) && Composed(a + b, assumption).Resolved?
    requires Composed(a, assumption).Resolved? && Composed(b, assumption).Resolved?
    ensures RegroupsAs(a, b, assumption)
  {
    DimensionOfParts(a, b);
    var law := Composed(a + b, assumption).law;
    var x, y := Combined(law, a, assumption), Combined(law, b, assumption);
    assert x == Composed(a, assumption).term && y == Composed(b, assumption).term;
    EpochOfPair(a, b, x, y);
    SumConcat(a, b);
    RegroupedTerm(law, a, b, assumption);
    assert assumption == Independent ==> Justified([x, y]);
    assert SameDimension([x, y]);
    assert law == L3 ==> Sum([x, y]) == Sum(a + b) by { PairValues(x, y); }
    hide Sum, Product, PairSum, Epoch, SameEpoch, SameDimension, Justified, Combined;
  }

  lemma {:induction false} RegroupedTerm(law: Law, a: seq<Term>, b: seq<Term>, assumption: Assumption)
    requires a != [] && b != [] && SameDimension(a + b) && SameEpoch(a + b)
    requires LawFor((a + b)[0].kind, assumption) == Some(law) && law != L5
    ensures Combined(law, [Combined(law, a, assumption), Combined(law, b, assumption)], assumption) == Combined(law, a + b, assumption)
  {
    DimensionOfParts(a, b);
    var x, y := Combined(law, a, assumption), Combined(law, b, assumption);
    EpochOfPair(a, b, x, y);
    RegroupedValue(law, a, b, x, y);
    hide Sum, Product, Epoch, SameEpoch, SameDimension, ValueUnder;
  }

  lemma {:induction false} RegroupedValue(law: Law, a: seq<Term>, b: seq<Term>, x: Term, y: Term)
    requires a != [] && b != [] && a[0].kind == b[0].kind
    requires law == L1 ==> a[0].kind != StdDev && x.kind == y.kind == a[0].kind
    requires law != L1 ==> x.kind != StdDev && y.kind != StdDev
    requires x.value == ValueUnder(law, a) && y.value == ValueUnder(law, b)
    ensures ValueUnder(law, [x, y]) == ValueUnder(law, a + b)
  {
    SumConcat(a, b);
    ProductConcat(a, b);
    PairValues(x, y);
    assert (a + b)[0] == a[0] && [x, y][0] == x;
    hide Sum, Product, Times;
    if law == L1 {
      assert Success(x) == Product(a) && Success(y) == Product(b);
    }
  }

  /** A composed standard deviation has become a variance and no longer composes with a bare standard deviation. */
  lemma {:induction false} DeviationsDoNotMix(a: seq<Term>, t: Term)
    requires a != [] && (forall i | 0 <= i < |a| :: a[i].kind == StdDev) && t.kind == StdDev
    requires Composed(a, Independent).Resolved?
    ensures Composed([Composed(a, Independent).term, t], Independent) == Unresolved(MixedDimensions)
  {
    var pair := [Composed(a, Independent).term, t];
    assert pair[0].kind == Variance && pair[1].kind == StdDev;
  }
}
