/** What a composition of error terms says, in terms of the numbers of its terms. */
module ErrorLaws {
  import opened Basics
  import opened ErrorAlgebra

  function Values(terms: seq<Term>): (xs: seq<real>)
    ensures |xs| == |terms| && forall i | 0 <= i < |xs| :: xs[i] == terms[i].value
  {
    seq(|terms|, i requires 0 <= i < |terms| => terms[i].value)
  }

  function Total(xs: seq<real>): real { if xs == [] then 0.0 else Total(xs[..|xs| - 1]) + xs[|xs| - 1] }

  function TotalOfSquares(xs: seq<real>): real {
    if xs == [] then 0.0 else TotalOfSquares(xs[..|xs| - 1]) + xs[|xs| - 1] * xs[|xs| - 1]
  }

  /** The chance that all succeed, from the chances that each does. */
  function AllSucceed(xs: seq<real>): real { if xs == [] then 1.0 else AllSucceed(xs[..|xs| - 1]) * xs[|xs| - 1] }

  /** The chance that none fails, from the chances that each does. */
  function NoneFails(xs: seq<real>): real { if xs == [] then 1.0 else NoneFails(xs[..|xs| - 1]) * (1.0 - xs[|xs| - 1]) }

  ghost predicate OfKind(terms: seq<Term>, kind: Kind) { forall i | 0 <= i < |terms| :: terms[i].kind == kind }

  lemma {:induction false} FrontValues(terms: seq<Term>)
    requires terms != []
    ensures Values(terms)[..|terms| - 1] == Values(terms[..|terms| - 1])
  {
  }

  lemma {:induction false} SumsAre(terms: seq<Term>, kind: Kind)
    requires OfKind(terms, kind)
    ensures Sum(terms) == if kind == StdDev then TotalOfSquares(Values(terms)) else Total(Values(terms))
    decreases |terms|
  {
    hide Values;
    if terms != [] {
      SumsAre(terms[..|terms| - 1], kind);
      FrontValues(terms);
    }
  }

  lemma {:induction false} ProductsAre(terms: seq<Term>, kind: Kind)
    requires OfKind(terms, kind)
    ensures Product(terms) == if kind == SuccessProbability then AllSucceed(Values(terms)) else NoneFails(Values(terms))
    decreases |terms|
  {
    hide Values;
    if terms != [] {
      ProductsAre(terms[..|terms| - 1], kind);
      FrontValues(terms);
    }
  }

  /** The combined value that belongs to a kind and an assumption. */
  function Meaning(kind: Kind, assumption: Assumption, xs: seq<real>): real {
    match kind
    case SuccessProbability => AllSucceed(xs)
    case FailureProbability => if assumption == SmallError then Total(xs) else 1.0 - NoneFails(xs)
    case Infidelity => if assumption == SmallError then Total(xs) else 1.0 - NoneFails(xs)
    case StdDev => TotalOfSquares(xs)
    case _ => Total(xs)
  }

  /** The pairs of kind and assumption for which there is a law without covariances. */
  predicate Covered(kind: Kind, assumption: Assumption) {
    match kind
    case SuccessProbability => assumption == Independent
    case FailureProbability => assumption == Independent || assumption == SmallError
    case Infidelity => assumption == Independent || assumption == SmallError
    case LogSuccess => assumption == Independent
    case AdditiveError => assumption == SmallError
    case Variance => assumption == Independent
    case StdDev => assumption == Independent
    case Duration => assumption == Independent
    case _ => false
  }

  /** One kind and unit throughout, at most one epoch, and independence declared where it is claimed. */
  ghost predicate Comparable(terms: seq<Term>, assumption: Assumption) {
    && (forall i, j | 0 <= i < |terms| && 0 <= j < |terms| ::
          terms[i].kind == terms[j].kind && terms[i].unit == terms[j].unit)
    && (forall i, j | 0 <= i < |terms| && 0 <= j < |terms| && terms[i].epoch.Some? && terms[j].epoch.Some? ::
          terms[i].epoch == terms[j].epoch)
    && (assumption == Independent ==> forall i | 0 <= i < |terms| ::
          terms[i].independence != Correlated && terms[i].independence != UnknownCorrelation)
  }

  /** A composition resolves exactly when its terms are comparable, a law covers them, and the outcome stays in range:
      an additive error at most one, a probability between zero and one. */
  lemma {:induction false} ResolvesIff(terms: seq<Term>, assumption: Assumption)
    requires terms != []
    ensures Composed(terms, assumption).Resolved? <==>
      && Comparable(terms, assumption) && Covered(terms[0].kind, assumption)
      && (assumption == SmallError ==> Total(Values(terms)) <= 1.0)
      && (terms[0].unit == Probability && terms[0].kind != StdDev && terms[0].kind != Variance ==>
            0.0 <= Meaning(terms[0].kind, assumption, Values(terms)) <= 1.0)
  {
    hide Sum, Product, Total, TotalOfSquares, AllSucceed, NoneFails, Values, Epoch;
    ComparableIff(terms, assumption);
    if SameDimension(terms) {
      assert OfKind(terms, terms[0].kind);
      SumsAre(terms, terms[0].kind);
      ProductsAre(terms, terms[0].kind);
    }
  }

  lemma {:induction false} ComparableIff(terms: seq<Term>, assumption: Assumption)
    ensures Comparable(terms, assumption) <==>
      SameDimension(terms) && SameEpoch(terms) && (assumption == Independent ==> Justified(terms))
  {
    if assumption == Independent && Justified(terms) {
      forall i | 0 <= i < |terms|
        ensures terms[i].independence != Correlated && terms[i].independence != UnknownCorrelation {}
    }
  }

  ghost predicate OneDimension(terms: seq<Term>) {
    forall i, j | 0 <= i < |terms| && 0 <= j < |terms| ::
      terms[i].kind == terms[j].kind && terms[i].unit == terms[j].unit
  }

  ghost predicate DeclaresDependence(terms: seq<Term>) {
    exists i | 0 <= i < |terms| :: terms[i].independence == Correlated || terms[i].independence == UnknownCorrelation
  }

  ghost predicate OneEpoch(terms: seq<Term>) {
    forall i, j | 0 <= i < |terms| && 0 <= j < |terms| && terms[i].epoch.Some? && terms[j].epoch.Some? ::
      terms[i].epoch == terms[j].epoch
  }

  predicate Covariances(kind: Kind, assumption: Assumption) {
    assumption == Correlated && (kind == Variance || kind == StdDev)
  }

  /** Why a composition does not resolve: the first of these reasons that applies, in this order. */
  lemma {:induction false} ReasonsInOrder(terms: seq<Term>, assumption: Assumption)
    requires terms != []
    ensures var o, kind := Composed(terms, assumption), terms[0].kind;
      if !OneDimension(terms) then o == Unresolved(MixedDimensions)
      else if assumption == Independent && DeclaresDependence(terms) then o == Unresolved(UnjustifiedIndependence)
      else if assumption == UnknownCorrelation then o == Unresolved(UnknownStructure)
      else if !Covered(kind, assumption) && !Covariances(kind, assumption) then o == Unresolved(NoLaw)
      else if !OneEpoch(terms) then o == Unresolved(MixedEpochs)
      else if Covariances(kind, assumption) then o == Unresolved(NeedsCovariance)
      else if assumption == SmallError && Total(Values(terms)) > 1.0 then o == Unresolved(OutsideDomain)
      else o == Refused || o.Resolved?
  {
    hide Sum, Product, Total, Values, Combined, WellFormed, SameDimension, SameEpoch, Justified, OneDimension, OneEpoch,
      DeclaresDependence;
    DimensionIff(terms);
    DependenceIff(terms);
    if OneDimension(terms) { SumOfOneDimension(terms); }
  }

  lemma {:induction false} DimensionIff(terms: seq<Term>)
    ensures OneDimension(terms) <==> SameDimension(terms)
    ensures OneEpoch(terms) <==> SameEpoch(terms)
  {
  }

  lemma {:induction false} SumOfOneDimension(terms: seq<Term>)
    requires terms != [] && OneDimension(terms)
    ensures terms[0].kind != StdDev ==> Sum(terms) == Total(Values(terms))
  {
    SumsAre(terms, terms[0].kind);
  }

  lemma {:induction false} DependenceIff(terms: seq<Term>)
    ensures DeclaresDependence(terms) <==> !Justified(terms)
  {
    if !DeclaresDependence(terms) {
      forall i | 0 <= i < |terms|
        ensures terms[i].independence in {Independent, ExactMultiplicative, ExactLogarithmic, SmallError} {}
    }
  }

  /** What a resolved composition says: the value that belongs to kind and assumption, as a variance for deviations,
      with the unit kept except that a variance is no probability, and with what an additive law neglects. */
  lemma {:induction false} ResolvedMeans(terms: seq<Term>, assumption: Assumption)
    requires terms != [] && Composed(terms, assumption).Resolved?
    ensures var o, xs, first := Composed(terms, assumption), Values(terms), terms[0];
      && o.term.value == Meaning(first.kind, assumption, xs)
      && o.term.kind == (if first.kind == StdDev then Variance else first.kind)
      && o.term.unit == (if (first.kind == StdDev || first.kind == Variance) && first.unit == Probability then Dimensionless
                         else first.unit)
      && o.term.independence == assumption
      && (forall i | 0 <= i < |terms| && terms[i].epoch.Some? :: o.term.epoch == terms[i].epoch)
      && ((forall i | 0 <= i < |terms| :: terms[i].epoch == None) ==> o.term.epoch == None)
      && o.neglected == (if assumption == SmallError then Distance(Total(xs), 1.0 - NoneFails(xs)) else 0.0)
  {
    hide Sum, Product, Total, TotalOfSquares, AllSucceed, NoneFails, Values, Epoch;
    assert OfKind(terms, terms[0].kind);
    SumsAre(terms, terms[0].kind);
    ProductsAre(terms, terms[0].kind);
    if Epoch(terms).Some? {
      var i := EpochIsDeclared(terms);
    }
    NoEpoch(terms);
  }

  lemma {:induction false} NoEpoch(terms: seq<Term>)
    ensures Epoch(terms) == None <==> forall i | 0 <= i < |terms| :: terms[i].epoch == None
    decreases |terms|
  {
    if terms != [] {
      NoEpoch(terms[..|terms| - 1]);
      assert forall i | 0 <= i < |terms| - 1 :: terms[..|terms| - 1][i] == terms[i];
    }
  }

  function Distance(x: real, y: real): real { if x < y then y - x else x - y }

  /** Two independent deviations compose to the sum of their squares, as a variance. */
  lemma {:induction false} TwoDeviations(x: Term, y: Term)
    requires x.kind == y.kind == StdDev && x.unit == y.unit && (x.epoch.Some? && y.epoch.Some? ==> x.epoch == y.epoch)
    requires !DeclaresDependence([x, y])
    ensures var o := Composed([x, y], Independent);
      o.Resolved? && o.law == L4 && o.term.kind == Variance && o.term.value == x.value * x.value + y.value * y.value
  {
    var terms := [x, y];
    assert Values(terms) == [x.value, y.value];
    SquaresOfTwo(x.value, y.value);
    assert OneDimension(terms) && OneEpoch(terms);
    hide Sum, Product, Total, TotalOfSquares, AllSucceed, NoneFails, Values, Epoch, SameEpoch, SameDimension, Justified;
    DependenceIff(terms);
    DimensionIff(terms);
    ComparableIff(terms, Independent);
    ResolvesIff(terms, Independent);
    ResolvedMeans(terms, Independent);
  }

  lemma {:induction false} SquaresOfTwo(x: real, y: real)
    ensures TotalOfSquares([x, y]) == x * x + y * y
  {
    assert [x, y][..1] == [x] && [x][..0] == [];
    assert TotalOfSquares([x]) == 0.0 + x * x;
  }
}
