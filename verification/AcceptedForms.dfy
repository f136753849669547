/** The form of accepted programs: what the checks other than ownership come to, row by row, and acceptance as a whole. */
module AcceptedForms {
  import opened Basics
  import opened OwnershipVerifier
  import opened LineageMachine
  import opened AcceptedPrograms

  /** An earlier row of this operation has this name in its OUT cell. */
  ghost predicate DeclaredBefore(rows: seq<Row>, i: nat, op: Op, name: string)
    requires i <= |rows|
  {
    exists m | 0 <= m < i :: rows[m].op == op && CellText(rows[m].out) == name
  }

  /** An earlier measurement has written this classical value. */
  ghost predicate MeasuredBefore(rows: seq<Row>, i: nat, value: Cell)
    requires i <= |rows|
  {
    exists m | 0 <= m < i :: (rows[m].op.Measure? || rows[m].op.RemoteMeasure?) && rows[m].out == value
  }

  predicate Described(row: Row) {
    && row.faceKnown && !row.op.UnknownOp? && row.regimeKnown && row.typeKnown && row.familyKnown
    && (row.confidence.Some? ==> 0.0 <= row.confidence.value <= 1.0)
  }

  /** Operand count and angle of a gate, control apart from target, noise parameters that are probabilities. */
  predicate Shaped(row: Row) {
    && (row.op.Gate? ==> |Keys(row.ctrl)| + |Keys(row.a)| + |Keys(row.b)| == row.op.arity)
    && (row.op.Gate? && row.op.parametric ==> row.params != [])
    && (row.op.WideControlled? || (row.op.Gate? && row.op.controlled) ==> Apart(row.ctrl, row.a))
    && (row.op.Noise? ==> forall i | 0 <= i < |row.params| :: 0.0 <= row.params[i] <= 1.0)
  }

  predicate Apart(c: Cell, d: Cell) { forall k | k in Keys(c) :: !Denotes(d, k) }

  /** What the protocols and the exactness claim ask of the cells. */
  predicate Protocol(row: Row) {
    && (row.op.Teleport? ==> row.a.Ref? && row.out.Ref?)
    && (row.op.Teleport? || row.op.EntangleLink? || row.op.RemoteGate? ==> row.link != NULL)
    && (row.exactRegime ==> !row.op.Noise? && !row.approx)
  }

  function Condition(row: Row): Cell { if row.ctrl != Null then row.ctrl else row.a }

  /** The form of row i, in terms of it and the rows before it. */
  ghost predicate Formed(rows: seq<Row>, i: nat)
    requires i < |rows|
  {
    var row := rows[i];
    && Described(row)
    && (Operates(row) || row.op.Prepare? ==>
      && Shaped(row)
      && (row.node == NULL || DeclaredBefore(rows, i, DeclareNode, row.node))
      && (row.domain == NULL || row.node != NULL || DeclaredBefore(rows, i, DeclareDomain, row.domain))
      && (row.link == NULL || DeclaredBefore(rows, i, DeclareLink, row.link)))
    && (Operates(row) ==> Protocol(row))
    && (row.op.ClassicalControl? || row.op.ClassicalFeedback? ==>
      Condition(row) != Null && MeasuredBefore(rows, i, Condition(row)))
  }

  // ---- diagnostics of form ----

  ghost predicate FormGood(diags: seq<Diagnostic>) {
    forall d | d in diags :: d.code.Ownership() || !d.code.Rejects()
  }

  lemma {:induction false} GoodAppend(a: seq<Diagnostic>, b: seq<Diagnostic>)
    ensures FormGood(a + b) <==> FormGood(a) && FormGood(b)
  {
    assert forall d :: d in a + b <==> d in a || d in b;
  }

  lemma {:induction false} GoodWhen(c: bool, code: Code, row: Row)
    ensures FormGood(When(c, code, row)) <==> !c || code.Ownership() || !code.Rejects()
  {
    if c { assert When(c, code, row)[0] in When(c, code, row); }
  }

  lemma {:induction false} DescribedIff(row: Row)
    requires row.faceKnown && !row.op.UnknownOp?
    ensures FormGood(HeadDiags(row)) && FormGood(DescriptionDiags(row)) <==> Described(row)
  {
    hide FormGood;
    var c := row.confidence.Some? && !(0.0 <= row.confidence.value <= 1.0);
    GoodWhen(!row.regimeKnown, REG001, row);
    GoodWhen(!row.typeKnown, TYPE001, row);
    GoodWhen(!row.familyKnown, FAM001, row);
    GoodWhen(c, CONF001, row);
    GoodAppend(When(!row.typeKnown, TYPE001, row), When(!row.familyKnown, FAM001, row));
    GoodAppend(When(!row.typeKnown, TYPE001, row) + When(!row.familyKnown, FAM001, row), When(c, CONF001, row));
  }

  lemma {:induction false} ProbabilityIff(row: Row, params: seq<real>)
    ensures FormGood(ProbabilityDiags(row, params)) <==> forall i | 0 <= i < |params| :: 0.0 <= params[i] <= 1.0
    decreases |params|
  {
    hide FormGood;
    if params == [] {
      NothingIsGood();
    } else {
      ProbabilityIff(row, params[1..]);
      GoodWhen(!(0.0 <= params[0] <= 1.0), PROB001, row);
      GoodAppend(When(!(0.0 <= params[0] <= 1.0), PROB001, row), ProbabilityDiags(row, params[1..]));
      assert params == [params[0]] + params[1..];
    }
  }

  lemma {:induction false} NothingIsGood()
    ensures FormGood([])
  {}

  lemma {:induction false} GateIff(row: Row)
    ensures FormGood(GateDiags(row)) && (row.op.Noise? ==> FormGood(ProbabilityDiags(row, row.params))) <==> Shaped(row)
  {
    hide FormGood, Keys, ProbabilityDiags;
    var a := row.op.Gate? && |Keys(row.ctrl)| + |Keys(row.a)| + |Keys(row.b)| != row.op.arity;
    var p := row.op.Gate? && row.op.parametric && row.params == [];
    var c := row.op.Controlled() && Overlap(row.ctrl, row.a);
    GoodWhen(a, ARITY001, row);
    GoodWhen(p, PARAM001, row);
    GoodWhen(c, CTRL001, row);
    GoodAppend(When(a, ARITY001, row), When(p, PARAM001, row));
    GoodAppend(When(a, ARITY001, row) + When(p, PARAM001, row), When(c, CTRL001, row));
    ProbabilityIff(row, row.params);
    assert Overlap(row.ctrl, row.a) <==> !Apart(row.ctrl, row.a);
  }

  /** Where the row happens has been declared. */
  ghost predicate Sited(st: State, row: Row) {
    && (row.node == NULL || Declared(row.node, st.nodes))
    && (row.domain == NULL || row.node != NULL || Declared(row.domain, st.domains))
    && (row.link == NULL || Declared(row.link, st.links))
  }

  lemma {:induction false} SiteIff(st: State, row: Row)
    ensures FormGood(SiteDiags(st, row)) <==> Sited(st, row)
  {
    hide FormGood, Declared;
    var n := row.node != NULL && !Declared(row.node, st.nodes);
    var d := row.domain != NULL && !Declared(row.domain, st.domains) && row.node == NULL;
    var l := row.link != NULL && !Declared(row.link, st.links);
    GoodWhen(n, NODE001, row);
    GoodWhen(d, DOM001, row);
    GoodWhen(l, LINK001, row);
    GoodAppend(When(n, NODE001, row), When(d, DOM001, row));
    GoodAppend(When(n, NODE001, row) + When(d, DOM001, row), When(l, LINK001, row));
  }

  lemma {:induction false} FormIff(st: State, row: Row)
    ensures FormGood(FormDiags(st, row)) <==> Sited(st, row) && Shaped(row)
  {
    hide FormGood, Sited, Shaped, SiteDiags, GateDiags, ProbabilityDiags;
    var noise := if row.op.Noise? then ProbabilityDiags(row, row.params) else [];
    SiteIff(st, row);
    GateIff(row);
    NothingIsGood();
    GoodAppend(SiteDiags(st, row), GateDiags(row));
    GoodAppend(SiteDiags(st, row) + GateDiags(row), noise);
  }

  lemma {:induction false} UsesAreOwnership(own: Owners, row: Row, keys: seq<Key>)
    ensures FormGood(UseDiags(own, row, keys))
    decreases |keys|
  {
    if keys != [] { UsesAreOwnership(own, row, keys[..|keys| - 1]); }
  }

  lemma {:induction false} EffectIff(own: Owners, minted: nat, row: Row)
    requires Operates(row)
    ensures FormGood(Effect(own, minted, row).2) && FormGood(TailDiags(row)) <==> Protocol(row)
  {
    hide FormGood, Keys, MovePairs, ReleaseAll, Mint, MarkAll, Establish, Entangle, TeleportMoves, SameSite;
    NothingIsGood();
    GoodWhen(row.exactRegime && row.op.Noise?, REG002, row);
    GoodWhen(row.exactRegime && row.approx, REG003, row);
    GoodAppend(When(row.exactRegime && row.op.Noise?, REG002, row), When(row.exactRegime && row.approx, REG003, row));
    if row.op.Teleport? {
      var one := When(!row.a.Ref? || !row.out.Ref?, PROTO001, row);
      var two := When(row.a.Ref? && row.out.Ref? && row.link == NULL, PROTO002, row);
      var three := MovePairs(own, row, Keys(row.a), Keys(row.out), TeleportMoves(row)).1;
      GoodWhen(!row.a.Ref? || !row.out.Ref?, PROTO001, row);
      GoodWhen(row.a.Ref? && row.out.Ref? && row.link == NULL, PROTO002, row);
      MovesAreOwnership(own, row);
      GoodAppend(one, two);
      GoodAppend(one + two, three);
    }
    GoodWhen(row.link == NULL, EPR001, row);
    ReleasesAreOwnership(own, row);
    GoodWhen(row.link == NULL, PROTO004, row);
    GoodWhen(SameSite(own, row.ctrl, row.a), W_PROTO005, row);
    GoodAppend(When(row.link == NULL, PROTO004, row), When(SameSite(own, row.ctrl, row.a), W_PROTO005, row));
  }

  lemma {:induction false} MovesAreOwnership(own: Owners, row: Row)
    ensures FormGood(MovePairs(own, row, Keys(row.a), Keys(row.out), TeleportMoves(row)).1)
  {
    hide MovePairs, Keys;
    MovePairsCodes(own, row, Keys(row.a), Keys(row.out), TeleportMoves(row));
  }

  lemma {:induction false} ReleasesAreOwnership(own: Owners, row: Row)
    ensures FormGood(ReleaseAll(own, row, Keys(row.a)).1)
  {
    hide ReleaseAll, Keys;
    ReleaseCodes(own, row, Keys(row.a));
  }

  predicate Controlled(bits: set<Cell>, row: Row) {
    row.op.ClassicalControl? || row.op.ClassicalFeedback? ==> Condition(row) != Null && Condition(row) in bits
  }

  lemma {:induction false} ControlIff(bits: set<Cell>, row: Row)
    ensures FormGood(ControlDiags(bits, row)) <==> Controlled(bits, row)
  {
    hide FormGood;
    NothingIsGood();
    GoodWhen(true, CTL002, row);
    GoodWhen(Condition(row) !in bits, CTL003, row);
    assert [Diagnostic(CTL002, row.id)] == When(true, CTL002, row);
  }

  ghost predicate FormedIn(st: State, row: Row) {
    && Described(row)
    && (Operates(row) || row.op.Prepare? ==> Sited(st, row) && Shaped(row))
    && (Operates(row) ==> Protocol(row) && Controlled(st.bits, row))
  }

  lemma {:induction false} RowFormIff(st: State, row: Row)
    ensures FormGood(RowStep(st, row).diags) <==> FormGood(st.diags) && FormedIn(st, row)
  {
    hide FormGood, Described, Sited, Shaped, Protocol, Controlled, HeadDiags, DescriptionDiags, FormDiags, UseDiags, Touched,
      CloneDiags, Effect, ControlDiags, TailDiags, Mint;
    if !row.faceKnown || row.op.UnknownOp? {
      BadHead(st, row);
      return;
    }
    DescribedIff(row);
    GoodAppend(st.diags, HeadDiags(row));
    GoodAppend(st.diags + HeadDiags(row), DescriptionDiags(row));
    var d := st.diags + HeadDiags(row) + DescriptionDiags(row);
    FormIff(st, row);
    GoodAppend(d, FormDiags(st, row));
    if Operates(row) { OperatingRowFormIff(st, row, d); }
  }

  lemma {:induction false} BadHead(st: State, row: Row)
    requires !row.faceKnown || row.op.UnknownOp?
    ensures !FormGood(RowStep(st, row).diags) && !Described(row)
  {
    var code := if !row.faceKnown then FACE001 else OP001;
    assert Diagnostic(code, row.id) in RowStep(st, row).diags;
  }

  lemma {:induction false} OperatingRowFormIff(st: State, row: Row, d: seq<Diagnostic>)
    requires Operates(row) && row.faceKnown && d == st.diags + HeadDiags(row) + DescriptionDiags(row)
    ensures FormGood(RowStep(st, row).diags) <==>
      FormGood(d + FormDiags(st, row)) && Protocol(row) && Controlled(st.bits, row)
  {
    hide FormGood, Protocol, Controlled, HeadDiags, DescriptionDiags, FormDiags, UseDiags, Touched, CloneDiags, Effect,
      ControlDiags, TailDiags;
    var (own, minted, e) := Effect(st.own, st.minted, row);
    var bits := if row.op.Destructive() && row.out != Null then st.bits + {row.out} else st.bits;
    var f := d + FormDiags(st, row);
    var uses, clone, control := UseDiags(st.own, row, Touched(row)), CloneDiags(row), ControlDiags(bits, row);
    assert RowStep(st, row).diags == f + uses + clone + e + control + TailDiags(row);
    UsesAreOwnership(st.own, row, Touched(row));
    CloneIsOwnership(row);
    EffectIff(st.own, st.minted, row);
    ControlIff(bits, row);
    NewBitIsNoCondition(st.bits, bits, row);
    GoodAppend(f, uses);
    GoodAppend(f + uses, clone);
    GoodAppend(f + uses + clone, e);
    GoodAppend(f + uses + clone + e, control);
    GoodAppend(f + uses + clone + e + control, TailDiags(row));
  }

  lemma {:induction false} CloneIsOwnership(row: Row)
    ensures FormGood(CloneDiags(row))
  {}

  lemma {:induction false} NewBitIsNoCondition(old_: set<Cell>, bits: set<Cell>, row: Row)
    requires bits == (if row.op.Destructive() && row.out != Null then old_ + {row.out} else old_)
    ensures Controlled(bits, row) <==> Controlled(old_, row)
  {}

  // ---- what the state has seen ----

  /** The names and classical values the verifier knows are those of the rows so far. */
  ghost predicate Seen(rows: seq<Row>, i: nat, st: State)
    requires i <= |rows|
  {
    && (forall name | name != NULL :: Declared(name, st.nodes) <==> DeclaredBefore(rows, i, DeclareNode, name))
    && (forall name | name != NULL :: Declared(name, st.domains) <==> DeclaredBefore(rows, i, DeclareDomain, name))
    && (forall name | name != NULL :: Declared(name, st.links) <==> DeclaredBefore(rows, i, DeclareLink, name))
    && (forall c | c != Null :: c in st.bits <==> MeasuredBefore(rows, i, c))
  }

  lemma {:induction false} DeclaredSnoc(rows: seq<Row>, i: nat, op: Op, name: string)
    requires i < |rows|
    ensures DeclaredBefore(rows, i + 1, op, name) <==>
      DeclaredBefore(rows, i, op, name) || (rows[i].op == op && CellText(rows[i].out) == name)
  {}

  lemma {:induction false} MeasuredSnoc(rows: seq<Row>, i: nat, c: Cell)
    requires i < |rows|
    ensures MeasuredBefore(rows, i + 1, c) <==>
      MeasuredBefore(rows, i, c) || ((rows[i].op.Measure? || rows[i].op.RemoteMeasure?) && rows[i].out == c)
  {}

  lemma {:induction false} DeclaredAdd(names: set<Cell>, c: Cell, name: string)
    ensures Declared(name, names + {c}) <==> Declared(name, names) || CellText(c) == name
  {
    assert c in names + {c};
  }

  lemma {:induction false} StepLists(st: State, row: Row)
    requires row.faceKnown
    ensures var next := RowStep(st, row);
      && next.nodes == (if row.op.DeclareNode? then st.nodes + {row.out} else st.nodes)
      && next.domains == (if row.op.DeclareDomain? then st.domains + {row.out} else st.domains)
      && next.links == (if row.op.DeclareLink? then st.links + {row.out} else st.links)
      && next.bits == (if row.op.Destructive() && row.out != Null then st.bits + {row.out} else st.bits)
  {
    hide HeadDiags, DescriptionDiags, FormDiags, UseDiags, Touched, CloneDiags, Effect, ControlDiags, TailDiags, Mint;
  }

  lemma {:induction false} SeenStep(rows: seq<Row>, i: nat, st: State)
    requires i < |rows| && rows[i].faceKnown && Seen(rows, i, st)
    ensures Seen(rows, i + 1, RowStep(st, rows[i]))
  {
    hide RowStep, Declared, DeclaredBefore, MeasuredBefore, CellText;
    StepLists(st, rows[i]);
    var next, row := RowStep(st, rows[i]), rows[i];
    forall name: string | name != NULL
      ensures Declared(name, next.nodes) <==> DeclaredBefore(rows, i + 1, DeclareNode, name)
      ensures Declared(name, next.domains) <==> DeclaredBefore(rows, i + 1, DeclareDomain, name)
      ensures Declared(name, next.links) <==> DeclaredBefore(rows, i + 1, DeclareLink, name)
    {
      DeclaredSnoc(rows, i, DeclareNode, name);
      DeclaredSnoc(rows, i, DeclareDomain, name);
      DeclaredSnoc(rows, i, DeclareLink, name);
      DeclaredAdd(st.nodes, row.out, name);
      DeclaredAdd(st.domains, row.out, name);
      DeclaredAdd(st.links, row.out, name);
    }
    forall c: Cell | c != Null ensures c in next.bits <==> MeasuredBefore(rows, i + 1, c) { MeasuredSnoc(rows, i, c); }
  }

  lemma {:induction false} FormedIff(rows: seq<Row>, i: nat, st: State)
    requires i < |rows| && Seen(rows, i, st)
    ensures FormedIn(st, rows[i]) <==> Formed(rows, i)
  {
    hide Described, Shaped, Protocol, Declared, DeclaredBefore, MeasuredBefore;
  }

  lemma {:induction false} FormsSoFar(rows: seq<Row>, n: nat)
    requires n <= |rows|
    ensures FormGood(StateAfter(rows, n).diags) <==> forall i | 0 <= i < n :: Formed(rows, i)
    ensures FormGood(StateAfter(rows, n).diags) ==> Seen(rows, n, StateAfter(rows, n))
    decreases n
  {
    hide RowStep, FormGood, Formed, FormedIn, Seen;
    if n == 0 {
      NothingIsGood();
      SeenNothing(rows);
    } else {
      FormsSoFar(rows, n - 1);
      var st := StateAfter(rows, n - 1);
      RowFormIff(st, rows[n - 1]);
      StepIs(rows, n - 1);
      if FormGood(st.diags) {
        FormedIff(rows, n - 1, st);
        if FormedIn(st, rows[n - 1]) {
          FaceOfFormed(st, rows[n - 1]);
          SeenStep(rows, n - 1, st);
        }
      }
    }
  }

  lemma {:induction false} SeenNothing(rows: seq<Row>)
    ensures Seen(rows, 0, Initial)
  {}

  lemma {:induction false} FaceOfFormed(st: State, row: Row)
    requires FormedIn(st, row)
    ensures row.faceKnown
  {}

  /** Acceptance as a whole: closed policies, every row in form, and a machine of lineage tokens that runs the program
      to its end. */
  lemma {:induction false} AcceptedIff(p: Program)
    ensures Accepted(p) <==>
      && p.networkPolicy == "deny" && p.backendPolicy == "none"
      && (forall i | 0 <= i < |p.rows| :: Formed(p.rows, i))
      && Run(p.rows, |p.rows|).Some?
  {
    hide RowStep, Formed, Step;
    FormsSoFar(p.rows, |p.rows|);
    OwnershipRulesAreExact(p.rows);
    assert forall d | d in Final(p).diags :: d.code.Ownership() ==> d.code.Rejects();
  }
}
