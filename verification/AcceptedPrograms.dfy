/** What acceptance by the verifier means, in terms of the cells of the rows alone. */
module AcceptedPrograms {
  import opened Basics
  import opened OwnershipVerifier
  import opened LineageMachine

  /** A row that uses objects: it is neither a declaration nor an annotation nor a preparation. */
  predicate Operates(row: Row) {
    match row.op
    case UnknownOp => false
    case DeclareNode => false
    case DeclareDomain => false
    case DeclareLink => false
    case Annotation => false
    case Prepare => false
    case _ => true
  }

  /** The row refers to the object in one of its four operand cells. */
  predicate Names(row: Row, k: Key) {
    Denotes(row.ctrl, k) || Denotes(row.a, k) || Denotes(row.b, k) || Denotes(row.out, k)
  }

  predicate Prepares(row: Row, k: Key) { row.op.Prepare? && Denotes(row.out, k) }

  /** A row that can bring an object into being: it is prepared, made by a link, or teleported to. */
  predicate Provides(row: Row, k: Key) {
    (row.op.Prepare? || row.op.EntangleLink? || row.op.Teleport?) && Denotes(row.out, k)
  }

  predicate Measures(row: Row, k: Key) {
    (row.op.Measure? || row.op.RemoteMeasure?) && Denotes(if row.a.Ref? then row.a else row.ctrl, k)
  }

  /** The key is a source of the teleport with a destination, and no destination itself. */
  predicate Departs(row: Row, k: Key) {
    row.op.Teleport? && !Denotes(row.out, k) && exists n | 0 <= n < |Keys(row.a)| :: Keys(row.a)[n] == k && n < |Keys(row.out)|
  }

  predicate Releases(row: Row, k: Key) { row.op.EprRelease? && Denotes(row.a, k) }

  // ---- a row leaves what it does not name alone ----

  lemma {:induction false} NamedIsTouched(row: Row, k: Key)
    ensures Names(row, k) ==> k in Touched(row)
  {
    if Denotes(row.out, k) { assert k in Writes(row); }
  }

  lemma {:induction false} TouchedIsNamed(row: Row, k: Key)
    ensures k in Touched(row) ==> Names(row, k)
  {
    hide Keys;
  }

  /** What the verifier knows of the object is the same in both, lineage, state and node. */
  predicate SameRecord(a: Owners, b: Owners, k: Key) {
    (k in a <==> k in b) &&
    (k in a ==> b[k].state == a[k].state && b[k].lineage == a[k].lineage && b[k].node == a[k].node)
  }

  lemma {:induction false} MintFrame(own: Owners, minted: nat, row: Row, keys: seq<Key>, k: Key)
    ensures var o := Mint(own, minted, row, keys).0;
      if k in keys then k in o && o[k].state == LIVE && o[k].node == row.node else SameRecord(own, o, k)
    decreases |keys|
  {
    if keys != [] {
      assert keys == keys[..|keys| - 1] + [keys[|keys| - 1]];
      MintFrame(own, minted, row, keys[..|keys| - 1], k);
    }
  }

  lemma {:induction false} MarkFrame(own: Owners, row: Row, keys: seq<Key>, k: Key)
    ensures k !in keys ==> SameRecord(own, MarkAll(own, row, keys), k)
    ensures k in keys && k in own ==> k in MarkAll(own, row, keys) && MarkAll(own, row, keys)[k].state == MEASURED
    ensures k in own <==> k in MarkAll(own, row, keys)
    decreases |keys|
  {
    if keys != [] {
      assert keys == keys[..|keys| - 1] + [keys[|keys| - 1]];
      MarkFrame(own, row, keys[..|keys| - 1], k);
    }
  }

  lemma {:induction false} MoveFrame(own: Owners, row: Row, src: seq<Key>, dst: seq<Key>, n: nat, k: Key)
    requires n <= |src| && n <= |dst|
    ensures k !in src[..n] && k !in dst[..n] ==> SameRecord(own, MovePairs(own, row, src, dst, n).0, k)
    ensures k in own && k in src[..n] && k !in dst[..n] ==>
      k in MovePairs(own, row, src, dst, n).0 && MovePairs(own, row, src, dst, n).0[k].state == MOVED
    ensures k in own ==> k in MovePairs(own, row, src, dst, n).0
    decreases n
  {
    if n > 0 {
      assert src[..n] == src[..n - 1] + [src[n - 1]] && dst[..n] == dst[..n - 1] + [dst[n - 1]];
      MoveFrame(own, row, src, dst, n - 1, k);
    }
  }

  lemma {:induction false} ReleaseFrame(own: Owners, row: Row, keys: seq<Key>, k: Key)
    ensures k !in keys ==> SameRecord(own, ReleaseAll(own, row, keys).0, k)
    ensures k in own && k in keys ==> k in ReleaseAll(own, row, keys).0 && ReleaseAll(own, row, keys).0[k].state == RELEASED
    ensures k in own <==> k in ReleaseAll(own, row, keys).0
    decreases |keys|
  {
    if keys != [] {
      assert keys == keys[..|keys| - 1] + [keys[|keys| - 1]];
      ReleaseFrame(own, row, keys[..|keys| - 1], k);
    }
  }

  lemma {:induction false} EstablishFrame(own: Owners, minted: nat, row: Row, keys: seq<Key>, k: Key)
    ensures k in own || k !in keys || !LooksQuantum(row, k) ==> SameRecord(own, Establish(own, minted, row, keys).0, k)
    decreases |keys|
  {
    if keys != [] {
      assert keys == keys[..|keys| - 1] + [keys[|keys| - 1]];
      EstablishFrame(own, minted, row, keys[..|keys| - 1], k);
    }
  }

  lemma {:induction false} EntangleFrame(own: Owners, c: Cell, a: Cell, k: Key)
    ensures SameRecord(own, Entangle(own, c, a), k)
  {}

  lemma {:induction false} TeleportKeys(row: Row, k: Key)
    requires k in Keys(row.a)[..TeleportMoves(row)] || k in Keys(row.out)[..TeleportMoves(row)]
    ensures Names(row, k)
  {
    hide Keys, Elements;
    if k in Keys(row.a)[..TeleportMoves(row)] {
      assert k in Keys(row.a);
    } else {
      assert k in Keys(row.out);
    }
  }

  lemma {:induction false} EffectFrame(own: Owners, minted: nat, row: Row, k: Key)
    requires Operates(row) && !Names(row, k)
    ensures SameRecord(own, Effect(own, minted, row).0, k)
  {
    hide Keys, MarkAll, MovePairs, Mint, ReleaseAll, Entangle, Establish, TeleportMoves, Writes;
    MarkFrame(own, row, Keys(MeasuredCell(row)), k);
    if row.op.Teleport? {
      MoveFrame(own, row, Keys(row.a), Keys(row.out), TeleportMoves(row), k);
      if k in Keys(row.a)[..TeleportMoves(row)] || k in Keys(row.out)[..TeleportMoves(row)] { TeleportKeys(row, k); }
    }
    MintFrame(own, minted, row, Keys(row.out), k);
    ReleaseFrame(own, row, Keys(row.a), k);
    EntangleFrame(own, row.ctrl, row.a, k);
    EstablishFrame(own, minted, row, Writes(row), k);
    TouchedIsNamed(row, k);
    assert k in Writes(row) ==> k in Touched(row);
  }

  // ---- rejection ----

  lemma {:induction false} UseReported(own: Owners, row: Row, keys: seq<Key>, k: Key)
    requires k in keys && UseCode(own, row, k).Some?
    ensures Diagnostic(UseCode(own, row, k).value, row.id) in UseDiags(own, row, keys)
    decreases |keys|
  {
    if keys[|keys| - 1] != k {
      assert keys == keys[..|keys| - 1] + [keys[|keys| - 1]];
      UseReported(own, row, keys[..|keys| - 1], k);
    }
  }

  ghost predicate Objects(st: State, row: Row) { exists d | d in RowStep(st, row).diags :: d.code.Rejects() }

  lemma {:induction false} BadUseRejects(st: State, row: Row, k: Key)
    requires row.faceKnown && Operates(row) && Names(row, k) && UseCode(st.own, row, k).Some?
    ensures Objects(st, row)
  {
    hide Keys, Effect, Touched, UseDiags, FormDiags, UseCode, CloneDiags, ControlDiags, TailDiags, HeadDiags, DescriptionDiags;
    NamedIsTouched(row, k);
    UseReported(st.own, row, Touched(row), k);
    var d := Diagnostic(UseCode(st.own, row, k).value, row.id);
    assert d in RowStep(st, row).diags;
    UseRejects(st.own, row, k);
  }

  lemma {:induction false} UseRejects(own: Owners, row: Row, k: Key)
    ensures UseCode(own, row, k).Some? ==> UseCode(own, row, k).value.Rejects()
  {}

  /** No row of an accepted program is objected to. */
  lemma {:induction false} AcceptedRow(p: Program, i: nat)
    requires Accepted(p) && i < |p.rows|
    ensures p.rows[i].faceKnown && !Objects(StateAfter(p.rows, i), p.rows[i])
  {
    hide RowStep;
    FaceKnown(p, i);
    DiagsOnlyGrow(p.rows, i + 1, |p.rows|);
    var early, all := StateAfter(p.rows, i + 1).diags, StateAfter(p.rows, |p.rows|).diags;
    assert forall d | d in early :: d in all by { assert all == early + all[|early|..]; }
  }

  /** In an accepted program every object a row names is live, or nothing is known of it and the row does not take it
      for a quantum object. */
  lemma {:induction false} NamedIsLive(p: Program, i: nat, k: Key)
    requires Accepted(p) && i < |p.rows| && Operates(p.rows[i]) && Names(p.rows[i], k)
    ensures UseCode(StateAfter(p.rows, i).own, p.rows[i], k) == None
  {
    hide Operates, Names, UseCode, Objects;
    AcceptedRow(p, i);
    if UseCode(StateAfter(p.rows, i).own, p.rows[i], k).Some? { BadUseRejects(StateAfter(p.rows, i), p.rows[i], k); }
  }

  lemma {:induction false} StepIs(rows: seq<Row>, n: nat)
    requires n < |rows|
    ensures StateAfter(rows, n + 1) == RowStep(StateAfter(rows, n), rows[n])
  {}

  /** One row: an object that neither it names as an operation nor it prepares stays as it is. */
  lemma {:induction false} RowFrame(st: State, row: Row, k: Key)
    requires !k.Raw? && row.faceKnown && !Prepares(row, k) && !(Operates(row) && Names(row, k))
    ensures SameRecord(st.own, RowStep(st, row).own, k)
  {
    hide Keys, Effect, Mint, Touched, UseDiags, FormDiags, CloneDiags, ControlDiags, TailDiags, HeadDiags, DescriptionDiags;
    if Operates(row) {
      EffectFrame(st.own, st.minted, row, k);
    } else if row.op.Prepare? {
      MintFrame(st.own, st.minted, row, Targets(row), k);
    }
  }

  /** What is dead stays dead in the same way until it is prepared again. */
  lemma {:induction false} DeadUntilPrepared(p: Program, i: nat, n: nat, k: Key)
    requires Accepted(p) && i <= n <= |p.rows| && !k.Raw?
    requires k in StateAfter(p.rows, i).own && StateAfter(p.rows, i).own[k].state != LIVE
    requires forall m | i <= m < n :: !Prepares(p.rows[m], k)
    ensures k in StateAfter(p.rows, n).own && StateAfter(p.rows, n).own[k].state == StateAfter(p.rows, i).own[k].state
    decreases n
  {
    hide RowStep, Prepares, Operates, Names;
    if i < n {
      DeadUntilPrepared(p, i, n - 1, k);
      AcceptedRow(p, n - 1);
      StepIs(p.rows, n - 1);
      if Operates(p.rows[n - 1]) && Names(p.rows[n - 1], k) { NamedIsLive(p, n - 1, k); }
      RowFrame(StateAfter(p.rows, n - 1), p.rows[n - 1], k);
    }
  }

  lemma {:induction false} EffectObjects(st: State, row: Row, d: Diagnostic)
    requires row.faceKnown && Operates(row) && d in Effect(st.own, st.minted, row).2 && d.code.Rejects()
    ensures Objects(st, row)
  {
    hide Effect, UseDiags, FormDiags, CloneDiags, ControlDiags, TailDiags, HeadDiags, DescriptionDiags;
    assert d in RowStep(st, row).diags;
  }

  lemma {:induction false} UnknownRelease(own: Owners, row: Row, keys: seq<Key>, k: Key)
    requires k in keys && k !in own
    ensures Diagnostic(EPR002, row.id) in ReleaseAll(own, row, keys).1
    decreases |keys|
  {
    ReleaseFrame(own, row, keys[..|keys| - 1], k);
    if keys[|keys| - 1] != k {
      assert keys == keys[..|keys| - 1] + [keys[|keys| - 1]];
      UnknownRelease(own, row, keys[..|keys| - 1], k);
    }
  }

  lemma {:induction false} UnknownDeparture(own: Owners, row: Row, src: seq<Key>, dst: seq<Key>, n: nat, k: Key)
    requires n <= |src| && n <= |dst| && k in src[..n] && k !in dst[..n] && k !in own
    ensures Diagnostic(PROTO003, row.id) in MovePairs(own, row, src, dst, n).1
    decreases n
  {
    assert src[..n] == src[..n - 1] + [src[n - 1]] && dst[..n] == dst[..n - 1] + [dst[n - 1]];
    if k in src[..n - 1] {
      UnknownDeparture(own, row, src, dst, n - 1, k);
    } else {
      MoveFrame(own, row, src, dst, n - 1, k);
    }
  }

  lemma {:induction false} DepartureMoves(st: State, row: Row, k: Key)
    requires row.faceKnown && !Objects(st, row) && Departs(row, k)
    ensures k in RowStep(st, row).own && RowStep(st, row).own[k].state == MOVED
  {
    hide Objects, Keys, MovePairs, UseDiags, FormDiags, CloneDiags, ControlDiags, TailDiags, HeadDiags, DescriptionDiags;
    var src, dst, moves := Keys(row.a), Keys(row.out), TeleportMoves(row);
    var n :| 0 <= n < |src| && src[n] == k && n < |dst|;
    assert row.a.Ref? && row.out.Ref? by { assert Denotes(row.a, src[n]) && Denotes(row.out, dst[n]); }
    if row.link == NULL {
      assert Diagnostic(PROTO002, row.id) in Effect(st.own, st.minted, row).2;
      EffectObjects(st, row, Diagnostic(PROTO002, row.id));
    }
    assert src[..moves][n] == k;
    assert k !in dst[..moves] by { assert !Denotes(row.out, k); }
    if k !in st.own {
      UnknownDeparture(st.own, row, src, dst, moves, k);
      EffectObjects(st, row, Diagnostic(PROTO003, row.id));
    }
    MoveFrame(st.own, row, src, dst, moves, k);
  }

  /** How a row finishes off an object that it names. */
  function EndOf(row: Row): Hold {
    if row.op.Teleport? then MOVED else if row.op.EprRelease? then RELEASED else MEASURED
  }

  /** A row that finishes off an object it names leaves it dead. */
  lemma {:induction false} EndsDead(st: State, row: Row, k: Key)
    requires row.faceKnown && !Objects(st, row)
    requires (Measures(row, k) && k in st.own) || Departs(row, k) || Releases(row, k)
    ensures k in RowStep(st, row).own && RowStep(st, row).own[k].state == EndOf(row)
  {
    hide Keys, MarkAll, MovePairs, Mint, ReleaseAll, UseDiags, FormDiags, CloneDiags, ControlDiags, TailDiags, HeadDiags, DescriptionDiags;
    if Measures(row, k) {
      MarkFrame(st.own, row, Keys(MeasuredCell(row)), k);
    } else if Releases(row, k) {
      ReleaseFrame(st.own, row, Keys(row.a), k);
      if k !in st.own {
        UnknownRelease(st.own, row, Keys(row.a), k);
        EffectObjects(st, row, Diagnostic(EPR002, row.id));
      }
    } else {
      DepartureMoves(st, row, k);
    }
  }

  /**
   * The verifier's promise, on the cells of the rows. When row i of an accepted program measures an object it knows,
   * teleports it away or releases it, no later row names the object before some row in between prepares it again.
   */
  lemma {:induction false} DeadNeedsPreparation(p: Program, i: nat, j: nat, k: Key)
    requires Accepted(p) && i < j < |p.rows|
    requires (Measures(p.rows[i], k) && k in StateAfter(p.rows, i).own) || Departs(p.rows[i], k) || Releases(p.rows[i], k)
    requires Operates(p.rows[j]) && Names(p.rows[j], k)
    ensures exists m :: i < m < j && Prepares(p.rows[m], k)
  {
    hide RowStep, Prepares, Operates, Names, Objects, Keys;
    AcceptedRow(p, i);
    StepIs(p.rows, i);
    EndsDead(StateAfter(p.rows, i), p.rows[i], k);
    NotRaw(p.rows[j], k);
    if forall m | i + 1 <= m < j :: !Prepares(p.rows[m], k) {
      DeadUntilPrepared(p, i + 1, j, k);
      NamedIsLive(p, j, k);
    }
  }

  lemma {:induction false} StatePrefix(rows: seq<Row>, j: nat, n: nat)
    requires n <= j <= |rows|
    ensures StateAfter(rows[..j], n) == StateAfter(rows, n)
    decreases n
  {
    hide RowStep;
    if n > 0 { StatePrefix(rows, j, n - 1); }
  }

  lemma {:induction false} UseIsLogged(rows: seq<Row>, j: nat, k: Key)
    requires j < |rows| && rows[j].faceKnown && Operates(rows[j]) && Names(rows[j], k)
    requires UseCode(StateAfter(rows, j).own, rows[j], k).Some?
    ensures Diagnostic(UseCode(StateAfter(rows, j).own, rows[j], k).value, rows[j].id) in StateAfter(rows, j + 1).diags
  {
    hide Keys, Effect, Touched, UseDiags, FormDiags, UseCode, CloneDiags, ControlDiags, TailDiags, HeadDiags, DescriptionDiags;
    var st := StateAfter(rows, j);
    StepIs(rows, j);
    NamedIsTouched(rows[j], k);
    UseReported(st.own, rows[j], Touched(rows[j]), k);
  }

  /** The first row that breaks the promise is told why: the object was measured, teleported away or released. */
  lemma {:induction false} DeadUseIsExplained(rows: seq<Row>, i: nat, j: nat, k: Key)
    requires i < j < |rows| && Accepted(Program("deny", "none", rows[..j]))
    requires (Measures(rows[i], k) && k in StateAfter(rows, i).own) || Departs(rows[i], k) || Releases(rows[i], k)
    requires forall m | i < m < j :: !Prepares(rows[m], k)
    requires rows[j].faceKnown && Operates(rows[j]) && Names(rows[j], k)
    ensures var code := if rows[i].op.Teleport? then OWN001 else if rows[i].op.EprRelease? then OWN006 else OWN002;
      Diagnostic(code, rows[j].id) in StateAfter(rows, j + 1).diags
  {
    hide RowStep, Prepares, Operates, Names, Objects, Keys;
    var p := Program("deny", "none", rows[..j]);
    AcceptedRow(p, i);
    StepIs(p.rows, i);
    StatePrefix(rows, j, i);
    StatePrefix(rows, j, j);
    EndsDead(StateAfter(p.rows, i), p.rows[i], k);
    NotRaw(rows[j], k);
    DeadUntilPrepared(p, i + 1, j, k);
    UseIsLogged(rows, j, k);
  }

  /** A first use of a quantum object that nothing provided is told so. */
  lemma {:induction false} UnprovidedUseIsExplained(rows: seq<Row>, j: nat, k: Key)
    requires j < |rows| && Accepted(Program("deny", "none", rows[..j])) && forall m | 0 <= m < j :: !Provides(rows[m], k)
    requires rows[j].faceKnown && Operates(rows[j]) && Names(rows[j], k)
    requires rows[j].quantumType || ((rows[j].op.Gate? || rows[j].op.Noise?) && QuantumObject(k))
    ensures Diagnostic(OWN005, rows[j].id) in StateAfter(rows, j + 1).diags
  {
    hide RowStep, Provides, Operates, Names, Objects, Keys;
    var p := Program("deny", "none", rows[..j]);
    StatePrefix(rows, j, j);
    NotRaw(rows[j], k);
    HintedIsQuantum(rows[j], k);
    assert forall m | 0 <= m < j :: p.rows[m] == rows[m];
    if k in StateAfter(p.rows, j).own { KnownIsProvided(p, j, k); }
    UseIsLogged(rows, j, k);
  }

  lemma {:induction false} NotRaw(row: Row, k: Key)
    requires Names(row, k)
    ensures !k.Raw?
  {}

  // ---- use before preparation, place, copies ----

  /** Nothing is known of an object before some row provides it. */
  lemma {:induction false} KnownIsProvided(p: Program, n: nat, k: Key)
    requires Accepted(p) && n <= |p.rows| && !k.Raw? && k in StateAfter(p.rows, n).own
    ensures exists m :: 0 <= m < n && Provides(p.rows[m], k)
    decreases n
  {
    hide RowStep, Provides, Objects;
    assert n > 0 by { assert StateAfter(p.rows, 0).own == map[]; }
    AcceptedRow(p, n - 1);
    StepIs(p.rows, n - 1);
    if k in StateAfter(p.rows, n - 1).own {
      KnownIsProvided(p, n - 1, k);
      var m :| 0 <= m < n - 1 && Provides(p.rows[m], k);
      assert 0 <= m < n && Provides(p.rows[m], k);
    } else {
      NewIsProvided(StateAfter(p.rows, n - 1), p.rows[n - 1], k);
    }
  }

  lemma {:induction false} NewIsProvided(st: State, row: Row, k: Key)
    requires !k.Raw? && row.faceKnown && !Objects(st, row) && k !in st.own && k in RowStep(st, row).own
    ensures Provides(row, k)
  {
    hide Objects, RowStep, Keys, UseCode;
    if !(Operates(row) && Names(row, k)) {
      if !Prepares(row, k) { RowFrame(st, row, k); }
    } else {
      if UseCode(st.own, row, k).Some? { BadUseRejects(st, row, k); }
      StepOwners(st, row);
      NewByEffect(st.own, st.minted, row, k);
    }
  }

  lemma {:induction false} StepOwners(st: State, row: Row)
    requires row.faceKnown && Operates(row)
    ensures RowStep(st, row).own == Effect(st.own, st.minted, row).0
  {
    hide Effect, UseDiags, FormDiags, CloneDiags, ControlDiags, TailDiags, HeadDiags, DescriptionDiags;
  }

  lemma {:induction false} NewByEffect(own: Owners, minted: nat, row: Row, k: Key)
    requires Operates(row) && k !in own && UseCode(own, row, k) == None && k in Effect(own, minted, row).0
    ensures Provides(row, k)
  {
    hide Keys, MarkAll, MovePairs, Mint, ReleaseAll, Entangle, Establish, TeleportMoves, Writes;
    MarkFrame(own, row, Keys(MeasuredCell(row)), k);
    if row.op.Teleport? {
      MoveNew(own, row, Keys(row.a), Keys(row.out), TeleportMoves(row), k);
      assert k in Keys(row.out);
    }
    MintFrame(own, minted, row, Keys(row.out), k);
    ReleaseFrame(own, row, Keys(row.a), k);
    EntangleFrame(own, row.ctrl, row.a, k);
    EstablishFrame(own, minted, row, Writes(row), k);
  }

  lemma {:induction false} MoveNew(own: Owners, row: Row, src: seq<Key>, dst: seq<Key>, n: nat, k: Key)
    requires n <= |src| && n <= |dst|
    ensures k !in own && k in MovePairs(own, row, src, dst, n).0 ==> k in dst[..n] && k in dst
    decreases n
  {
    if n > 0 {
      assert dst[..n] == dst[..n - 1] + [dst[n - 1]];
      MoveNew(own, row, src, dst, n - 1, k);
    }
  }

  /** The name of a quantum object, by its beginning. */
  predicate QuantumObject(k: Key) { !k.Raw? && exists h | h in HINTS :: h <= k.name }

  const HINTS: seq<string> := ["q", "anc", "ebit", "psi", "rho", "log"]

  /** A row of quantum type, or a gate or noise on an object with a quantum name, uses only what an earlier row
      provided. */
  lemma {:induction false} ProvidedBeforeUse(p: Program, j: nat, k: Key)
    requires Accepted(p) && j < |p.rows| && Operates(p.rows[j]) && Names(p.rows[j], k)
    requires p.rows[j].quantumType || ((p.rows[j].op.Gate? || p.rows[j].op.Noise?) && QuantumObject(k))
    ensures exists m :: 0 <= m < j && Provides(p.rows[m], k)
  {
    hide Operates, Names, Provides;
    NamedIsLive(p, j, k);
    NotRaw(p.rows[j], k);
    HintedIsQuantum(p.rows[j], k);
    KnownIsProvided(p, j, k);
  }

  lemma {:induction false} JoinObjects(st: State, row: Row, k: Key)
    requires row.faceKnown && row.op.Joint? && Denotes(row.a, k) && Denotes(row.b, k)
    ensures Objects(st, row)
  {
    hide Keys, Effect, UseDiags, FormDiags, ControlDiags, TailDiags, HeadDiags, DescriptionDiags;
    assert Overlap(row.a, row.b) by { assert k in Keys(row.a) && k in Keys(row.b); }
    assert Diagnostic(CLONE001, row.id) in RowStep(st, row).diags;
  }

  /** A row that joins two operands never has one object in both. */
  lemma {:induction false} JoinsAreDisjoint(p: Program, i: nat, k: Key)
    requires Accepted(p) && i < |p.rows| && p.rows[i].op.Joint?
    ensures !(Denotes(p.rows[i].a, k) && Denotes(p.rows[i].b, k))
  {
    hide Objects, RowStep;
    AcceptedRow(p, i);
    if Denotes(p.rows[i].a, k) && Denotes(p.rows[i].b, k) { JoinObjects(StateAfter(p.rows, i), p.rows[i], k); }
  }

  lemma {:induction false} MarkKeepsNode(own: Owners, row: Row, keys: seq<Key>, k: Key)
    ensures k in own ==> k in MarkAll(own, row, keys) && MarkAll(own, row, keys)[k].node == own[k].node
    decreases |keys|
  {
    if keys != [] { MarkKeepsNode(own, row, keys[..|keys| - 1], k); }
  }

  lemma {:induction false} MoveKeepsNode(own: Owners, row: Row, src: seq<Key>, dst: seq<Key>, n: nat, k: Key)
    requires n <= |src| && n <= |dst|
    ensures var o := MovePairs(own, row, src, dst, n).0;
      k in own && k !in dst[..n] ==> k in o && o[k].node == own[k].node
    ensures var (o, d) := MovePairs(own, row, src, dst, n); d == [] && k in dst[..n] ==> k in o && o[k].node == row.node
    decreases n
  {
    if n > 0 {
      assert dst[..n] == dst[..n - 1] + [dst[n - 1]];
      MoveKeepsNode(own, row, src, dst, n - 1, k);
    }
  }

  lemma {:induction false} ReleaseKeepsNode(own: Owners, row: Row, keys: seq<Key>, k: Key)
    ensures var o := ReleaseAll(own, row, keys).0; k in own ==> k in o && o[k].node == own[k].node
    decreases |keys|
  {
    if keys != [] { ReleaseKeepsNode(own, row, keys[..|keys| - 1], k); }
  }

  lemma {:induction false} EffectKeepsNode(own: Owners, minted: nat, row: Row, k: Key)
    requires Operates(row) && k in own && !Provides(row, k)
    ensures var o := Effect(own, minted, row).0; k in o && o[k].node == own[k].node
  {
    hide Keys, MarkAll, MovePairs, Mint, ReleaseAll, Entangle, Establish, TeleportMoves, Writes;
    MarkKeepsNode(own, row, Keys(MeasuredCell(row)), k);
    MoveKeepsNode(own, row, Keys(row.a), Keys(row.out), TeleportMoves(row), k);
    assert k in Keys(row.out)[..TeleportMoves(row)] ==> k in Keys(row.out);
    MintFrame(own, minted, row, Keys(row.out), k);
    ReleaseKeepsNode(own, row, Keys(row.a), k);
    EntangleFrame(own, row.ctrl, row.a, k);
    EstablishFrame(own, minted, row, Writes(row), k);
  }

  /** A destination that has a source. */
  predicate Arrives(row: Row, k: Key) { Denotes(row.out, k) && |Keys(row.a)| >= |Keys(row.out)| }

  lemma {:induction false} ProvidesAtNode(st: State, row: Row, k: Key)
    requires row.faceKnown && !Objects(st, row) && Provides(row, k) && (row.op.Teleport? ==> Arrives(row, k))
    ensures k in RowStep(st, row).own && RowStep(st, row).own[k].node == row.node
  {
    hide Objects, Keys, MovePairs, Mint, UseDiags, FormDiags, CloneDiags, ControlDiags, TailDiags, HeadDiags, DescriptionDiags;
    if row.op.Prepare? {
      assert k in Keys(row.out) && k in Writes(row);
      MintFrame(st.own, st.minted, row, Targets(row), k);
    } else if row.op.EntangleLink? {
      MintFrame(st.own, st.minted, row, Keys(row.out), k);
    } else {
      TeleportArrives(st, row, k);
    }
  }

  lemma {:induction false} TeleportArrives(st: State, row: Row, k: Key)
    requires row.faceKnown && !Objects(st, row) && row.op.Teleport? && Arrives(row, k)
    ensures k in RowStep(st, row).own && RowStep(st, row).own[k].node == row.node
  {
    hide Objects, RowStep, MovePairs;
    var src, dst, moves := Keys(row.a), Keys(row.out), TeleportMoves(row);
    var e := Effect(st.own, st.minted, row).2;
    assert k in dst;
    assert row.a.Ref? && row.out.Ref? by { assert Denotes(row.a, src[0]); }
    if e != [] {
      TeleportCodes(st.own, st.minted, row, e[0]);
      EffectObjects(st, row, e[0]);
    }
    assert row.link != NULL by { assert row.link == NULL ==> Diagnostic(PROTO002, row.id) in e; }
    assert dst[..moves] == dst;
    MoveKeepsNode(st.own, row, src, dst, moves, k);
    StepOwners(st, row);
  }

  lemma {:induction false} TeleportCodes(own: Owners, minted: nat, row: Row, d: Diagnostic)
    requires row.op.Teleport? && d in Effect(own, minted, row).2
    ensures d.code.Rejects()
  {
    hide MovePairs;
    MovePairsCodes(own, row, Keys(row.a), Keys(row.out), TeleportMoves(row));
  }

  lemma {:induction false} ProvidedIsNotRaw(row: Row, k: Key)
    requires Provides(row, k)
    ensures !k.Raw?
  {}

  /** The verifier keeps an object at the node of the last row that provided it. */
  lemma {:induction false} NodeIsLastProvider(p: Program, i: nat, n: nat, k: Key)
    requires Accepted(p) && i < n <= |p.rows| && Provides(p.rows[i], k) && (p.rows[i].op.Teleport? ==> Arrives(p.rows[i], k))
    requires forall m | i < m < n :: !Provides(p.rows[m], k)
    ensures k in StateAfter(p.rows, n).own && StateAfter(p.rows, n).own[k].node == p.rows[i].node
    decreases n
  {
    hide RowStep, Provides, Arrives, Objects, Prepares, Operates;
    AcceptedRow(p, n - 1);
    StepIs(p.rows, n - 1);
    ProvidedIsNotRaw(p.rows[i], k);
    if n == i + 1 {
      ProvidesAtNode(StateAfter(p.rows, i), p.rows[i], k);
    } else {
      NodeIsLastProvider(p, i, n - 1, k);
      RowKeepsNode(StateAfter(p.rows, n - 1), p.rows[n - 1], k);
    }
  }

  lemma {:induction false} RowKeepsNode(st: State, row: Row, k: Key)
    requires row.faceKnown && k in st.own && !Provides(row, k) && !k.Raw?
    ensures k in RowStep(st, row).own && RowStep(st, row).own[k].node == st.own[k].node
  {
    hide RowStep, Keys;
    if Operates(row) {
      EffectKeepsNode(st.own, st.minted, row, k);
      StepOwners(st, row);
    } else {
      RowFrame(st, row, k);
    }
  }

  /** The operations that may reach an object on another node. */
  predicate Reaches(op: Op) {
    match op
    case RemoteMeasure => true
    case Teleport => true
    case EntangleLink => true
    case EprRelease => true
    case RemoteGate => true
    case ClassicalFeedback => true
    case OtherDistributed => true
    case _ => false
  }

  /** Only those operations are accepted on an object that was last provided on another node. */
  lemma {:induction false} LocalUseIsAtHome(p: Program, i: nat, j: nat, k: Key)
    requires Accepted(p) && i < j < |p.rows| && Provides(p.rows[i], k) && (p.rows[i].op.Teleport? ==> Arrives(p.rows[i], k))
    requires forall m | i < m < j :: !Provides(p.rows[m], k)
    requires Operates(p.rows[j]) && Names(p.rows[j], k) && !Reaches(p.rows[j].op)
    ensures p.rows[i].node == NULL || p.rows[j].node == p.rows[i].node
  {
    hide Operates, Names, Provides, Arrives;
    NodeIsLastProvider(p, i, j, k);
    NamedIsLive(p, j, k);
  }

  lemma {:induction false} FreshStays(p: Program, i: nat, n: nat, k: Key)
    requires Accepted(p) && i < n <= |p.rows| && Provides(p.rows[i], k) && !p.rows[i].op.Teleport?
    requires forall m | i < m < n :: !Prepares(p.rows[m], k) && !(Operates(p.rows[m]) && Names(p.rows[m], k))
    ensures k in StateAfter(p.rows, n).own && StateAfter(p.rows, n).own[k].state == LIVE
    ensures StateAfter(p.rows, n).own[k].node == p.rows[i].node
    decreases n
  {
    hide RowStep, Prepares, Provides, Operates, Names, Objects;
    AcceptedRow(p, n - 1);
    StepIs(p.rows, n - 1);
    ProvidedIsNotRaw(p.rows[i], k);
    if n == i + 1 {
      ProvidesLive(StateAfter(p.rows, i), p.rows[i], k);
    } else {
      FreshStays(p, i, n - 1, k);
      RowFrame(StateAfter(p.rows, n - 1), p.rows[n - 1], k);
    }
  }

  lemma {:induction false} ProvidesLive(st: State, row: Row, k: Key)
    requires row.faceKnown && Provides(row, k) && !row.op.Teleport?
    ensures k in RowStep(st, row).own && RowStep(st, row).own[k].state == LIVE && RowStep(st, row).own[k].node == row.node
  {
    hide Keys, MovePairs, Mint, UseDiags, FormDiags, CloneDiags, ControlDiags, TailDiags, HeadDiags, DescriptionDiags;
    assert row.op.Prepare? ==> k in Writes(row);
    MintFrame(st.own, st.minted, row, Targets(row), k);
    MintFrame(st.own, st.minted, row, Keys(row.out), k);
  }

  /** A first use away from the node where the object was prepared or linked is told so. */
  lemma {:induction false} MisplacedUseIsExplained(rows: seq<Row>, i: nat, j: nat, k: Key)
    requires i < j < |rows| && Accepted(Program("deny", "none", rows[..j]))
    requires Provides(rows[i], k) && !rows[i].op.Teleport?
    requires forall m | i < m < j :: !Prepares(rows[m], k) && !(Operates(rows[m]) && Names(rows[m], k))
    requires rows[j].faceKnown && Operates(rows[j]) && Names(rows[j], k)
    ensures Diagnostic(OWN003, rows[j].id) in StateAfter(rows, j + 1).diags ||
      Reaches(rows[j].op) || rows[i].node == NULL || rows[j].node == rows[i].node
  {
    hide RowStep, Prepares, Provides, Operates, Names, Objects, Keys;
    var p := Program("deny", "none", rows[..j]);
    StatePrefix(rows, j, j);
    FreshStays(p, i, j, k);
    if !Reaches(rows[j].op) && rows[i].node != NULL && rows[j].node != rows[i].node { UseIsLogged(rows, j, k); }
  }

  /** Exactly these uses count as uses of a quantum object. */
  lemma {:induction false} HintedIsQuantum(row: Row, k: Key)
    requires Operates(row) && !k.Raw?
    ensures LooksQuantum(row, k) <==> row.quantumType || ((row.op.Gate? || row.op.Noise?) && QuantumObject(k))
  {
    assert HINTS[0] == "q" && HINTS[1] == "anc" && HINTS[2] == "ebit" && HINTS[3] == "psi" && HINTS[4] == "rho" && HINTS[5] == "log";
    if LooksQuantum(row, k) && !row.quantumType { NameIsHinted(k.name); }
  }

  lemma {:induction false} NameIsHinted(name: string)
    requires QuantumName(name)
    ensures exists h :: h in HINTS && h <= name
  {
    var h := if Prefixed(name, "q") then HINTS[0] else if Prefixed(name, "anc") then HINTS[1]
             else if Prefixed(name, "ebit") then HINTS[2] else if Prefixed(name, "psi") then HINTS[3]
             else if Prefixed(name, "rho") then HINTS[4] else HINTS[5];
    assert h in HINTS && name == h + name[|h|..];
  }

  // ---- what a preparation makes, and protocols within one node ----

  /** A preparation makes one new lineage for each object of its OUT cell, or one for a text that is no reference; an
      empty cell makes none. */
  lemma {:induction false} PreparationMints(st: State, row: Row, k: Key)
    requires row.faceKnown && row.op.Prepare?
    ensures var next := RowStep(st, row);
      && next.minted == st.minted + (if Keys(row.out) != [] then |Keys(row.out)| else if row.out == Null then 0 else 1)
      && (Denotes(row.out, k) ==> k in next.own && next.own[k].state == LIVE && next.own[k].node == row.node)
      && (Denotes(row.out, k) ==> st.minted < next.own[k].lineage <= next.minted)
      && (!Denotes(row.out, k) && !k.Raw? ==> SameRecord(st.own, next.own, k))
  {
    hide HeadDiags, DescriptionDiags, FormDiags, Keys, Mint;
    var keys := Targets(row);
    assert keys == if Keys(row.out) != [] then Keys(row.out) else if row.out == Null then [] else [Raw(row.out)] by {
      UniqueOfDistinct(Keys(row.out));
      assert Keys(row.out) + [] == Keys(row.out);
    }
    MintFrame(st.own, st.minted, row, keys, k);
    MintNumbers(st.own, st.minted, row, keys, k);
  }

  lemma {:induction false} UniqueOfDistinct(s: seq<Key>)
    requires Distinct(s)
    ensures Unique(s) == s
    decreases |s|
  {
    if s != [] {
      UniqueOfDistinct(s[..|s| - 1]);
      assert s == s[..|s| - 1] + [s[|s| - 1]];
    }
  }

  lemma {:induction false} MintNumbers(own: Owners, minted: nat, row: Row, keys: seq<Key>, k: Key)
    ensures var (o, m) := Mint(own, minted, row, keys);
      m == minted + |keys| && (k in keys ==> k in o && minted < o[k].lineage <= m)
    decreases |keys|
  {
    if keys != [] {
      assert keys == keys[..|keys| - 1] + [keys[|keys| - 1]];
      MintNumbers(own, minted, row, keys[..|keys| - 1], k);
    }
  }

  /** What row j adds to the diagnostics. */
  function Added(rows: seq<Row>, j: nat): seq<Diagnostic>
    requires j < |rows|
  {
    var before, after := StateAfter(rows, j).diags, StateAfter(rows, j + 1).diags;
    if |before| <= |after| then after[|before|..] else []
  }

  /** A remote gate between two known objects is noted, though not rejected, if and only if both were last provided on
      the same node. */
  lemma {:induction false} LocalProtocolIsNoted(rows: seq<Row>, i: nat, h: nat, j: nat, k: Key, l: Key)
    requires i < j < |rows| && h < j && Accepted(Program("deny", "none", rows[..j]))
    requires Provides(rows[i], k) && (rows[i].op.Teleport? ==> Arrives(rows[i], k)) && forall m | i < m < j :: !Provides(rows[m], k)
    requires Provides(rows[h], l) && (rows[h].op.Teleport? ==> Arrives(rows[h], l)) && forall m | h < m < j :: !Provides(rows[m], l)
    requires rows[j].faceKnown && rows[j].op.RemoteGate?
    requires FirstKey(rows[j].ctrl) == Some(k) && FirstKey(rows[j].a) == Some(l)
    ensures Diagnostic(W_PROTO005, rows[j].id) in Added(rows, j) <==> rows[i].node == rows[h].node
  {
    hide RowStep, Provides, Arrives, Accepted;
    var p := Program("deny", "none", rows[..j]);
    StatePrefix(rows, j, j);
    NodeIsLastProvider(p, i, j, k);
    NodeIsLastProvider(p, h, j, l);
    StepIs(rows, j);
    RemoteGateNotes(StateAfter(rows, j), rows[j]);
  }

  lemma {:induction false} RemoteGateNotes(st: State, row: Row)
    requires row.faceKnown && row.op.RemoteGate?
    ensures |st.diags| <= |RowStep(st, row).diags|
    ensures Diagnostic(W_PROTO005, row.id) in RowStep(st, row).diags[|st.diags|..] <==> SameSite(st.own, row.ctrl, row.a)
  {
    hide SameSite, Keys, Touched, FormDiags, HeadDiags, DescriptionDiags, UseDiags, CloneDiags, TailDiags, ControlDiags, Effect;
    var w := Diagnostic(W_PROTO005, row.id);
    var form := HeadDiags(row) + DescriptionDiags(row) + FormDiags(st, row);
    var use := UseDiags(st.own, row, Touched(row));
    var rest := CloneDiags(row) + Effect(st.own, st.minted, row).2 + ControlDiags(st.bits, row) + TailDiags(row);
    assert RowStep(st, row).diags == st.diags + (form + use + rest);
    assert RowStep(st, row).diags[|st.diags|..] == form + use + rest;
    FormIsNoWarning(st, row);
    UseIsNoWarning(st.own, row, Touched(row));
    RemoteGateSays(st, row);
  }

  lemma {:induction false} RemoteGateSays(st: State, row: Row)
    requires row.op.RemoteGate?
    ensures var rest := CloneDiags(row) + Effect(st.own, st.minted, row).2 + ControlDiags(st.bits, row) + TailDiags(row);
      Diagnostic(W_PROTO005, row.id) in rest <==> SameSite(st.own, row.ctrl, row.a)
  {
    hide SameSite, Overlap;
  }

  lemma {:induction false} FormIsNoWarning(st: State, row: Row)
    ensures forall d | d in HeadDiags(row) + DescriptionDiags(row) + FormDiags(st, row) :: d.code != W_PROTO005
  {
    ParametersAreNoWarning(row, row.params);
    hide Keys, Overlap, Declared, ProbabilityDiags;
  }

  lemma {:induction false} ParametersAreNoWarning(row: Row, params: seq<real>)
    ensures forall d | d in ProbabilityDiags(row, params) :: d.code != W_PROTO005
    decreases |params|
  {
    if params != [] { ParametersAreNoWarning(row, params[1..]); }
  }

  lemma {:induction false} UseIsNoWarning(own: Owners, row: Row, keys: seq<Key>)
    ensures forall d | d in UseDiags(own, row, keys) :: d.code != W_PROTO005
    decreases |keys|
  {
    if keys != [] { UseIsNoWarning(own, row, keys[..|keys| - 1]); }
  }

  // ---- programs that are rejected ----

  const Q: Cell := Ref("q", None, None)
  const C: Cell := Ref("c", None, None)
  const D: Cell := Ref("d", None, None)

  /** Prepare q and measure it twice. */
  const MEASURED_TWICE: seq<Row> := [
    Plain("R1", Prepare, Q, Null, NULL), Plain("R2", Measure, C, Q, NULL), Plain("R3", Measure, D, Q, NULL)]

  /** Prepare q, measure it, and apply a one-operand gate to it. */
  const USED_AFTER_MEASURE: seq<Row> := [
    Plain("R1", Prepare, Q, Null, NULL), Plain("R2", Measure, C, Q, NULL),
    Plain("R3", Gate(1, false, false), Q, Q, NULL)]

  lemma {:induction false} UseAfterMeasureIsRejected()
    ensures !Accepted(Program("deny", "none", MEASURED_TWICE))
    ensures !Accepted(Program("deny", "none", USED_AFTER_MEASURE))
  {
    RejectedAtThird(MEASURED_TWICE);
    RejectedAtThird(USED_AFTER_MEASURE);
  }

  lemma {:induction false} RejectedAtThird(rows: seq<Row>)
    requires |rows| == 3 && rows[0] == Plain("R1", Prepare, Q, Null, NULL) && rows[1] == Plain("R2", Measure, C, Q, NULL)
    requires Operates(rows[2]) && rows[2].a == Q
    ensures !Accepted(Program("deny", "none", rows))
  {
    hide RowStep, Operates;
    var p := Program("deny", "none", rows);
    if Accepted(p) {
      AcceptedRow(p, 0);
      StepIs(rows, 0);
      ProvidesAtNode(StateAfter(rows, 0), rows[0], Whole("q"));
      DeadNeedsPreparation(p, 1, 2, Whole("q"));
    }
  }
}
