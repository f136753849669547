/** An abstract machine of lineage tokens, defined apart from the verifier's bookkeeping, and the proof that
    the verifier's ownership rules accept a program exactly when that machine never gets stuck on it. */
module LineageMachine {
  import opened Basics
  import opened OwnershipVerifier

  /** A token is one unit of quantum state. It sits at one place; `dead` are the places a token left or was used up at. */
  type Token = nat

  datatype Machine = Machine(place: map<Token, Key>, site: map<Token, string>, dead: set<Key>, minted: nat, measured: seq<Token>)

  const Blank: Machine := Machine(map[], map[], {}, 0, [])

  function TokensAt(m: Machine, k: Key): set<Token> { set t | t in m.place && m.place[t] == k }

  /** A new token appears at `k`; whatever was there is discarded. */
  function Create(m: Machine, k: Key, node: string): Machine {
    var t := m.minted + 1;
    m.(place := (m.place - TokensAt(m, k))[t := k], site := m.site[t := node], dead := m.dead - {k}, minted := t)
  }

  function CreateAll(m: Machine, keys: seq<Key>, node: string): Machine {
    if keys == [] then m else Create(CreateAll(m, keys[..|keys| - 1], node), keys[|keys| - 1], node)
  }

  /** The token at `k`, if any, is used up by a destructive measurement. */
  ghost function Destroy(m: Machine, k: Key): Machine {
    if TokensAt(m, k) == {} then m
    else
      var t :| t in TokensAt(m, k);
      m.(place := m.place - TokensAt(m, k), dead := m.dead + {k}, measured := m.measured + [t])
  }

  ghost function DestroyAll(m: Machine, keys: seq<Key>): Machine {
    if keys == [] then m else Destroy(DestroyAll(m, keys[..|keys| - 1]), keys[|keys| - 1])
  }

  /** The token at `s` moves to `d`; without one the machine is stuck. */
  ghost function Carry(m: Machine, s: Key, d: Key, node: string): Option<Machine> {
    if TokensAt(m, s) == {} then None
    else
      var t :| t in TokensAt(m, s);
      Some(m.(place := (m.place - TokensAt(m, s) - TokensAt(m, d))[t := d], site := m.site[t := node],
              dead := (m.dead + {s}) - {d}))
  }

  ghost function CarryAll(m: Machine, src: seq<Key>, dst: seq<Key>, n: nat, node: string): Option<Machine>
    requires n <= |src| && n <= |dst|
  {
    if n == 0 then Some(m)
    else
      var before := CarryAll(m, src, dst, n - 1, node);
      if before.None? then None else Carry(before.value, src[n - 1], dst[n - 1], node)
  }

  ghost function Retire(m: Machine, k: Key): Option<Machine> {
    if TokensAt(m, k) == {} then None else Some(m.(place := m.place - TokensAt(m, k), dead := m.dead + {k}))
  }

  ghost function RetireAll(m: Machine, keys: seq<Key>): Option<Machine> {
    if keys == [] then Some(m)
    else
      var before := RetireAll(m, keys[..|keys| - 1]);
      if before.None? then None else Retire(before.value, keys[|keys| - 1])
  }

  /** A row may not name a dead place, a quantum place nothing was ever put in, or a token held at another node. */
  ghost predicate Blocked(m: Machine, row: Row, k: Key) {
    || k in m.dead
    || (TokensAt(m, k) == {} && LooksQuantum(row, k))
    || (!row.op.Distributed() && exists t | t in TokensAt(m, k) :: t in m.site && m.site[t] != NULL && m.site[t] != row.node)
  }

  ghost predicate RowBlocked(m: Machine, row: Row) {
    (exists k | k in Touched(row) :: Blocked(m, row, k)) || (row.op.Joint? && Overlap(row.a, row.b))
  }

  /** One row; None means the machine is stuck. */
  ghost function Step(m: Machine, row: Row): Option<Machine> {
    if !row.faceKnown || row.op.Skipped() then Some(m)
    else if row.op.Prepare? then Some(CreateAll(m, Targets(row), row.node))
    else if RowBlocked(m, row) then None
    else if row.op.Destructive() then Some(DestroyAll(m, Keys(MeasuredCell(row))))
    else if row.op.Teleport? then CarryAll(m, Keys(row.a), Keys(row.out), TeleportMoves(row), row.node)
    else if row.op.EntangleLink? then Some(CreateAll(m, Keys(row.out), row.node))
    else if row.op.EprRelease? then RetireAll(m, Keys(row.a))
    else Some(m)
  }

  ghost function StepIf(m: Option<Machine>, row: Row): Option<Machine> {
    if m.None? then None else Step(m.value, row)
  }

  ghost function Run(rows: seq<Row>, n: nat): Option<Machine>
    requires n <= |rows|
  {
    if n == 0 then Some(Blank) else StepIf(Run(rows, n - 1), rows[n - 1])
  }

  // ---- the simulation ----

  /** The verifier's live records are exactly the machine's tokens, its other records exactly the dead places. */
  ghost predicate Sim(own: Owners, minted: nat, m: Machine) {
    && m.minted == minted
    && (forall t | t in m.place :: Tracks(own, m, t) && t <= minted)
    && (forall k | k in own && own[k].state == LIVE :: own[k].lineage in m.place && m.place[own[k].lineage] == k)
    && (forall k :: k in m.dead <==> k in own && own[k].state != LIVE)
    && (forall i | 0 <= i < |m.measured| :: m.measured[i] <= minted && m.measured[i] !in m.place)
    && Distinct(m.measured)
  }

  ghost predicate Tracks(own: Owners, m: Machine, t: Token)
    requires t in m.place
  {
    var k := m.place[t];
    k in own && own[k].state == LIVE && own[k].lineage == t && t in m.site && m.site[t] == own[k].node
  }

  lemma {:induction false} TokenOfRecord(own: Owners, minted: nat, m: Machine, k: Key)
    requires Sim(own, minted, m)
    ensures TokensAt(m, k) == if k in own && own[k].state == LIVE then {own[k].lineage} else {}
  {
    forall t | t in TokensAt(m, k) ensures k in own && own[k].state == LIVE && t == own[k].lineage {
      assert Tracks(own, m, t);
    }
  }

  lemma {:induction false} SimCreate(own: Owners, minted: nat, m: Machine, row: Row, k: Key)
    requires Sim(own, minted, m)
    ensures Sim(own[k := Fresh(row, minted + 1)], minted + 1, Create(m, k, row.node))
  {
    TokenOfRecord(own, minted, m, k);
    var own', m' := own[k := Fresh(row, minted + 1)], Create(m, k, row.node);
    forall t | t in m'.place ensures Tracks(own', m', t) && t <= minted + 1 {
      if t != minted + 1 { assert Tracks(own, m, t); }
    }
  }

  lemma {:induction false} SimCreateAll(own: Owners, minted: nat, m: Machine, row: Row, keys: seq<Key>)
    requires Sim(own, minted, m)
    ensures var (o, n) := Mint(own, minted, row, keys); Sim(o, n, CreateAll(m, keys, row.node))
    decreases |keys|
  {
    if keys != [] {
      var front := keys[..|keys| - 1];
      SimCreateAll(own, minted, m, row, front);
      var (o, n) := Mint(own, minted, row, front);
      SimCreate(o, n, CreateAll(m, front, row.node), row, keys[|keys| - 1]);
    }
  }

  lemma {:induction false} SimDestroy(own: Owners, minted: nat, m: Machine, row: Row, k: Key)
    requires Sim(own, minted, m) && (k in own ==> own[k].state == LIVE)
    ensures Sim(if k in own then own[k := own[k].(state := MEASURED, lastRow := row.id)] else own, minted, Destroy(m, k))
  {
    TokenOfRecord(own, minted, m, k);
    if k in own {
      var own', m' := own[k := own[k].(state := MEASURED, lastRow := row.id)], Destroy(m, k);
      assert m'.measured == m.measured + [own[k].lineage];
      forall t | t in m'.place ensures Tracks(own', m', t) { assert Tracks(own, m, t); }
    }
  }

  lemma {:induction false} SimDestroyAll(own: Owners, minted: nat, m: Machine, row: Row, keys: seq<Key>)
    requires Sim(own, minted, m) && Distinct(keys) && forall k | k in keys && k in own :: own[k].state == LIVE
    ensures Sim(MarkAll(own, row, keys), minted, DestroyAll(m, keys))
    ensures MarkAll(own, row, keys).Keys == own.Keys
    ensures forall k | k in own && k !in keys :: MarkAll(own, row, keys)[k] == own[k]
    decreases |keys|
  {
    if keys != [] {
      var front, last := keys[..|keys| - 1], keys[|keys| - 1];
      assert keys == front + [last];
      SimDestroyAll(own, minted, m, row, front);
      SimDestroy(MarkAll(own, row, front), minted, DestroyAll(m, front), row, last);
    }
  }

  lemma {:induction false} SimCarry(own: Owners, minted: nat, m: Machine, row: Row, s: Key, d: Key)
    requires Sim(own, minted, m) && s in own && own[s].state == LIVE
    ensures Carry(m, s, d, row.node).Some?
    ensures Sim(own[s := own[s].(state := MOVED, lastRow := row.id)][d := Fresh(row, own[s].lineage)], minted, Carry(m, s, d, row.node).value)
  {
    TokenOfRecord(own, minted, m, s);
    TokenOfRecord(own, minted, m, d);
    var t0 := own[s].lineage;
    var own' := own[s := own[s].(state := MOVED, lastRow := row.id)][d := Fresh(row, t0)];
    var m' := Carry(m, s, d, row.node).value;
    assert t0 in m.place;
    assert m'.place == (m.place - TokensAt(m, s) - TokensAt(m, d))[t0 := d];
    forall t | t in m'.place ensures Tracks(own', m', t) && t <= minted {
      if t != t0 { assert Tracks(own, m, t); }
    }
  }

  lemma {:induction false} SimCarryAll(own: Owners, minted: nat, m: Machine, row: Row, src: seq<Key>, dst: seq<Key>,
        n: nat)
    requires Sim(own, minted, m) && n <= |src| && n <= |dst| && Distinct(src)
    requires forall k | k in src && k in own :: own[k].state == LIVE
    ensures var (o, d) := MovePairs(own, row, src, dst, n);
      var r := CarryAll(m, src, dst, n, row.node);
      (d == [] <==> r.Some?) && (d == [] ==> Sim(o, minted, r.value) && forall j | n <= j < |src| && src[j] in o :: o[src[j]].state == LIVE)
    decreases n
  {
    if n == 0 {
      forall j | 0 <= j < |src| ensures src[j] in src {}
    } else {
      SimCarryAll(own, minted, m, row, src, dst, n - 1);
      var (o, d) := MovePairs(own, row, src, dst, n - 1);
      var r := CarryAll(m, src, dst, n - 1, row.node);
      if d == [] {
        TokenOfRecord(o, minted, r.value, src[n - 1]);
        if src[n - 1] in o { SimCarry(o, minted, r.value, row, src[n - 1], dst[n - 1]); }
      }
    }
  }

  lemma {:induction false} SimRetire(own: Owners, minted: nat, m: Machine, row: Row, k: Key)
    requires Sim(own, minted, m) && k in own && own[k].state == LIVE
    ensures Retire(m, k).Some?
    ensures Sim(own[k := own[k].(state := RELEASED, lastRow := row.id)], minted, Retire(m, k).value)
  {
    TokenOfRecord(own, minted, m, k);
    var own', m' := own[k := own[k].(state := RELEASED, lastRow := row.id)], Retire(m, k).value;
    forall t | t in m'.place ensures Tracks(own', m', t) { assert Tracks(own, m, t); }
  }

  lemma {:induction false} SimRetireAll(own: Owners, minted: nat, m: Machine, row: Row, keys: seq<Key>)
    requires Sim(own, minted, m) && Distinct(keys) && forall k | k in keys && k in own :: own[k].state == LIVE
    ensures var (o, d) := ReleaseAll(own, row, keys);
      var r := RetireAll(m, keys);
      (d == [] <==> r.Some?) && (d == [] ==> Sim(o, minted, r.value) && o.Keys == own.Keys
                                             && forall k | k in own && k !in keys :: o[k] == own[k])
    decreases |keys|
  {
    if keys != [] {
      var front, last := keys[..|keys| - 1], keys[|keys| - 1];
      assert keys == front + [last];
      SimRetireAll(own, minted, m, row, front);
      var (o, d) := ReleaseAll(own, row, front);
      if d == [] {
        var r := RetireAll(m, front).value;
        TokenOfRecord(o, minted, r, last);
        if last in o { SimRetire(o, minted, r, row, last); }
      }
    }
  }

  /** Records that differ only in bookkeeping the machine does not see. */
  ghost predicate SameCustody(own: Owners, own': Owners) {
    && own.Keys == own'.Keys
    && forall k | k in own :: own'[k].state == own[k].state && own'[k].lineage == own[k].lineage && own'[k].node == own[k].node
  }

  lemma {:induction false} SimSameCustody(own: Owners, own': Owners, minted: nat, m: Machine)
    requires Sim(own, minted, m) && SameCustody(own, own')
    ensures Sim(own', minted, m)
  {
    forall t | t in m.place ensures Tracks(own', m, t) { assert Tracks(own, m, t); }
  }

  /** When every written key that looks quantum is already known, ordinary outputs create nothing. */
  lemma {:induction false} EstablishStampsOnly(own: Owners, minted: nat, row: Row, keys: seq<Key>)
    requires forall k | k in keys && LooksQuantum(row, k) :: k in own
    ensures var (o, n) := Establish(own, minted, row, keys); n == minted && SameCustody(own, o)
    decreases |keys|
  {
    if keys != [] {
      assert keys == keys[..|keys| - 1] + [keys[|keys| - 1]];
      EstablishStampsOnly(own, minted, row, keys[..|keys| - 1]);
    }
  }

  // ---- rows ----

  ghost predicate Clean(diags: seq<Diagnostic>) { forall d | d in diags :: !d.code.Ownership() }

  lemma {:induction false} CleanAppend(a: seq<Diagnostic>, b: seq<Diagnostic>)
    ensures Clean(a + b) <==> Clean(a) && Clean(b)
  {
    assert forall d :: d in a + b <==> d in a || d in b;
  }

  lemma {:induction false} BlockedIsUseCode(own: Owners, minted: nat, m: Machine, row: Row, k: Key)
    requires Sim(own, minted, m)
    ensures Blocked(m, row, k) <==> UseCode(own, row, k).Some?
  {
    TokenOfRecord(own, minted, m, k);
    if k in own && own[k].state == LIVE {
      assert Tracks(own, m, own[k].lineage);
      assert TokensAt(m, k) == {own[k].lineage};
    }
  }

  lemma {:induction false} UseDiagsClean(own: Owners, row: Row, keys: seq<Key>)
    ensures Clean(UseDiags(own, row, keys)) <==> forall k | k in keys :: UseCode(own, row, k).None?
    decreases |keys|
  {
    if keys != [] {
      var front, last := keys[..|keys| - 1], keys[|keys| - 1];
      assert keys == front + [last];
      UseDiagsClean(own, row, front);
      CleanAppend(UseDiags(own, row, front), if UseCode(own, row, last).Some? then [Diagnostic(UseCode(own, row, last).value, row.id)] else []);
    }
  }

  lemma {:induction false} ProbabilityClean(row: Row, params: seq<real>)
    ensures Clean(ProbabilityDiags(row, params))
    decreases |params|
  {
    if params != [] { ProbabilityClean(row, params[1..]); }
  }

  lemma {:induction false} SiteClean(st: State, row: Row)
    ensures Clean(SiteDiags(st, row))
  {}

  lemma {:induction false} GateClean(row: Row)
    ensures Clean(GateDiags(row))
  {}

  lemma {:induction false} FormClean(st: State, row: Row)
    ensures Clean(FormDiags(st, row))
  {
    ProbabilityClean(row, row.params);
    SiteClean(st, row);
    GateClean(row);
    CleanAppend(SiteDiags(st, row), GateDiags(row));
    CleanAppend(SiteDiags(st, row) + GateDiags(row), if row.op.Noise? then ProbabilityDiags(row, row.params) else []);
  }

  lemma {:induction false} EdgeClean(bits: set<Cell>, row: Row)
    ensures Clean(HeadDiags(row)) && Clean(DescriptionDiags(row)) && Clean(TailDiags(row)) && Clean(ControlDiags(bits, row))
  {}

  /** A list of ownership diagnostics is clean only when it is empty. */
  lemma {:induction false} OwnershipOnly(d: seq<Diagnostic>)
    requires forall x | x in d :: x.code.Ownership()
    ensures Clean(d) <==> d == []
  {
    if d != [] { assert d[0] in d; }
  }

  lemma {:induction false} SimTeleport(own: Owners, minted: nat, m: Machine, row: Row)
    requires Sim(own, minted, m) && row.op.Teleport?
    requires forall k | k in Keys(row.a) && k in own :: own[k].state == LIVE
    ensures var (o, n, e) := Effect(own, minted, row);
      var r := CarryAll(m, Keys(row.a), Keys(row.out), TeleportMoves(row), row.node);
      n == minted && (Clean(e) <==> r.Some?) && (Clean(e) ==> Sim(o, n, r.value))
  {
    hide MovePairs, CarryAll, Sim, Keys;
    SimCarryAll(own, minted, m, row, Keys(row.a), Keys(row.out), TeleportMoves(row));
    MovePairsCodes(own, row, Keys(row.a), Keys(row.out), TeleportMoves(row));
    var d := MovePairs(own, row, Keys(row.a), Keys(row.out), TeleportMoves(row)).1;
    OwnershipOnly(d);
    CleanAppend(When(!row.a.Ref? || !row.out.Ref?, PROTO001, row)
                + When(row.a.Ref? && row.out.Ref? && row.link == NULL, PROTO002, row), d);
  }

  lemma {:induction false} OperandsTouched(row: Row, k: Key)
    requires k in Keys(row.a) || k in Keys(row.ctrl) || k in Keys(row.b) || k in Writes(row)
    ensures k in Touched(row)
  {}

  lemma {:induction false} SimRelease(own: Owners, minted: nat, m: Machine, row: Row)
    requires Sim(own, minted, m) && row.op.EprRelease?
    requires forall k | k in Keys(row.a) && k in own :: own[k].state == LIVE
    ensures var (o, n, e) := Effect(own, minted, row);
      var r := RetireAll(m, Keys(row.a));
      n == minted && (Clean(e) <==> r.Some?) && (Clean(e) ==> Sim(o, n, r.value))
  {
    hide Sim, Keys, RetireAll, ReleaseAll;
    SimRetireAll(own, minted, m, row, Keys(row.a));
    ReleaseCodes(own, row, Keys(row.a));
    OwnershipOnly(ReleaseAll(own, row, Keys(row.a)).1);
  }

  lemma {:induction false} SimOrdinary(own: Owners, minted: nat, m: Machine, row: Row)
    requires Sim(own, minted, m) && !row.op.Destructive() && !row.op.Distributed() && !row.op.Skipped() && !row.op.Prepare?
    requires forall k | k in Writes(row) && LooksQuantum(row, k) :: k in own
    ensures var (o, n, e) := Effect(own, minted, row); e == [] && n == minted && Sim(o, n, m)
  {
    EstablishStampsOnly(own, minted, row, Writes(row));
    SimSameCustody(own, Establish(own, minted, row, Writes(row)).0, minted, m);
  }

  lemma {:induction false} UnblockedOperands(own: Owners, row: Row)
    requires forall k | k in Touched(row) :: UseCode(own, row, k).None?
    ensures forall k | k in Keys(row.a) || k in Keys(row.ctrl) || k in Writes(row) ::
      (k in own ==> own[k].state == LIVE) && (LooksQuantum(row, k) ==> k in own)
  {
    forall k | k in Keys(row.a) || k in Keys(row.ctrl) || k in Writes(row)
      ensures (k in own ==> own[k].state == LIVE) && (LooksQuantum(row, k) ==> k in own)
    {
      OperandsTouched(row, k);
      assert UseCode(own, row, k).None?;
    }
  }

  lemma {:induction false} EntangleKeepsCustody(own: Owners, c: Cell, a: Cell)
    ensures SameCustody(own, Entangle(own, c, a))
  {}

  /** The effect of an unblocked row: it reports nothing exactly when the machine can make the step. */
  lemma {:induction false} SimEffect(own: Owners, minted: nat, m: Machine, row: Row)
    requires Sim(own, minted, m) && row.faceKnown && !row.op.Skipped() && !row.op.Prepare? && !RowBlocked(m, row)
    requires forall k | k in Touched(row) :: UseCode(own, row, k).None?
    ensures var (o, n, e) := Effect(own, minted, row);
      (Clean(e) <==> Step(m, row).Some?) && (Clean(e) ==> Sim(o, n, Step(m, row).value))
  {
    hide Sim, RowBlocked, Touched, MarkAll, MovePairs, ReleaseAll, Mint, Establish, CreateAll, CarryAll, DestroyAll, RetireAll, Entangle;
    UnblockedOperands(own, row);
    if row.op.Destructive() {
      SimDestroyAll(own, minted, m, row, Keys(MeasuredCell(row)));
    } else if row.op.Teleport? {
      SimTeleport(own, minted, m, row);
    } else if row.op.EntangleLink? {
      SimCreateAll(own, minted, m, row, Keys(row.out));
    } else if row.op.EprRelease? {
      SimRelease(own, minted, m, row);
    } else if row.op.RemoteGate? {
      EntangleKeepsCustody(own, row.ctrl, row.a);
      SimSameCustody(own, Entangle(own, row.ctrl, row.a), minted, m);
    } else if !row.op.Distributed() {
      SimOrdinary(own, minted, m, row);
    }
  }

  lemma {:induction false} MovePairsCodes(own: Owners, row: Row, src: seq<Key>, dst: seq<Key>, n: nat)
    requires n <= |src| && n <= |dst|
    ensures forall d | d in MovePairs(own, row, src, dst, n).1 :: d.code == PROTO003
    decreases n
  {
    if n > 0 { MovePairsCodes(own, row, src, dst, n - 1); }
  }

  lemma {:induction false} ReleaseCodes(own: Owners, row: Row, keys: seq<Key>)
    ensures forall d | d in ReleaseAll(own, row, keys).1 :: d.code == EPR002 || d.code == EPR003
    decreases |keys|
  {
    if keys != [] { ReleaseCodes(own, row, keys[..|keys| - 1]); }
  }

  lemma {:induction false} SimRow(st: State, m: Machine, row: Row)
    requires Sim(st.own, st.minted, m) && Clean(st.diags)
    ensures Clean(RowStep(st, row).diags) <==> Step(m, row).Some?
    ensures Step(m, row).Some? ==> Sim(RowStep(st, row).own, RowStep(st, row).minted, Step(m, row).value)
  {
    FormClean(st, row);
    var next := RowStep(st, row);
    EdgeClean(next.bits, row);
    if !row.faceKnown || row.op.Skipped() {
      return;
    }
    var d := st.diags + HeadDiags(row) + DescriptionDiags(row);
    if row.op.Prepare? {
      SimCreateAll(st.own, st.minted, m, row, Targets(row));
      return;
    }
    var (o, n, e) := Effect(st.own, st.minted, row);
    var uses := UseDiags(st.own, row, Touched(row));
    assert next.diags == d + FormDiags(st, row) + uses + CloneDiags(row) + e + ControlDiags(next.bits, row) + TailDiags(row);
    assert Clean(next.diags) <==> Clean(uses) && Clean(CloneDiags(row)) && Clean(e) by {
      assert Clean(d + FormDiags(st, row));
      CleanAppend(d + FormDiags(st, row), uses);
      CleanAppend(d + FormDiags(st, row) + uses, CloneDiags(row));
      CleanAppend(d + FormDiags(st, row) + uses + CloneDiags(row), e);
      CleanAppend(d + FormDiags(st, row) + uses + CloneDiags(row) + e, ControlDiags(next.bits, row));
      CleanAppend(d + FormDiags(st, row) + uses + CloneDiags(row) + e + ControlDiags(next.bits, row), TailDiags(row));
    }
    UseDiagsClean(st.own, row, Touched(row));
    forall k | k in Touched(row) ensures Blocked(m, row, k) <==> UseCode(st.own, row, k).Some? {
      BlockedIsUseCode(st.own, st.minted, m, row, k);
    }
    assert Clean(CloneDiags(row)) <==> !(row.op.Joint? && Overlap(row.a, row.b)) by {
      if row.op.Joint? && Overlap(row.a, row.b) { assert CloneDiags(row)[0] in CloneDiags(row); }
    }
    if Clean(uses) && Clean(CloneDiags(row)) { SimEffect(st.own, st.minted, m, row); }
  }

  // ---- whole programs ----

  /** Verifier and machine agree so far: no ownership diagnostic and in simulation, or a diagnostic and stuck. */
  ghost predicate Agree(st: State, m: Option<Machine>) {
    (Clean(st.diags) <==> m.Some?) && (m.Some? ==> Sim(st.own, st.minted, m.value))
  }

  lemma {:induction false} AgreeStep(st: State, m: Option<Machine>, row: Row)
    requires Agree(st, m)
    ensures Agree(RowStep(st, row), StepIf(m, row))
  {
    if m.Some? {
      SimRow(st, m.value, row);
    } else {
      DiagsGrow(st, row);
      var more := RowStep(st, row).diags[|st.diags|..];
      assert RowStep(st, row).diags == st.diags + more;
      CleanAppend(st.diags, more);
    }
  }

  lemma {:induction false} SimRun(rows: seq<Row>, n: nat)
    requires n <= |rows|
    ensures Agree(StateAfter(rows, n), Run(rows, n))
    decreases n
  {
    hide RowStep, Step;
    if n > 0 {
      SimRun(rows, n - 1);
      AgreeStep(StateAfter(rows, n - 1), Run(rows, n - 1), rows[n - 1]);
    }
  }

  lemma {:induction false} DiagsGrow(st: State, row: Row)
    ensures st.diags <= RowStep(st, row).diags
  {
    hide Effect, Mint, UseDiags, FormDiags, HeadDiags, DescriptionDiags, CloneDiags, ControlDiags, TailDiags, Touched, Targets;
    var d := st.diags + HeadDiags(row) + DescriptionDiags(row);
    assert st.diags <= st.diags + HeadDiags(row) <= d;
  }

  lemma {:induction false} DiagsOnlyGrow(rows: seq<Row>, i: nat, n: nat)
    requires i <= n <= |rows|
    ensures StateAfter(rows, i).diags <= StateAfter(rows, n).diags
    decreases n
  {
    hide RowStep;
    if i < n {
      DiagsOnlyGrow(rows, i, n - 1);
      DiagsGrow(StateAfter(rows, n - 1), rows[n - 1]);
    }
  }

  /** Both ways: the ownership rules raise no objection to a program exactly when the machine can run it to its end. */
  lemma {:induction false} OwnershipRulesAreExact(rows: seq<Row>)
    ensures Clean(StateAfter(rows, |rows|).diags) <==> Run(rows, |rows|).Some?
  {
    SimRun(rows, |rows|);
  }

  lemma {:induction false} CleanPrefix(rows: seq<Row>, i: nat)
    requires i <= |rows| && Clean(StateAfter(rows, |rows|).diags)
    ensures Run(rows, i).Some? && Sim(StateAfter(rows, i).own, StateAfter(rows, i).minted, Run(rows, i).value)
  {
    DiagsOnlyGrow(rows, i, |rows|);
    var p, q := StateAfter(rows, i).diags, StateAfter(rows, |rows|).diags;
    assert forall d | d in p :: d in q by { assert q == p + q[|p|..]; }
    SimRun(rows, i);
  }

  lemma {:induction false} AcceptedIsClean(p: Program)
    requires Accepted(p)
    ensures Clean(Final(p).diags)
  {}

  /** No cloning: after every row of an accepted program at most one live object carries any given lineage. */
  lemma {:induction false} NoCloning(p: Program, i: nat, j: Key, k: Key)
    requires Accepted(p) && i <= |p.rows|
    requires var own := StateAfter(p.rows, i).own;
      j in own && k in own && own[j].state == LIVE && own[k].state == LIVE && own[j].lineage == own[k].lineage
    ensures j == k
  {
    AcceptedIsClean(p);
    CleanPrefix(p.rows, i);
  }

  /** Affine use: the machine running an accepted program measures each lineage at most once, and a measured lineage is live nowhere. */
  lemma {:induction false} MeasuredAtMostOnce(p: Program, i: nat)
    requires Accepted(p) && i <= |p.rows|
    ensures Run(p.rows, i).Some? && Distinct(Run(p.rows, i).value.measured)
    ensures forall t, k | t in Run(p.rows, i).value.measured && k in StateAfter(p.rows, i).own ::
      StateAfter(p.rows, i).own[k].state == LIVE ==> StateAfter(p.rows, i).own[k].lineage != t
  {
    AcceptedIsClean(p);
    CleanPrefix(p.rows, i);
  }

  /** No row of an accepted program other than a preparation names an object that was moved, measured or released. */
  lemma {:induction false} DeadNeverReferenced(p: Program, i: nat, k: Key)
    requires Accepted(p) && i < |p.rows|
    requires !p.rows[i].op.Skipped() && !p.rows[i].op.Prepare? && k in Touched(p.rows[i])
    ensures k in StateAfter(p.rows, i).own ==> StateAfter(p.rows, i).own[k].state == LIVE
    ensures k !in StateAfter(p.rows, i).own ==> !LooksQuantum(p.rows[i], k)
  {
    hide RowStep, Step;
    AcceptedIsClean(p);
    CleanPrefix(p.rows, i + 1);
    CleanPrefix(p.rows, i);
    FaceKnown(p, i);
    StepNeedsLife(StateAfter(p.rows, i), Run(p.rows, i).value, p.rows[i], k);
  }

  lemma {:induction false} StepNeedsLife(st: State, m: Machine, row: Row, k: Key)
    requires Sim(st.own, st.minted, m) && row.faceKnown && !row.op.Skipped() && !row.op.Prepare? && k in Touched(row)
    requires Step(m, row).Some?
    ensures if k in st.own then st.own[k].state == LIVE else !LooksQuantum(row, k)
  {
    BlockedIsUseCode(st.own, st.minted, m, row, k);
  }

  lemma {:induction false} UnknownFaceReported(st: State, row: Row)
    ensures !row.faceKnown ==> Diagnostic(FACE001, row.id) in RowStep(st, row).diags
  {}

  lemma {:induction false} FaceKnown(p: Program, i: nat)
    requires Accepted(p) && i < |p.rows|
    ensures p.rows[i].faceKnown
  {
    hide RowStep;
    DiagsOnlyGrow(p.rows, i + 1, |p.rows|);
    UnknownFaceReported(StateAfter(p.rows, i), p.rows[i]);
    var early, all := StateAfter(p.rows, i + 1).diags, StateAfter(p.rows, |p.rows|).diags;
    assert forall d | d in early :: d in all by { assert all == early + all[|early|..]; }
    var reported := Diagnostic(FACE001, p.rows[i].id);
    assert reported in all ==> reported.code.Rejects();
  }

  /** In an accepted program new lineages come from preparations and entanglement links only. */
  lemma {:induction false} OnlySourcesMint(p: Program, i: nat)
    requires Accepted(p) && i < |p.rows|
    requires StateAfter(p.rows, i + 1).minted != StateAfter(p.rows, i).minted
    ensures p.rows[i].op.Prepare? || p.rows[i].op.EntangleLink?
  {
    hide RowStep, Step;
    AcceptedIsClean(p);
    CleanPrefix(p.rows, i);
    CleanPrefix(p.rows, i + 1);
    StepMints(Run(p.rows, i).value, p.rows[i]);
  }

  lemma {:induction false} StepMints(m: Machine, row: Row)
    requires Step(m, row).Some? && Step(m, row).value.minted != m.minted
    ensures row.op.Prepare? || row.op.EntangleLink?
  {
    DestroyMintsNothing(m, Keys(MeasuredCell(row)));
    CarryMintsNothing(m, Keys(row.a), Keys(row.out), TeleportMoves(row), row.node);
    RetireMintsNothing(m, Keys(row.a));
  }

  lemma {:induction false} DestroyMintsNothing(m: Machine, keys: seq<Key>)
    ensures DestroyAll(m, keys).minted == m.minted
    decreases |keys|
  {
    if keys != [] { DestroyMintsNothing(m, keys[..|keys| - 1]); }
  }

  lemma {:induction false} CarryMintsNothing(m: Machine, src: seq<Key>, dst: seq<Key>, n: nat, node: string)
    requires n <= |src| && n <= |dst|
    ensures CarryAll(m, src, dst, n, node).Some? ==> CarryAll(m, src, dst, n, node).value.minted == m.minted
    decreases n
  {
    if n > 0 { CarryMintsNothing(m, src, dst, n - 1, node); }
  }

  lemma {:induction false} RetireMintsNothing(m: Machine, keys: seq<Key>)
    ensures RetireAll(m, keys).Some? ==> RetireAll(m, keys).value.minted == m.minted
    decreases |keys|
  {
    if keys != [] { RetireMintsNothing(m, keys[..|keys| - 1]); }
  }

  // ---- teleportation of a range onto an overlapping range ----

  /** A source not overwritten by an earlier pair still holds its original record when its turn comes. */
  lemma {:induction false} SourceUntouched(own: Owners, row: Row, src: seq<Key>, dst: seq<Key>, n: nat, j: nat)
    requires n <= |src| && n <= |dst| && n <= j < |src| && Distinct(src)
    requires src[j] in own && forall i | 0 <= i < n :: dst[i] != src[j]
    ensures src[j] in MovePairs(own, row, src, dst, n).0 && MovePairs(own, row, src, dst, n).0[src[j]] == own[src[j]]
    decreases n
  {
    if n > 0 { SourceUntouched(own, row, src, dst, n - 1, j); }
  }

  lemma {:induction false} MovePairsKeepKeys(own: Owners, row: Row, src: seq<Key>, dst: seq<Key>, n: nat)
    requires n <= |src| && n <= |dst|
    ensures own.Keys <= MovePairs(own, row, src, dst, n).0.Keys
    decreases n
  {
    if n > 0 { MovePairsKeepKeys(own, row, src, dst, n - 1); }
  }

  /** A destination stays as its own pair left it until a later pair takes it as a source; then it is moved for good. */
  lemma {:induction false} DestinationFate(own: Owners, row: Row, src: seq<Key>, dst: seq<Key>, n: nat, i: nat)
    requires i < n <= |src| && n <= |dst| && Distinct(src) && Distinct(dst)
    requires forall k | k in src :: k in own
    ensures dst[i] in MovePairs(own, row, src, dst, i + 1).0
    ensures var o := MovePairs(own, row, src, dst, n).0;
      dst[i] in o && (if exists j :: i < j < n && src[j] == dst[i] then o[dst[i]].state == MOVED
                      else o[dst[i]] == MovePairs(own, row, src, dst, i + 1).0[dst[i]])
    decreases n
  {
    MovePairsKeepKeys(own, row, src, dst, n - 1);
    assert src[n - 1] in src;
    if i < n - 1 {
      DestinationFate(own, row, src, dst, n - 1, i);
      if src[n - 1] == dst[i] {
        assert forall j | i < j < n - 1 :: src[j] != dst[i];
      } else {
        assert (exists j :: i < j < n && src[j] == dst[i]) <==> (exists j :: i < j < n - 1 && src[j] == dst[i]);
      }
    }
  }

  /** Every destination ends live with the lineage its own source had, exactly when no destination is a later source. */
  lemma {:induction false} TeleportDeliversIff(own: Owners, row: Row, src: seq<Key>, dst: seq<Key>, n: nat)
    requires n <= |src| && n <= |dst| && Distinct(src) && Distinct(dst)
    requires forall k | k in src :: k in own
    requires forall j, k | j in src && k in src && own[j].lineage == own[k].lineage :: j == k
    ensures (forall i, j | 0 <= i < j < n :: dst[i] != src[j]) <==>
      (forall i | 0 <= i < n :: Delivered(own, MovePairs(own, row, src, dst, n).0, src[i], dst[i]))
  {
    var o := MovePairs(own, row, src, dst, n).0;
    if forall i, j | 0 <= i < j < n :: dst[i] != src[j] {
      forall i | 0 <= i < n ensures Delivered(own, o, src[i], dst[i]) {
        DestinationFate(own, row, src, dst, n, i);
        assert src[i] in src;
        SourceUntouched(own, row, src, dst, i, i);
      }
    } else {
      var i, j :| 0 <= i < j < n && dst[i] == src[j];
      DestinationFate(own, row, src, dst, n, i);
      assert !Delivered(own, o, src[i], dst[i]);
    }
  }

  ghost predicate Delivered(own: Owners, o: Owners, s: Key, d: Key)
    requires s in own
  {
    d in o && o[d].state == LIVE && o[d].lineage == own[s].lineage
  }

  /** Moving q[0:2] onto q[1:3] does not: q[0]'s lineage travels on to q[2] and q[1] is left moved. */
  lemma {:induction false} ShiftRightDoesNotDeliver(own: Owners, row: Row)
    requires Element("q", 0) in own && Element("q", 1) in own && own[Element("q", 0)].lineage != own[Element("q", 1)].lineage
    ensures var src, dst := Keys(Ref("q", Some(0), Some(2))), Keys(Ref("q", Some(1), Some(3)));
      var o := MovePairs(own, row, src, dst, 2).0;
      Element("q", 2) in o && o[Element("q", 2)].lineage == own[Element("q", 0)].lineage
      && Element("q", 1) in o && o[Element("q", 1)].state == MOVED
  {
    var src, dst := Keys(Ref("q", Some(0), Some(2))), Keys(Ref("q", Some(1), Some(3)));
    assert src[0] == Element("q", 0) && src[1] == Element("q", 1) && dst[0] == Element("q", 1) && dst[1] == Element("q", 2);
    var (o1, d1) := MovePairs(own, row, src, dst, 1);
    assert MovePairs(own, row, src, dst, 0) == (own, []);
    assert o1[dst[0]].lineage == own[src[0]].lineage;
  }

  /** A row on no node and in no domain, with nothing to complain about in its descriptive columns. */
  function Plain(id: string, op: Op, out: Cell, a: Cell, link: string): Row {
    Row(id, op, out, Null, a, Null, NULL, NULL, link, true, true, true, true, false, false, false, None, [])
  }

  const Q01: Cell := Ref("q", Some(0), Some(2))
  const Q12: Cell := Ref("q", Some(1), Some(3))

  /** Declare a link, prepare q[0:2], and teleport it onto q[1:3]. */
  const SHIFT_RIGHT: seq<Row> := [
    Plain("R1", DeclareLink, Ref("e", None, None), Null, NULL),
    Plain("R2", Prepare, Q01, Null, NULL),
    Plain("R3", Teleport, Q12, Q01, "e")]

  lemma {:induction false} RangeKeys()
    ensures Keys(Q01) == [Element("q", 0), Element("q", 1)] && Keys(Q12) == [Element("q", 1), Element("q", 2)]
  {
    assert Elements("q", 2, 2) == [] && Elements("q", 3, 3) == [];
  }

  lemma {:induction false} PreparedTargets()
    ensures Targets(SHIFT_RIGHT[1]) == [Element("q", 0), Element("q", 1)]
  {
    hide Keys;
    RangeKeys();
    var keys := [Element("q", 0), Element("q", 1)];
    assert keys[..1] == [Element("q", 0)] && [Element("q", 0)][..0] == [];
    assert Unique([Element("q", 0)]) == [] + [Element("q", 0)];
    assert Unique(keys) == [Element("q", 0)] + [Element("q", 1)];
    assert Keys(Q01) + [] == keys;
  }

  lemma {:induction false} PreparedPair(row: Row)
    ensures Mint(map[], 0, row, [Element("q", 0), Element("q", 1)])
      == (map[Element("q", 0) := Fresh(row, 1), Element("q", 1) := Fresh(row, 2)], 2)
  {
    var keys := [Element("q", 0), Element("q", 1)];
    assert keys[..1] == [Element("q", 0)] && [Element("q", 0)][..0] == [];
    assert Mint(map[], 0, row, [Element("q", 0)]) == (map[Element("q", 0) := Fresh(row, 1)], 1);
  }

  /** A row on no node and in no domain, with a declared link if any, has nothing wrong in its form unless it is a gate
      or noise. */
  lemma {:induction false} PlainForm(st: State, row: Row)
    requires row.node == NULL && row.domain == NULL && (row.link == NULL || Declared(row.link, st.links))
    requires !row.op.Gate? && !row.op.WideControlled? && !row.op.Noise?
    ensures FormDiags(st, row) == []
  {
  }

  lemma {:induction false} ShiftRightPrepared(st: State)
    requires st.own == map[] && st.minted == 0
    ensures var next := RowStep(st, SHIFT_RIGHT[1]);
      && next.diags == st.diags && next.links == st.links
      && next.own == map[Element("q", 0) := Fresh(SHIFT_RIGHT[1], 1), Element("q", 1) := Fresh(SHIFT_RIGHT[1], 2)]
  {
    hide Targets, Mint, FormDiags, Fresh;
    PreparedTargets();
    PreparedPair(SHIFT_RIGHT[1]);
    PlainForm(st, SHIFT_RIGHT[1]);
  }

  lemma {:induction false} NoUseDiags(own: Owners, row: Row, keys: seq<Key>)
    requires forall k | k in keys :: UseCode(own, row, k) == None
    ensures UseDiags(own, row, keys) == []
    decreases |keys|
  {
    if keys != [] { NoUseDiags(own, row, keys[..|keys| - 1]); }
  }

  lemma {:induction false} ShiftRightUses(own: Owners)
    requires own == map[Element("q", 0) := Fresh(SHIFT_RIGHT[1], 1), Element("q", 1) := Fresh(SHIFT_RIGHT[1], 2)]
    ensures UseDiags(own, SHIFT_RIGHT[2], Touched(SHIFT_RIGHT[2])) == []
  {
    hide Unique, Keys, Mint, UseDiags;
    NoUseDiags(own, SHIFT_RIGHT[2], Touched(SHIFT_RIGHT[2]));
  }

  lemma {:induction false} ShiftRightPairs(own: Owners)
    requires Element("q", 0) in own && Element("q", 1) in own
    ensures MovePairs(own, SHIFT_RIGHT[2], Keys(Q01), Keys(Q12), 2).1 == [] && TeleportMoves(SHIFT_RIGHT[2]) == 2
  {
    hide Keys;
    RangeKeys();
    assert MovePairs(own, SHIFT_RIGHT[2], Keys(Q01), Keys(Q12), 0) == (own, []);
    var (o, d) := MovePairs(own, SHIFT_RIGHT[2], Keys(Q01), Keys(Q12), 1);
    assert d == [] && Keys(Q01)[1] in o;
  }

  lemma {:induction false} ShiftRightMoves(st: State)
    requires st.links == {Ref("e", None, None)} && st.diags == []
    requires st.own == map[Element("q", 0) := Fresh(SHIFT_RIGHT[1], 1), Element("q", 1) := Fresh(SHIFT_RIGHT[1], 2)]
    ensures var next := RowStep(st, SHIFT_RIGHT[2]);
      && next.diags == [] && next.own == MovePairs(st.own, SHIFT_RIGHT[2], Keys(Q01), Keys(Q12), 2).0
  {
    hide Unique, Keys, Mint, Establish, MovePairs, UseDiags, Touched, FormDiags, Fresh, TeleportMoves;
    ShiftRightUses(st.own);
    ShiftRightPairs(st.own);
    assert CellText(Ref("e", None, None)) == "e";
    PlainForm(st, SHIFT_RIGHT[2]);
  }

  /** The verifier accepts this program, after which the lineage prepared at q[0] is at q[2] and q[1] is moved away. */
  lemma {:induction false} ShiftRightIsAccepted()
    ensures Accepted(Program("deny", "none", SHIFT_RIGHT))
    ensures var own := Final(Program("deny", "none", SHIFT_RIGHT)).own;
      && Element("q", 1) in own && own[Element("q", 1)].state == MOVED
      && Element("q", 2) in own && own[Element("q", 2)].state == LIVE && own[Element("q", 2)].lineage == 1
  {
    hide RowStep;
    var a, b, c := StateAfter(SHIFT_RIGHT, 1), StateAfter(SHIFT_RIGHT, 2), StateAfter(SHIFT_RIGHT, 3);
    assert StateAfter(SHIFT_RIGHT, 0) == Initial;
    ShiftRightDeclared();
    ShiftRightPrepared(a);
    ShiftRightMoves(b);
    ShiftRightDoesNotDeliver(b.own, SHIFT_RIGHT[2]);
    LastMoveIsLive(b.own);
  }

  lemma {:induction false} ShiftRightDeclared()
    ensures var st := RowStep(Initial, SHIFT_RIGHT[0]);
      st.own == map[] && st.minted == 0 && st.diags == [] && st.links == {Ref("e", None, None)}
  {
  }

  lemma {:induction false} LastMoveIsLive(own: Owners)
    requires Element("q", 0) in own && Element("q", 1) in own
    ensures var o := MovePairs(own, SHIFT_RIGHT[2], Keys(Q01), Keys(Q12), 2).0;
      Element("q", 2) in o && o[Element("q", 2)].state == LIVE
  {
    RangeKeys();
    MovePairsKeepKeys(own, SHIFT_RIGHT[2], Keys(Q01), Keys(Q12), 1);
  }
}
