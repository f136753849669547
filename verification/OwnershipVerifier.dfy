/** The static ownership verifier: one pass over the rows of a program, tracking who holds which lineage. */
module OwnershipVerifier {
  import opened Basics

  // ---- programs ----

  /** An operand cell: empty, text that is no object reference, or `name`, `name[lo]`, `name[lo:hi]`. */
  datatype Cell = Null | Text(raw: string) | Ref(name: string, lo: Option<nat>, hi: Option<nat>)

  /** An object key. `q` and `q[0]` are unrelated keys. */
  datatype Key = Whole(name: string) | Element(name: string, index: nat) | Raw(cell: Cell)

  function Elements(name: string, lo: nat, hi: nat): (s: seq<Key>)
    ensures |s| == if lo < hi then hi - lo else 0
    ensures forall i | 0 <= i < |s| :: s[i] == Element(name, lo + i)
    ensures forall k :: k in s <==> k.Element? && k.name == name && lo <= k.index < hi
    decreases hi - lo
  {
    if lo < hi then [Element(name, lo)] + Elements(name, lo + 1, hi) else []
  }

  /** A key is one of the objects a cell refers to. */
  predicate Denotes(c: Cell, k: Key) {
    c.Ref? && match k
      case Whole(n) => n == c.name && c.lo == None
      case Element(n, i) =>
        n == c.name && c.lo.Some? && (if c.hi.Some? then c.lo.value <= i < c.hi.value else i == c.lo.value)
      case Raw(_) => false
  }

  function Keys(c: Cell): (s: seq<Key>)
    ensures Distinct(s) && forall k :: k in s <==> Denotes(c, k)
  {
    match c
    case Ref(name, None, _) => [Whole(name)]
    case Ref(name, Some(lo), None) => [Element(name, lo)]
    case Ref(name, Some(lo), Some(hi)) => Elements(name, lo, hi)
    case _ => []
  }

  /** Operations, by the catalogue classes the verifier distinguishes. */
  datatype Op =
    | UnknownOp
    | DeclareNode | DeclareDomain | DeclareLink | Annotation
    | Prepare
    | Gate(arity: nat, parametric: bool, controlled: bool)
    | WideControlled       // CU, MCU: controlled, without a fixed arity
    | Noise
    | Measure | RemoteMeasure
    | Teleport
    | EntangleLink         // ENTANGLE_LINK, EPR_RESERVE
    | EprRelease
    | RemoteGate           // REMOTE_CNOT, REMOTE_CONTROL
    | ClassicalFeedback
    | OtherDistributed
    | ClassicalControl     // CLASSICAL_IF, CLASSICAL_SWITCH, FEEDBACK
    | Joint                // TENSOR, MERGE
    | OtherOp
  {
    predicate Destructive() { Measure? || RemoteMeasure? }
    predicate Distributed() {
      RemoteMeasure? || Teleport? || EntangleLink? || EprRelease? || RemoteGate? || ClassicalFeedback? || OtherDistributed?
    }
    predicate Controlled() { WideControlled? || (Gate? && controlled) }
    predicate Skipped() { UnknownOp? || DeclareNode? || DeclareDomain? || DeclareLink? || Annotation? }
  }

  const NULL := "-"

  /** A row; catalogue membership of its descriptive columns is given by flags. */
  datatype Row = Row(
    id: string, op: Op, out: Cell, ctrl: Cell, a: Cell, b: Cell,
    node: string, domain: string, link: string,
    faceKnown: bool, regimeKnown: bool, typeKnown: bool, familyKnown: bool,
    quantumType: bool, exactRegime: bool, approx: bool, confidence: Option<real>, params: seq<real>)

  function Unique(s: seq<Key>): (r: seq<Key>)
    ensures Distinct(r)
    ensures forall k :: k in r <==> k in s
  {
    if s == [] then []
    else
      var rest := Unique(s[..|s| - 1]);
      assert s == s[..|s| - 1] + [s[|s| - 1]];
      if s[|s| - 1] in rest then rest else rest + [s[|s| - 1]]
  }

  function Reads(row: Row): seq<Key> { Keys(row.ctrl) + Keys(row.a) + Keys(row.b) }

  function Writes(row: Row): seq<Key> {
    Unique(Keys(row.out) +
           if row.op.Controlled() then Keys(row.a)
           else if row.op.Gate? || row.op.Noise? then Keys(row.a) + Keys(row.b) + Keys(row.ctrl)
           else [])
  }

  function Touched(row: Row): seq<Key> { Unique(Reads(row) + Writes(row)) }

  function Prefixed(s: string, p: string): bool { |p| <= |s| && s[..|p|] == p }

  predicate Hinted(k: Key) {
    match k
    case Whole(n) => QuantumName(n)
    case Element(n, _) => QuantumName(n)
    case Raw(Text(n)) => QuantumName(n)
    case Raw(Ref(n, _, _)) => QuantumName(n)
    case Raw(Null) => false
  }

  predicate QuantumName(n: string) {
    Prefixed(n, "q") || Prefixed(n, "anc") || Prefixed(n, "ebit") || Prefixed(n, "psi") || Prefixed(n, "rho") || Prefixed(n, "log")
  }

  predicate LooksQuantum(row: Row, k: Key) {
    row.quantumType || ((row.op.Gate? || row.op.Prepare? || row.op.Noise?) && Hinted(k))
  }

  // ---- verifier state ----

  datatype Hold = LIVE | MOVED | MEASURED | RELEASED

  datatype Record = Record(lineage: nat, state: Hold, node: string, domain: string, lastRow: string, entangled: set<Key>)

  type Owners = map<Key, Record>

  datatype Code =
    | FACE001 | REG001 | OP001 | TYPE001 | FAM001 | CONF001 | NODE001 | DOM001 | LINK001 | ARITY001 | PARAM001 | CTRL001 | PROB001
    | OWN001 | OWN002 | OWN003 | OWN005 | OWN006 | CLONE001 | PROTO001 | PROTO002 | PROTO003 | PROTO004 | W_PROTO005
    | EPR001 | EPR002 | EPR003 | CTL002 | CTL003 | REG002 | REG003
  {
    /** The diagnostics that speak of ownership rather than of form. */
    predicate Ownership() {
      OWN001? || OWN002? || OWN003? || OWN005? || OWN006? || CLONE001? || PROTO003? || EPR002? || EPR003?
    }
    predicate Rejects() { !W_PROTO005? }
  }

  datatype Diagnostic = Diagnostic(code: Code, row: string)

  datatype State = State(own: Owners, minted: nat, bits: set<Cell>, nodes: set<Cell>, domains: set<Cell>, links: set<Cell>,
                         diags: seq<Diagnostic>)

  const Initial: State := State(map[], 0, {}, {}, {}, {}, [])

  function When(c: bool, code: Code, row: Row): seq<Diagnostic> { if c then [Diagnostic(code, row.id)] else [] }

  // ---- checks of form ----

  function HeadDiags(row: Row): seq<Diagnostic> {
    When(!row.regimeKnown, REG001, row)
  }

  function DescriptionDiags(row: Row): seq<Diagnostic> {
    When(!row.typeKnown, TYPE001, row) + When(!row.familyKnown, FAM001, row)
    + When(row.confidence.Some? && !(0.0 <= row.confidence.value <= 1.0), CONF001, row)
  }

  predicate Declared(name: string, names: set<Cell>) { exists c | c in names :: CellText(c) == name }

  /** The text of a declaration's OUT cell; names are plain identifiers. */
  function CellText(c: Cell): string {
    match c case Text(raw) => raw case Ref(name, None, None) => name case _ => NULL
  }

  function ProbabilityDiags(row: Row, params: seq<real>): seq<Diagnostic> {
    if params == [] then []
    else When(!(0.0 <= params[0] <= 1.0), PROB001, row) + ProbabilityDiags(row, params[1..])
  }

  predicate Overlap(c: Cell, d: Cell) { exists k | k in Keys(c) :: k in Keys(d) }

  function SiteDiags(st: State, row: Row): seq<Diagnostic> {
    When(row.node != NULL && !Declared(row.node, st.nodes), NODE001, row)
    + When(row.domain != NULL && !Declared(row.domain, st.domains) && row.node == NULL, DOM001, row)
    + When(row.link != NULL && !Declared(row.link, st.links), LINK001, row)
  }

  function GateDiags(row: Row): seq<Diagnostic> {
    When(row.op.Gate? && |Keys(row.ctrl)| + |Keys(row.a)| + |Keys(row.b)| != row.op.arity, ARITY001, row)
    + When(row.op.Gate? && row.op.parametric && row.params == [], PARAM001, row)
    + When(row.op.Controlled() && Overlap(row.ctrl, row.a), CTRL001, row)
  }

  function FormDiags(st: State, row: Row): seq<Diagnostic> {
    SiteDiags(st, row) + GateDiags(row) + if row.op.Noise? then ProbabilityDiags(row, row.params) else []
  }

  // ---- ownership rules, key by key ----

  function Fresh(row: Row, lineage: nat): Record { Record(lineage, LIVE, row.node, row.domain, row.id, {}) }

  /** Preparation: every target becomes live under a new lineage. */
  function Mint(own: Owners, minted: nat, row: Row, keys: seq<Key>): (Owners, nat) {
    if keys == [] then (own, minted)
    else
      var (o, m) := Mint(own, minted, row, keys[..|keys| - 1]);
      (o[keys[|keys| - 1] := Fresh(row, m + 1)], m + 1)
  }

  function UseCode(own: Owners, row: Row, k: Key): Option<Code> {
    if k !in own then (if LooksQuantum(row, k) then Some(OWN005) else None)
    else match own[k].state
      case MOVED => Some(OWN001)
      case MEASURED => Some(OWN002)
      case RELEASED => Some(OWN006)
      case LIVE => if own[k].node != NULL && own[k].node != row.node && !row.op.Distributed() then Some(OWN003) else None
  }

  function UseDiags(own: Owners, row: Row, keys: seq<Key>): seq<Diagnostic> {
    if keys == [] then []
    else
      var last := UseCode(own, row, keys[|keys| - 1]);
      UseDiags(own, row, keys[..|keys| - 1]) + if last.Some? then [Diagnostic(last.value, row.id)] else []
  }

  function MarkAll(own: Owners, row: Row, keys: seq<Key>): Owners {
    if keys == [] then own
    else
      var o := MarkAll(own, row, keys[..|keys| - 1]);
      var k := keys[|keys| - 1];
      if k in o then o[k := o[k].(state := MEASURED, lastRow := row.id)] else o
  }

  /** Move the first `n` pairs, one after the other. */
  function MovePairs(own: Owners, row: Row, src: seq<Key>, dst: seq<Key>, n: nat): (Owners, seq<Diagnostic>)
    requires n <= |src| && n <= |dst|
  {
    if n == 0 then (own, [])
    else
      var (o, d) := MovePairs(own, row, src, dst, n - 1);
      var s := src[n - 1];
      if s !in o then (o, d + [Diagnostic(PROTO003, row.id)])
      else
        var lineage := o[s].lineage;
        (o[s := o[s].(state := MOVED, lastRow := row.id)][dst[n - 1] := Fresh(row, lineage)], d)
  }

  function ReleaseAll(own: Owners, row: Row, keys: seq<Key>): (Owners, seq<Diagnostic>) {
    if keys == [] then (own, [])
    else
      var (o, d) := ReleaseAll(own, row, keys[..|keys| - 1]);
      var k := keys[|keys| - 1];
      if k !in o then (o, d + [Diagnostic(EPR002, row.id)])
      else if o[k].state == RELEASED then (o, d + [Diagnostic(EPR003, row.id)])
      else (o[k := o[k].(state := RELEASED, lastRow := row.id)], d)
  }

  /** Outputs of ordinary operations: known keys are stamped, new quantum-looking ones become live. */
  function Establish(own: Owners, minted: nat, row: Row, keys: seq<Key>): (Owners, nat) {
    if keys == [] then (own, minted)
    else
      var (o, m) := Establish(own, minted, row, keys[..|keys| - 1]);
      var k := keys[|keys| - 1];
      if k in o then (o[k := o[k].(lastRow := row.id)], m)
      else if LooksQuantum(row, k) then (o[k := Fresh(row, m + 1)], m + 1)
      else (o, m)
  }

  function FirstKey(c: Cell): Option<Key> {
    match c case Ref(name, None, _) => Some(Whole(name)) case Ref(name, Some(lo), _) => Some(Element(name, lo)) case _ => None
  }

  /** The two ends of a remote gate are recorded as entangled with each other. */
  function Entangle(own: Owners, c: Cell, a: Cell): Owners {
    var x, y := FirstKey(c), FirstKey(a);
    if x.Some? && y.Some? && x.value in own && y.value in own then
      var o := own[x.value := own[x.value].(entangled := own[x.value].entangled + {y.value})];
      o[y.value := o[y.value].(entangled := o[y.value].entangled + {x.value})]
    else own
  }

  predicate SameSite(own: Owners, c: Cell, a: Cell) {
    var x, y := FirstKey(c), FirstKey(a);
    x.Some? && y.Some? && x.value in own && y.value in own && own[x.value].node == own[y.value].node
  }

  function Targets(row: Row): seq<Key> {
    if Writes(row) != [] then Writes(row) else if row.out == Null then [] else [Raw(row.out)]
  }

  function MeasuredCell(row: Row): Cell { if row.a.Ref? then row.a else row.ctrl }

  function TeleportMoves(row: Row): (n: nat)
    ensures n <= |Keys(row.a)| && n <= |Keys(row.out)|
  {
    if row.a.Ref? && row.out.Ref? && row.link != NULL then Min(|Keys(row.a)|, |Keys(row.out)|) else 0
  }

  /** The effect of one row that is neither skipped nor a preparation, once its operands were checked. */
  function Effect(own: Owners, minted: nat, row: Row): (Owners, nat, seq<Diagnostic>) {
    match row.op
    case Measure => (MarkAll(own, row, Keys(MeasuredCell(row))), minted, [])
    case RemoteMeasure => (MarkAll(own, row, Keys(MeasuredCell(row))), minted, [])
    case Teleport =>
      var (o, d) := MovePairs(own, row, Keys(row.a), Keys(row.out), TeleportMoves(row));
      (o, minted, When(!row.a.Ref? || !row.out.Ref?, PROTO001, row)
                  + When(row.a.Ref? && row.out.Ref? && row.link == NULL, PROTO002, row) + d)
    case EntangleLink =>
      var (o, m) := Mint(own, minted, row, Keys(row.out));
      (o, m, When(row.link == NULL, EPR001, row))
    case EprRelease =>
      var (o, d) := ReleaseAll(own, row, Keys(row.a));
      (o, minted, d)
    case RemoteGate =>
      (Entangle(own, row.ctrl, row.a), minted,
       When(row.link == NULL, PROTO004, row) + When(SameSite(own, row.ctrl, row.a), W_PROTO005, row))
    case ClassicalFeedback => (own, minted, [])
    case OtherDistributed => (own, minted, [])
    case _ =>
      var (o, m) := Establish(own, minted, row, Writes(row));
      (o, m, [])
  }

  function ControlDiags(bits: set<Cell>, row: Row): seq<Diagnostic> {
    if row.op.ClassicalControl? || row.op.ClassicalFeedback? then
      var src := if row.ctrl != Null then row.ctrl else row.a;
      if src == Null then [Diagnostic(CTL002, row.id)] else When(src !in bits, CTL003, row)
    else []
  }

  function TailDiags(row: Row): seq<Diagnostic> {
    When(row.exactRegime && row.op.Noise?, REG002, row) + When(row.exactRegime && row.approx, REG003, row)
  }

  function CloneDiags(row: Row): seq<Diagnostic> { When(row.op.Joint? && Overlap(row.a, row.b), CLONE001, row) }

  /** One row of the pass. */
  function RowStep(st: State, row: Row): State {
    if !row.faceKnown then st.(diags := st.diags + [Diagnostic(FACE001, row.id)])
    else if row.op.UnknownOp? then st.(diags := st.diags + HeadDiags(row) + [Diagnostic(OP001, row.id)])
    else
      var d := st.diags + HeadDiags(row) + DescriptionDiags(row);
      match row.op
      case DeclareNode => st.(nodes := st.nodes + {row.out}, diags := d)
      case DeclareDomain => st.(domains := st.domains + {row.out}, diags := d)
      case DeclareLink => st.(links := st.links + {row.out}, diags := d)
      case Annotation => st.(diags := d)
      case Prepare =>
        var (o, m) := Mint(st.own, st.minted, row, Targets(row));
        st.(own := o, minted := m, diags := d + FormDiags(st, row))
      case _ =>
        var (o, m, e) := Effect(st.own, st.minted, row);
        var bits := if row.op.Destructive() && row.out != Null then st.bits + {row.out} else st.bits;
        State(o, m, bits, st.nodes, st.domains, st.links,
              d + FormDiags(st, row) + UseDiags(st.own, row, Touched(row)) + CloneDiags(row) + e
              + ControlDiags(bits, row) + TailDiags(row))
  }

  /** The state after the first `n` rows. */
  function StateAfter(rows: seq<Row>, n: nat): State
    requires n <= |rows|
  {
    if n == 0 then Initial else RowStep(StateAfter(rows, n - 1), rows[n - 1])
  }

  datatype Program = Program(networkPolicy: string, backendPolicy: string, rows: seq<Row>)

  /** The state after the whole program. */
  function Final(p: Program): State { StateAfter(p.rows, |p.rows|) }

  predicate Accepted(p: Program) {
    p.networkPolicy == "deny" && p.backendPolicy == "none" && forall d | d in Final(p).diags :: !d.code.Rejects()
  }

  // ---- the pass itself ----

  method MintLoop(own0: Owners, minted0: nat, row: Row, keys: seq<Key>) returns (own: Owners, minted: nat)
    ensures (own, minted) == Mint(own0, minted0, row, keys)
  {
    own, minted := own0, minted0;
    for i := 0 to |keys|
      invariant (own, minted) == Mint(own0, minted0, row, keys[..i])
    {
      assert keys[..i + 1][..i] == keys[..i];
      minted := minted + 1;
      own := own[keys[i] := Fresh(row, minted)];
    }
    assert keys[..|keys|] == keys;
  }

  method UseLoop(own: Owners, row: Row, keys: seq<Key>) returns (diags: seq<Diagnostic>)
    ensures diags == UseDiags(own, row, keys)
  {
    diags := [];
    for i := 0 to |keys|
      invariant diags == UseDiags(own, row, keys[..i])
    {
      assert keys[..i + 1][..i] == keys[..i];
      var code := UseCode(own, row, keys[i]);
      if code.Some? { diags := diags + [Diagnostic(code.value, row.id)]; }
    }
    assert keys[..|keys|] == keys;
  }

  method MeasureLoop(own0: Owners, row: Row, keys: seq<Key>) returns (own: Owners)
    ensures own == MarkAll(own0, row, keys)
  {
    own := own0;
    for i := 0 to |keys|
      invariant own == MarkAll(own0, row, keys[..i])
    {
      assert keys[..i + 1][..i] == keys[..i];
      if keys[i] in own { own := own[keys[i] := own[keys[i]].(state := MEASURED, lastRow := row.id)]; }
    }
    assert keys[..|keys|] == keys;
  }

  method TeleportLoop(own0: Owners, row: Row, src: seq<Key>, dst: seq<Key>, n: nat) returns (own: Owners,
        diags: seq<Diagnostic>)
    requires n <= |src| && n <= |dst|
    ensures (own, diags) == MovePairs(own0, row, src, dst, n)
  {
    own, diags := own0, [];
    for i := 0 to n
      invariant (own, diags) == MovePairs(own0, row, src, dst, i)
    {
      var s := src[i];
      if s !in own {
        diags := diags + [Diagnostic(PROTO003, row.id)];
      } else {
        var lineage := own[s].lineage;
        own := own[s := own[s].(state := MOVED, lastRow := row.id)];
        own := own[dst[i] := Fresh(row, lineage)];
      }
    }
  }

  method ReleaseLoop(own0: Owners, row: Row, keys: seq<Key>) returns (own: Owners, diags: seq<Diagnostic>)
    ensures (own, diags) == ReleaseAll(own0, row, keys)
  {
    own, diags := own0, [];
    for i := 0 to |keys|
      invariant (own, diags) == ReleaseAll(own0, row, keys[..i])
    {
      assert keys[..i + 1][..i] == keys[..i];
      var k := keys[i];
      if k !in own { diags := diags + [Diagnostic(EPR002, row.id)]; }
      else if own[k].state == RELEASED { diags := diags + [Diagnostic(EPR003, row.id)]; }
      else { own := own[k := own[k].(state := RELEASED, lastRow := row.id)]; }
    }
    assert keys[..|keys|] == keys;
  }

  method EstablishLoop(own0: Owners, minted0: nat, row: Row, keys: seq<Key>) returns (own: Owners, minted: nat)
    ensures (own, minted) == Establish(own0, minted0, row, keys)
  {
    own, minted := own0, minted0;
    for i := 0 to |keys|
      invariant (own, minted) == Establish(own0, minted0, row, keys[..i])
    {
      assert keys[..i + 1][..i] == keys[..i];
      var k := keys[i];
      if k in own {
        own := own[k := own[k].(lastRow := row.id)];
      } else if LooksQuantum(row, k) {
        minted := minted + 1;
        own := own[k := Fresh(row, minted)];
      }
    }
    assert keys[..|keys|] == keys;
  }

  method ApplyEffect(own0: Owners, minted0: nat, row: Row) returns (own: Owners, minted: nat, diags: seq<Diagnostic>)
    ensures (own, minted, diags) == Effect(own0, minted0, row)
  {
    own, minted, diags := own0, minted0, [];
    if row.op.Destructive() { own := MeasureLoop(own, row, Keys(MeasuredCell(row))); }
    if row.op.Teleport? {
      if !row.a.Ref? || !row.out.Ref? {
        diags := [Diagnostic(PROTO001, row.id)];
        assert diags + [] + [] == diags;
      } else if row.link == NULL {
        diags := [Diagnostic(PROTO002, row.id)];
        assert [] + diags + [] == diags;
      } else {
        own, diags := TeleportLoop(own, row, Keys(row.a), Keys(row.out), TeleportMoves(row));
        assert [] + [] + diags == diags;
      }
    }
    if row.op.EntangleLink? {
      if row.link == NULL { diags := [Diagnostic(EPR001, row.id)]; }
      own, minted := MintLoop(own, minted, row, Keys(row.out));
    }
    if row.op.EprRelease? { own, diags := ReleaseLoop(own, row, Keys(row.a)); }
    if row.op.RemoteGate? {
      diags := When(row.link == NULL, PROTO004, row) + When(SameSite(own, row.ctrl, row.a), W_PROTO005, row);
      own := Entangle(own, row.ctrl, row.a);
    }
    if !row.op.Destructive() && !row.op.Distributed() { own, minted := EstablishLoop(own, minted, row, Writes(row)); }
  }

  method CheckRow(st: State, row: Row) returns (next: State)
    ensures next == RowStep(st, row)
  {
    if !row.faceKnown { return st.(diags := st.diags + [Diagnostic(FACE001, row.id)]); }
    if row.op.UnknownOp? { return st.(diags := st.diags + HeadDiags(row) + [Diagnostic(OP001, row.id)]); }
    var d := st.diags + HeadDiags(row) + DescriptionDiags(row);
    if row.op.DeclareNode? { return st.(nodes := st.nodes + {row.out}, diags := d); }
    if row.op.DeclareDomain? { return st.(domains := st.domains + {row.out}, diags := d); }
    if row.op.DeclareLink? { return st.(links := st.links + {row.out}, diags := d); }
    if row.op.Annotation? { return st.(diags := d); }
    d := d + FormDiags(st, row);
    if row.op.Prepare? {
      var own, minted := MintLoop(st.own, st.minted, row, Targets(row));
      return st.(own := own, minted := minted, diags := d);
    }
    var uses := UseLoop(st.own, row, Touched(row));
    var own, minted, e := ApplyEffect(st.own, st.minted, row);
    var bits := if row.op.Destructive() && row.out != Null then st.bits + {row.out} else st.bits;
    next := State(own, minted, bits, st.nodes, st.domains, st.links,
                  d + uses + CloneDiags(row) + e + ControlDiags(bits, row) + TailDiags(row));
  }

  /** The whole verification: the final state of the pass, and acceptance iff no rejecting diagnostic was issued. */
  method Verify(p: Program) returns (ok: bool, st: State)
    ensures st == Final(p)
    ensures ok <==> Accepted(p)
  {
    st := Initial;
    for i := 0 to |p.rows|
      invariant st == StateAfter(p.rows, i)
    {
      st := CheckRow(st, p.rows[i]);
    }
    ok := p.networkPolicy == "deny" && p.backendPolicy == "none" && forall d | d in st.diags :: !d.code.Rejects();
  }
}
