/** The four lowerings, line by line, and the chains of segments that the fabric runs through them. */
module WitnessLowerings {
  import opened Basics
  import opened Folds
  import opened Witnesses
  import opened WitnessCompiler

  datatype Result<+T> = Ok(value: T) | Refused(reason: Refusal)

  datatype Refusal = NoRows | TooManyRows(rows: nat, bound: nat) | TooManyLines

  // ---- nodes and their bounds ----

  datatype Node = Small | Medium | Large | XLarge

  const INSTRUCTIONS_PER_ROW: nat := 3
  const PROLOGUE_EPILOGUE: nat := 4
  const BR_MAX_INSTRUCTIONS: nat := 256
  const BR_MAX_SOURCE_LINES: nat := 512
  const QVM_MAX_INSTRUCTIONS: nat := 65535

  function Ceiling(node: Node): nat { if node == XLarge then QVM_MAX_INSTRUCTIONS else BR_MAX_INSTRUCTIONS }

  function MaxRows(node: Node): (rows: nat)
  {
    (Ceiling(node) - PROLOGUE_EPILOGUE) / INSTRUCTIONS_PER_ROW
  }

  /** The row bound is the instruction ceiling: 84 rows or 21843. */
  lemma {:induction false} RowBoundIsCeiling(node: Node, n: nat)
    ensures n <= MaxRows(node) <==> 3 * n + 4 <= Ceiling(node)
    ensures MaxRows(node) == if node == XLarge then 21843 else 84
  {
  }

  method CheckBound(words: seq<nat>, node: Node) returns (refusal: Option<Refusal>)
    ensures refusal == None <==> 1 <= |words| && 3 * |words| + 4 <= Ceiling(node)
    ensures refusal.Some? ==> refusal.value == if words == [] then NoRows else TooManyRows(|words|, MaxRows(node))
  {
    RowBoundIsCeiling(node, |words|);
    if words == [] {
      return Some(NoRows);
    }
    if |words| > MaxRows(node) {
      return Some(TooManyRows(|words|, MaxRows(node)));
    }
    return None;
  }

  // ---- dialects ----

  datatype Op = MOVI | MUL | XOR | MOV | HALT

  /** A source line of any dialect. Text stands for headers, directives, comments, declarations and terminators. */
  datatype Line =
    | Text
    | Columned(op: Op, out: Option<Reg>, ins: seq<Reg>, arg: Option<nat>)
    | Assembly(op: Op, regs: seq<Reg>, imm: Option<nat>)
    | VmRow(op: Op, dst: Option<Reg>, a: Option<Reg>, b: Option<Reg>, immediate: Option<nat>)

  function Instruction(op: Op, dst: Option<Reg>, ins: seq<Reg>, imm: Option<nat>): Option<Insn>
  {
    match (op, dst, imm)
    case (MOVI, Some(d), Some(v)) => if ins == [] then Some(MovI(d, v)) else None
    case (MUL, Some(d), None) => if |ins| == 2 then Some(Mul(d, ins[0], ins[1])) else None
    case (XOR, Some(d), None) => if |ins| == 2 then Some(XorR(d, ins[0], ins[1])) else None
    case (MOV, Some(d), None) => if |ins| == 1 then Some(Mov(d, ins[0])) else None
    case (HALT, None, None) => if ins == [] then Some(Halt) else None
    case _ => None
  }

  /** What the assembler of a dialect makes of a line. */
  function Decode(line: Line): Option<Insn>
  {
    match line
    case Text => None
    case Columned(op, out, ins, arg) => Instruction(op, out, ins, arg)
    case Assembly(op, regs, imm) =>
      if regs == [] then Instruction(op, None, [], imm) else Instruction(op, Some(regs[0]), regs[1..], imm)
    case VmRow(op, dst, a, b, imm) =>
      Instruction(op, dst, (if a.Some? then [a.value] else []) + (if b.Some? then [b.value] else []), imm)
  }

  function One(line: Line): (c: seq<Insn>)
  {
    match Decode(line)
    case Some(insn) => [insn]
    case None => []
  }

  function Assemble(lines: seq<Line>): (c: seq<Insn>)
  {
    if lines == [] then [] else Assemble(lines[..|lines| - 1]) + One(lines[|lines| - 1])
  }

  lemma {:induction false} AssembleSnoc(lines: seq<Line>, line: Line)
    ensures Assemble(lines + [line]) == Assemble(lines) + One(line)
  {
    assert (lines + [line])[..|lines|] == lines;
  }

  lemma {:induction false} AssembleThree(lines: seq<Line>, a: Line, b: Line, c: Line)
    ensures Assemble(lines + [a, b, c]) == Assemble(lines) + One(a) + One(b) + One(c)
  {
    hide One, Decode, Assemble;
    AssembleSnoc(lines, a);
    AssembleSnoc(lines + [a], b);
    AssembleSnoc(lines + [a] + [b], c);
    assert lines + [a] + [b] + [c] == lines + [a, b, c];
  }

  /** The instruction of each line shape, with v for any immediate. */
  lemma {:induction false} ColumnedLines(v: nat)
    ensures One(Columned(MUL, Some(R0), [R0, R1], None)) == [Mul(R0, R0, R1)]
    ensures One(Columned(XOR, Some(R0), [R0, R3], None)) == [XorR(R0, R0, R3)]
    ensures One(Columned(MOV, Some(R2), [R0], None)) == [Mov(R2, R0)]
    ensures forall d :: One(Columned(MOVI, Some(d), [], Some(v))) == [MovI(d, v)]
    ensures One(Columned(HALT, None, [], None)) == [Halt] && One(Text) == []
  {
  }

  lemma {:induction false} AssemblyLines(v: nat)
    ensures One(Assembly(MUL, [R0, R0, R1], None)) == [Mul(R0, R0, R1)]
    ensures One(Assembly(XOR, [R0, R0, R3], None)) == [XorR(R0, R0, R3)]
    ensures One(Assembly(MOV, [R2, R0], None)) == [Mov(R2, R0)]
    ensures forall d :: One(Assembly(MOVI, [d], Some(v))) == [MovI(d, v)]
    ensures One(Assembly(HALT, [], None)) == [Halt] && One(Text) == []
  {
  }

  lemma {:induction false} VmLines(v: nat)
    ensures One(VmRow(MUL, Some(R0), Some(R0), Some(R1), None)) == [Mul(R0, R0, R1)]
    ensures One(VmRow(XOR, Some(R0), Some(R0), Some(R3), None)) == [XorR(R0, R0, R3)]
    ensures One(VmRow(MOV, Some(R2), Some(R0), None, None)) == [Mov(R2, R0)]
    ensures forall d :: One(VmRow(MOVI, Some(d), None, None, Some(v))) == [MovI(d, v)]
    ensures One(VmRow(HALT, None, None, None, None)) == [Halt] && One(Text) == []
  {
  }

  /** Code of the first i rows, without the epilogue. */
  function PartialCode(words: seq<nat>, i: nat, acc: nat): (c: seq<Insn>)
    requires i <= |words|
  {
    [MovI(R0, Low64(acc)), MovI(R1, FNV_PRIME)] + RowsCode(words[..i])
  }

  lemma {:induction false} PartialCodeStep(words: seq<nat>, i: nat, acc: nat)
    requires i < |words|
    ensures PartialCode(words, i + 1, acc) ==
      PartialCode(words, i, acc) + [Mul(R0, R0, R1)] + [MovI(R3, Low64(words[i]))] + [XorR(R0, R0, R3)]
  {
    assert words[..i + 1][..i] == words[..i];
  }

  lemma {:induction false} PartialCodeEnds(words: seq<nat>, acc: nat)
    ensures PartialCode(words, 0, acc) == [] + [MovI(R0, Low64(acc))] + [MovI(R1, FNV_PRIME)]
    ensures Code(words, acc) == PartialCode(words, |words|, acc) + [Mov(R2, R0)] + [Halt]
  {
    assert words[..|words|] == words;
  }

  /** A lowering is accepted exactly within the node's ceiling, and then assembles to the common code. */
  ghost predicate Faithful(r: Result<seq<Line>>, words: seq<nat>, acc: nat, node: Node) {
    && (r.Ok? <==> 1 <= |words| && 3 * |words| + 4 <= Ceiling(node))
    && (r.Ok? ==> Assemble(r.value) == Code(words, acc))
    && (r.Refused? ==> r.reason == if words == [] then NoRows else TooManyRows(|words|, MaxRows(node)))
  }

  /** LCTLC/1.1. The limit on source lines is never reached: 3n + 10 lines are at most 262. */
  method LowerLctlc11(words: seq<nat>, acc: nat) returns (r: Result<seq<Line>>)
    ensures Faithful(r, words, acc, Medium)
    ensures r.Ok? ==> |r.value| == 3 * |words| + 10
  {
    hide Assemble, Code, PartialCode, Low64, One, Decode, Instruction, RowsCode;
    var refusal := CheckBound(words, Medium);
    if refusal.Some? {
      RowBoundIsCeiling(Medium, |words|);
      return Refused(refusal.value);
    }
    PartialCodeEnds(words, acc);
    ColumnedLines(Low64(acc));
    ColumnedLines(FNV_PRIME);
    var out := [Text, Text, Text, Text];
    AssembleHeader(out);
    var first, second := Columned(MOVI, Some(R0), [], Some(Low64(acc))), Columned(MOVI, Some(R1), [], Some(FNV_PRIME));
    AssembleThree(out, Text, first, second);
    out := out + [Text, first, second];
    for i := 0 to |words|
      invariant |out| == 7 + 3 * i && Assemble(out) == PartialCode(words, i, acc)
    {
      var a, b, c := Columned(MUL, Some(R0), [R0, R1], None), Columned(MOVI, Some(R3), [], Some(Low64(words[i]))),
        Columned(XOR, Some(R0), [R0, R3], None);
      AssembleThree(out, a, b, c);
      PartialCodeStep(words, i, acc);
      ColumnedLines(Low64(words[i]));
      out := out + [a, b, c];
    }
    var move, halt := Columned(MOV, Some(R2), [R0], None), Columned(HALT, None, [], None);
    AssembleThree(out, move, halt, Text);
    out := out + [move, halt, Text];
    if |out| > BR_MAX_SOURCE_LINES {
      return Refused(TooManyLines);
    }
    return Ok(out);
  }

  lemma {:induction false} AssembleHeader(lines: seq<Line>)
    requires forall i | 0 <= i < |lines| :: lines[i] == Text
    ensures Assemble(lines) == []
    decreases |lines|
  {
    if lines != [] { AssembleHeader(lines[..|lines| - 1]); }
  }

  /** MSSL/ASM-1. */
  method LowerMssl(words: seq<nat>, acc: nat) returns (r: Result<seq<Line>>)
    ensures Faithful(r, words, acc, Small)
  {
    hide Assemble, Code, PartialCode, Low64, One, Decode, Instruction, RowsCode;
    var refusal := CheckBound(words, Small);
    if refusal.Some? {
      RowBoundIsCeiling(Small, |words|);
      return Refused(refusal.value);
    }
    PartialCodeEnds(words, acc);
    AssemblyLines(Low64(acc));
    AssemblyLines(FNV_PRIME);
    var out := [Text, Text, Text];
    AssembleHeader(out);
    var first, second := Assembly(MOVI, [R0], Some(Low64(acc))), Assembly(MOVI, [R1], Some(FNV_PRIME));
    AssembleThree(out, Text, first, second);
    out := out + [Text, first, second];
    for i := 0 to |words|
      invariant Assemble(out) == PartialCode(words, i, acc)
    {
      var a, b, c := Assembly(MUL, [R0, R0, R1], None), Assembly(MOVI, [R3], Some(Low64(words[i]))), Assembly(XOR, [R0, R0, R3], None);
      AssembleThree(out, a, b, c);
      PartialCodeStep(words, i, acc);
      AssemblyLines(Low64(words[i]));
      out := out + [a, b, c];
    }
    var move, halt := Assembly(MOV, [R2, R0], None), Assembly(HALT, [], None);
    AssembleSnoc(out, move);
    AssembleSnoc(out + [move], halt);
    return Ok(out + [move] + [halt]);
  }

  /** LCTLC/1.2. */
  method LowerLctlc12(words: seq<nat>, acc: nat) returns (r: Result<seq<Line>>)
    ensures Faithful(r, words, acc, Large)
  {
    hide Assemble, Code, PartialCode, Low64, One, Decode, Instruction, RowsCode;
    var refusal := CheckBound(words, Large);
    if refusal.Some? {
      RowBoundIsCeiling(Large, |words|);
      return Refused(refusal.value);
    }
    PartialCodeEnds(words, acc);
    ColumnedLines(Low64(acc));
    ColumnedLines(FNV_PRIME);
    var out := [Text, Text, Text];
    AssembleHeader(out);
    var first, second := Columned(MOVI, Some(R0), [], Some(Low64(acc))), Columned(MOVI, Some(R1), [], Some(FNV_PRIME));
    AssembleThree(out, Text, first, second);
    out := out + [Text, first, second];
    for i := 0 to |words|
      invariant Assemble(out) == PartialCode(words, i, acc)
    {
      var a, b, c := Columned(MUL, Some(R0), [R0, R1], None), Columned(MOVI, Some(R3), [], Some(Low64(words[i]))),
        Columned(XOR, Some(R0), [R0, R3], None);
      AssembleThree(out, a, b, c);
      PartialCodeStep(words, i, acc);
      ColumnedLines(Low64(words[i]));
      out := out + [a, b, c];
    }
    var move, halt := Columned(MOV, Some(R2), [R0], None), Columned(HALT, None, [], None);
    AssembleThree(out, move, halt, Text);
    return Ok(out + [move, halt, Text]);
  }

  /** LCTLC/1.0 for the quorum machine. */
  method LowerQvm(words: seq<nat>, acc: nat) returns (r: Result<seq<Line>>)
    ensures Faithful(r, words, acc, XLarge)
  {
    hide Assemble, Code, PartialCode, Low64, One, Decode, Instruction, RowsCode;
    var refusal := CheckBound(words, XLarge);
    if refusal.Some? {
      RowBoundIsCeiling(XLarge, |words|);
      return Refused(refusal.value);
    }
    PartialCodeEnds(words, acc);
    VmLines(Low64(acc));
    VmLines(FNV_PRIME);
    var out := [Text, Text, Text, Text, Text, Text];
    AssembleHeader(out);
    var first, second := VmRow(MOVI, Some(R0), None, None, Some(Low64(acc))), VmRow(MOVI, Some(R1), None, None, Some(FNV_PRIME));
    AssembleThree(out, Text, first, second);
    out := out + [Text, first, second];
    for i := 0 to |words|
      invariant Assemble(out) == PartialCode(words, i, acc)
    {
      var a, b, c := VmRow(MUL, Some(R0), Some(R0), Some(R1), None), VmRow(MOVI, Some(R3), None, None, Some(Low64(words[i]))),
        VmRow(XOR, Some(R0), Some(R0), Some(R3), None);
      AssembleThree(out, a, b, c);
      PartialCodeStep(words, i, acc);
      VmLines(Low64(words[i]));
      out := out + [a, b, c];
    }
    var move, halt := VmRow(MOV, Some(R2), Some(R0), None, None), VmRow(HALT, None, None, None, None);
    AssembleThree(out, move, halt, Text);
    AssembleSnoc(out + [move, halt, Text], Text);
    return Ok(out + [move, halt, Text] + [Text]);
  }

  // ---- running segments on nodes ----

  /** Lower for a node, assemble, run until it halts, and read the low 64 bits of R2. */
  method Submit(node: Node, width: nat, words: seq<nat>, acc: nat) returns (r: Result<nat>)
    requires width >= 64
    ensures r.Ok? <==> 1 <= |words| && 3 * |words| + 4 <= Ceiling(node)
    ensures r.Ok? ==> r.value == Witness(words, acc)
  {
    hide Code, Assemble, Run, Witness, Low64;
    var lowered: Result<seq<Line>>;
    match node {
      case Small => lowered := LowerMssl(words, acc);
      case Medium => lowered := LowerLctlc11(words, acc);
      case Large => lowered := LowerLctlc12(words, acc);
      case XLarge => lowered := LowerQvm(words, acc);
    }
    if lowered.Refused? {
      return Refused(lowered.reason);
    }
    var code := Assemble(lowered.value);
    var start := Machine(0, Regs(0, 0, 0, 0), false);
    LoweringPreservesMeaning(words, acc, width, start);
    return Ok(Low64(Run(code, start, width, |code|).regs.r2));
  }

  /** The whole bundle on one node, chained through its segments. */
  method ChainTask(node: Node, width: nat, words: seq<nat>, maxRows: nat) returns (r: Result<nat>, agreement: bool)
    requires width >= 64 && maxRows >= 1
    ensures r.Ok? <==> Min(|words|, maxRows) <= MaxRows(node)
    ensures r.Ok? ==> r.value == Witness(words, FNV_OFFSET) && agreement
  {
    hide Witness, Segments, Threaded;
    var segs := Segments(words, maxRows);
    var acc := FNV_OFFSET;
    StartAccumulator();
    FirstSegment(words, maxRows);
    for i := 0 to |segs|
      invariant Threaded(segs, FNV_OFFSET) == Threaded(segs[i..], acc)
      invariant i > 0 ==> |segs[0]| <= MaxRows(node)
    {
      assert segs[i] in segs;
      RowBoundIsCeiling(node, |segs[i]|);
      var step := Submit(node, width, segs[i], acc);
      if step.Refused? {
        return Refused(step.reason), false;
      }
      ThreadedStep(segs[i..], acc);
      assert segs[i..][1..] == segs[i + 1..];
      acc := step.value;
    }
    ThreadedStep(segs[|segs|..], acc);
    ThreadedIsJoined(segs, FNV_OFFSET);
    SegmentsJoin(words, maxRows);
    var reference := ReferenceWitness(words, FNV_OFFSET);
    return Ok(acc), acc == reference;
  }

  lemma {:induction false} StartAccumulator()
    ensures FNV_OFFSET < WORD
  {
  }

  lemma {:induction false} FirstSegment(words: seq<nat>, maxRows: nat)
    requires maxRows >= 1
    ensures var segs := Segments(words, maxRows);
      && (segs == [] <==> words == [])
      && (forall s | s in segs :: |s| <= Min(|words|, maxRows))
      && (words != [] ==> |segs[0]| == Min(|words|, maxRows))
    decreases |words|
  {
    if |words| > maxRows { FirstSegment(words[maxRows..], maxRows); }
  }

  lemma {:induction false} ThreadedStep(segs: seq<seq<nat>>, acc: nat)
    ensures segs == [] ==> Threaded(segs, acc) == acc
    ensures segs != [] ==> Threaded(segs, acc) == Threaded(segs[1..], Witness(segs[0], acc))
  {
  }

  /** Segments of at most 84 rows, each run on whichever node it was placed on: never refused, and equal to the whole. */
  method Pipeline(words: seq<nat>, placement: seq<(Node, nat)>) returns (final: nat, agreement: bool)
    requires |placement| == |Segments(words, MaxRows(Medium))|
    requires forall p | p in placement :: p.1 >= 64
    ensures final == Witness(words, FNV_OFFSET) && agreement
  {
    hide Witness, Segments, Threaded;
    var segs := Segments(words, MaxRows(Medium));
    final := FNV_OFFSET;
    StartAccumulator();
    for i := 0 to |segs|
      invariant Threaded(segs, FNV_OFFSET) == Threaded(segs[i..], final)
    {
      assert segs[i] in segs && placement[i] in placement;
      RowBoundIsCeiling(Medium, |segs[i]|);
      var step := Submit(placement[i].0, placement[i].1, segs[i], final);
      ThreadedStep(segs[i..], final);
      assert segs[i..][1..] == segs[i + 1..];
      final := step.value;
    }
    ThreadedStep(segs[|segs|..], final);
    ThreadedIsJoined(segs, FNV_OFFSET);
    SegmentsJoin(words, MaxRows(Medium));
    var reference := ReferenceWitness(words, FNV_OFFSET);
    agreement := final == reference;
  }
}
