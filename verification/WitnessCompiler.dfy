/**
 * The lowering of the witness to the register machines of the four nodes, and the chains of segments
 * run on them. A machine has N-bit registers that wrap; N differs from node to node.
 */
module WitnessCompiler {
  import opened Basics
  import opened Folds
  import opened Bits
  import opened Witnesses

  // ---- the machine ----

  datatype Reg = R0 | R1 | R2 | R3

  datatype Insn = MovI(dst: Reg, imm: nat) | Mul(dst: Reg, a: Reg, b: Reg) | XorR(dst: Reg, a: Reg, b: Reg) | Mov(dst: Reg, a: Reg) | Halt

  datatype Regs = Regs(r0: nat, r1: nat, r2: nat, r3: nat) {
    function Get(r: Reg): nat { match r case R0 => r0 case R1 => r1 case R2 => r2 case R3 => r3 }

    function Set(r: Reg, v: nat): Regs {
      match r
      case R0 => this.(r0 := v)
      case R1 => this.(r1 := v)
      case R2 => this.(r2 := v)
      case R3 => this.(r3 := v)
    }
  }

  datatype Machine = Machine(pc: nat, regs: Regs, halted: bool)

  /** One instruction, every result wrapped to `width` bits. */
  function Execute(insn: Insn, m: Machine, width: nat): (m': Machine)
  {
    match insn
    case MovI(d, imm) => Machine(m.pc + 1, m.regs.Set(d, imm % Pow2(width)), false)
    case Mul(d, a, b) => Machine(m.pc + 1, m.regs.Set(d, (m.regs.Get(a) * m.regs.Get(b)) % Pow2(width)), false)
    case XorR(d, a, b) => Machine(m.pc + 1, m.regs.Set(d, Xor(m.regs.Get(a), m.regs.Get(b)) % Pow2(width)), false)
    case Mov(d, a) => Machine(m.pc + 1, m.regs.Set(d, m.regs.Get(a)), false)
    case Halt => m.(halted := true)
  }

  function Run(code: seq<Insn>, m: Machine, width: nat, steps: nat): (m': Machine)
    decreases steps
  {
    if steps == 0 then m
    else
      var b := Run(code, m, width, steps - 1);
      if b.halted || b.pc >= |code| then b else Execute(code[b.pc], b, width)
  }

  // ---- the program every node runs ----

  function RowCode(w: nat): (c: seq<Insn>)
    ensures |c| == 3
  {
    [Mul(R0, R0, R1), MovI(R3, Low64(w)), XorR(R0, R0, R3)]
  }

  function RowsCode(words: seq<nat>): (c: seq<Insn>)
    ensures |c| == 3 * |words|
  {
    if words == [] then [] else RowsCode(words[..|words| - 1]) + RowCode(words[|words| - 1])
  }

  function Code(words: seq<nat>, acc: nat): (c: seq<Insn>)
    ensures |c| == 3 * |words| + 4
  {
    [MovI(R0, Low64(acc)), MovI(R1, FNV_PRIME)] + RowsCode(words) + [Mov(R2, R0), Halt]
  }

  // ---- meaning is preserved at every width ----

  /** After the prologue and i rows the low bits of R0 are the witness of those rows. */
  ghost predicate AtRow(m: Machine, words: seq<nat>, i: nat, acc: nat) {
    i <= |words| && m.pc == 2 + 3 * i && !m.halted && m.regs.r1 == FNV_PRIME && Low64(m.regs.r0) == Witness(words[..i], acc)
  }

  lemma {:induction false} CodeAt(words: seq<nat>, acc: nat, i: nat)
    requires i < |words|
    ensures Code(words, acc)[2 + 3 * i] == Mul(R0, R0, R1)
    ensures Code(words, acc)[3 + 3 * i] == MovI(R3, Low64(words[i]))
    ensures Code(words, acc)[4 + 3 * i] == XorR(R0, R0, R3)
  {
    hide RowsCode, Low64;
    RowsCodeAt(words, i);
    var rows := RowsCode(words);
    assert rows[3 * i + 0] == RowCode(words[i])[0] && rows[3 * i + 1] == RowCode(words[i])[1] && rows[3 * i + 2] == RowCode(words[i])[2];
  }

  lemma {:induction false} RowsCodeAt(words: seq<nat>, i: nat)
    requires i < |words|
    ensures forall k | 0 <= k < 3 :: RowsCode(words)[3 * i + k] == RowCode(words[i])[k]
    decreases |words|
  {
    hide RowCode;
    var n := |words| - 1;
    if i < n { RowsCodeAt(words[..n], i); }
  }

  /** The low 64 bits of the wide product and the wide exclusive or are those of the 64-bit operations. */
  lemma {:induction false} WideMix(r0: nat, w: nat, width: nat)
    requires width >= 64
    ensures Low64(Xor((r0 * FNV_PRIME) % Pow2(width), Low64(w) % Pow2(width)) % Pow2(width)) == Mix(Low64(r0), w)
  {
    Pow2Of64();
    hide Pow2, Xor;
    var p, l := (r0 * FNV_PRIME) % Pow2(width), Low64(w) % Pow2(width);
    ModTower(Xor(p, l), 64, width);
    XorMod(p, l, 64);
    ModTower(r0 * FNV_PRIME, 64, width);
    ModTower(Low64(w), 64, width);
    LowIsSame(Low64(w));
    LowTimesPrime(r0);
  }

  predicate NotHalted(m: Machine) { !m.halted }

  ghost predicate Running(code: seq<Insn>, start: Machine, width: nat, from: nat, to: nat) {
    forall k | from <= k <= to :: NotHalted(Run(code, start, width, k))
  }

  lemma {:induction false} RunningOn(code: seq<Insn>, start: Machine, width: nat, mid: nat, to: nat)
    requires Running(code, start, width, 0, mid) && Running(code, start, width, mid + 1, to)
    ensures Running(code, start, width, 0, to)
  {
    hide Run, NotHalted;
  }

  lemma {:induction false} RowPreserves(words: seq<nat>, acc: nat, width: nat, start: Machine, i: nat)
    requires width >= 64 && i < |words|
    requires AtRow(Run(Code(words, acc), start, width, 2 + 3 * i), words, i, acc)
    ensures AtRow(Run(Code(words, acc), start, width, 5 + 3 * i), words, i + 1, acc)
    ensures Running(Code(words, acc), start, width, 3 + 3 * i, 5 + 3 * i)
  {
    hide Pow2, Xor, Low64, Mix, Code, Witness;
    CodeAt(words, acc, i);
    var m := Run(Code(words, acc), start, width, 2 + 3 * i);
    assert Run(Code(words, acc), start, width, 3 + 3 * i) == Execute(Mul(R0, R0, R1), m, width);
    assert Run(Code(words, acc), start, width, 4 + 3 * i) ==
      Execute(MovI(R3, Low64(words[i])), Execute(Mul(R0, R0, R1), m, width), width);
    WideMix(m.regs.r0, words[i], width);
    assert words[..i + 1] == words[..i] + [words[i]];
    WitnessSnoc(words[..i], words[i], acc);
  }

  lemma {:induction false} RowsPreserve(words: seq<nat>, acc: nat, width: nat, start: Machine, i: nat)
    requires width >= 64 && i <= |words| && start.pc == 0 && !start.halted
    ensures AtRow(Run(Code(words, acc), start, width, 2 + 3 * i), words, i, acc)
    ensures Running(Code(words, acc), start, width, 0, 2 + 3 * i)
    decreases i
  {
    if i == 0 {
      Prologue(words, acc, width, start);
    } else {
      hide Run, Code, AtRow, Running;
      RowsPreserve(words, acc, width, start, i - 1);
      RowPreserves(words, acc, width, start, i - 1);
      assert 2 + 3 * i == 5 + 3 * (i - 1);
      RunningOn(Code(words, acc), start, width, 3 * i - 1, 2 + 3 * i);
    }
  }

  lemma {:induction false} Prologue(words: seq<nat>, acc: nat, width: nat, start: Machine)
    requires width >= 64 && start.pc == 0 && !start.halted
    ensures AtRow(Run(Code(words, acc), start, width, 2), words, 0, acc)
    ensures Running(Code(words, acc), start, width, 0, 2)
  {
    Pow2Of64();
    Pow2Monotone(64, width);
    hide Pow2;
    ModTower(Low64(acc), 64, width);
    LowIsSame(Low64(acc));
    ModSmall(FNV_PRIME, Pow2(width));
    var code := Code(words, acc);
    assert code[0] == MovI(R0, Low64(acc)) && code[1] == MovI(R1, FNV_PRIME);
    assert Run(code, start, width, 0) == start;
    assert Run(code, start, width, 1) == Execute(code[0], start, width);
    assert Run(code, start, width, 2) == Execute(code[1], Execute(code[0], start, width), width);
  }

  /** The run is right: it halts in step 3n + 4 and not before, with the witness in the low 64 bits of R2. */
  ghost predicate RunsRight(words: seq<nat>, acc: nat, width: nat, start: Machine) {
    var code, n := Code(words, acc), 3 * |words| + 4;
    && (forall k | 0 <= k < n :: NotHalted(Run(code, start, width, k)))
    && Run(code, start, width, n).halted
    && Low64(Run(code, start, width, n).regs.r2) == Witness(words, acc)
  }

  /** Meaning is preserved for every list of words, starting accumulator, register contents and width of at least 64. */
  lemma {:induction false} LoweringPreservesMeaning(words: seq<nat>, acc: nat, width: nat, start: Machine)
    requires width >= 64 && start.pc == 0 && !start.halted
    ensures RunsRight(words, acc, width, start)
  {
    hide Pow2, Xor, Low64, Mix, Witness;
    var code, n := Code(words, acc), 3 * |words| + 4;
    RowsPreserve(words, acc, width, start, |words|);
    assert words[..|words|] == words;
    var m := Run(code, start, width, n - 2);
    assert code[n - 2] == Mov(R2, R0) && code[n - 1] == Halt;
    assert Run(code, start, width, n - 1) == Execute(code[n - 2], m, width);
    assert Run(code, start, width, n) == Execute(code[n - 1], Execute(code[n - 2], m, width), width);
  }

  /** A narrower machine loses a word: 2^width itself. */
  lemma {:induction false} NarrowLosesAWord(width: nat, start: Machine)
    requires width < 64 && start.pc == 0 && !start.halted
    ensures !RunsRight([Pow2(width)], 0, width, start)
  {
    hide Pow2, Run, Code, Witness;
    NarrowWitness(width);
    NarrowRun(width, start);
    LowIsSame(0);
  }

  lemma {:induction false} NarrowWitness(width: nat)
    requires width < 64
    ensures Witness([Pow2(width)], 0) == Low64(Pow2(width)) == Pow2(width) > 0
  {
    var w := Pow2(width);
    Pow2Of64();
    Pow2Monotone(width + 1, 64);
    hide Pow2;
    LowIsSame(w);
    LowIsSame(0);
    XorCommutes(0, w);
    XorZero(w);
    WitnessSnoc([], w, 0);
    assert [] + [w] == [w];
  }

  lemma {:induction false} NarrowRun(width: nat, start: Machine)
    requires width < 64 && start.pc == 0 && !start.halted
    ensures Run(Code([Pow2(width)], 0), start, width, 7).regs.r2 == 0
  {
    var w := Pow2(width);
    NarrowWitness(width);
    DivUnique(w, w, 1);
    ModSmall(0, w);
    LowIsSame(0);
    assert Xor(0, 0) == 0;
    hide Pow2, Xor, Low64, Code, Witness, Run;
    var code := Code([w], 0);
    NarrowCode(w);
    RunStarts(code, start, width);
    RunNext(code, start, width, 0);
    RunNext(code, start, width, 1);
    RunNext(code, start, width, 2);
    RunNext(code, start, width, 3);
    var s4 := Run(code, start, width, 4);
    assert s4.regs.r0 == 0 && s4.regs.r3 == 0 && s4.pc == 4 && !s4.halted;
    RunNext(code, start, width, 4);
    RunNext(code, start, width, 5);
    RunNext(code, start, width, 6);
  }

  lemma {:induction false} RunStarts(code: seq<Insn>, start: Machine, width: nat)
    ensures Run(code, start, width, 0) == start
  {
  }

  lemma {:induction false} RunNext(code: seq<Insn>, start: Machine, width: nat, k: nat)
    ensures var m := Run(code, start, width, k);
      !m.halted && m.pc < |code| ==> Run(code, start, width, k + 1) == Execute(code[m.pc], m, width)
  {
  }

  lemma {:induction false} NarrowCode(w: nat)
    ensures var c := Code([w], 0);
      c[0] == MovI(R0, Low64(0)) && c[1] == MovI(R1, FNV_PRIME) && c[2] == Mul(R0, R0, R1) && c[3] == MovI(R3, Low64(w))
      && c[4] == XorR(R0, R0, R3) && c[5] == Mov(R2, R0) && c[6] == Halt
  {
    CodeAt([w], 0, 0);
  }

  /** A register width is wide enough for every program exactly when it is at least 64. */
  lemma {:induction false} WidthIsExact(width: nat)
    ensures (forall words: seq<nat>, acc, start: Machine | start.pc == 0 && !start.halted :: RunsRight(words, acc, width, start))
            <==> width >= 64
  {
    if width >= 64 {
      forall words: seq<nat>, acc, start: Machine | start.pc == 0 && !start.halted ensures RunsRight(words, acc, width, start) {
        LoweringPreservesMeaning(words, acc, width, start);
      }
    } else {
      NarrowLosesAWord(width, Machine(0, Regs(0, 0, 0, 0), false));
    }
  }
}
