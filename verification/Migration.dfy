/** What the kernel makes of a classic filter: three prologue instructions, then one group of
    eBPF instructions per classic instruction, optionally with blinded constants. */
module Migration {
  import opened Word
  import opened Bpf
  import opened Ebpf

  const PROLOGUE := 3
  const NEGATIVE := 0x8000_0000

  /** Reading past the end gives the zeroed padding that callers provide. */
  function At(e: seq<Insn>, i: nat): Insn {
    if i < |e| then e[i] else ZERO_INSN
  }

  /** MOV AX rnd ^ k; XOR AX rnd */
  predicate Blinding(e: seq<Insn>, i: nat, cls: bv16, k: u32) {
    && i + 1 < |e|
    && e[i].code == cls | MOV && e[i].dst == REG_AX && e[i].src == 0
    && e[i + 1].code == cls | XOR && e[i + 1].dst == REG_AX && e[i + 1].src == 0
    && Xor32(e[i].imm, e[i + 1].imm) == k
  }

  /** A constant moved into a register, perhaps blinded, perhaps zeroed by XOR. */
  predicate MovesK(e: seq<Insn>, lo: nat, hi: nat, reg: nat, k: u32) {
    && lo < hi <= |e| && e[hi - 1].dst == reg
    && if hi == lo + 3 then
         Blinding(e, lo, ALU, k) && e[lo + 2].code == ALU | MOV | SRC_X && e[lo + 2].src == REG_AX
       else
         && hi == lo + 1
         && (|| (e[lo].code == ALU | MOV && e[lo].src == 0 && e[lo].imm == k)
             || (e[lo].code == ALU64 | XOR | SRC_X && e[lo].src == reg && e[lo].imm == k == 0))
  }

  /** An arithmetic instruction on a constant. */
  predicate ComputesK(op: AluOp, k: u32, e: seq<Insn>, lo: nat, hi: nat) {
    && lo < hi <= |e| && e[hi - 1].dst == REG_A
    && if hi == lo + 3 then
         && Blinding(e, lo, ALU, k)
         && e[lo + 2].code == ALU | op.Code() | SRC_X && e[lo + 2].src == REG_AX
       else
         hi == lo + 1 && e[lo].code == ALU | op.Code() && e[lo].imm == k && e[lo].src < REGISTERS
  }

  /** MOV X X; JNE X 0 2; XOR A A; EXIT; DIV A X */
  predicate DividesX(e: seq<Insn>, lo: nat, hi: nat) {
    && lo + 5 <= hi <= |e|
    && e[lo].code == ALU | MOV | SRC_X && e[lo].dst == e[lo].src == REG_X
    && e[hi - 4].dst == REG_X && e[hi - 4].off == 2
    && (if hi == lo + 7 then
          Blinding(e, lo + 1, ALU64, 0) && e[lo + 3].code == JMP | JNE | SRC_X && e[lo + 3].src == REG_AX
        else
          hi == lo + 5 && e[lo + 1].code == JMP | JNE && e[lo + 1].imm == 0 && e[lo + 1].src == 0)
    && e[hi - 3].code == ALU | XOR | SRC_X && e[hi - 3].dst == e[hi - 3].src == REG_A
    && e[hi - 2].code == JMP_EXIT && e[hi - 2].dst == e[hi - 2].src == 0
    && e[hi - 1].code == ALU | DIV | SRC_X && e[hi - 1].dst == REG_A && e[hi - 1].src == REG_X
  }

  predicate One(e: seq<Insn>, lo: nat, hi: nat, code: bv16, dst: nat, src: nat) {
    hi == lo + 1 <= |e| && e[lo].code == code && e[lo].dst == dst && e[lo].src == src
  }

  /** Where the conditional jump of the group at `lo` is: after what loads its constant. */
  function JumpAt(e: seq<Insn>, lo: nat): (j: nat)
    ensures lo <= j <= lo + 3
  {
    if At(e, lo).dst == REG_AX then
      if At(e, lo + 2).dst == REG_TMP then lo + 3 else lo + 2
    else if At(e, lo).dst == REG_TMP then lo + 1
    else lo
  }

  /** The code of an eBPF comparison. */
  function TestCode(op: CmpOp, negated: bool): bv16 {
    if !negated then op.Code()
    else
      match op
      case Jeq => JNE
      case Jgt => JLE
      case Jge => JLT
      case Jset => JSET
  }

  /** A comparison of A with `b`: negative constants go through TMP. */
  predicate Compares(op: CmpOp, negated: bool, b: Operand, e: seq<Insn>, lo: nat) {
    var j := JumpAt(e, lo);
    && j < |e| && e[j].dst == REG_A && !(negated && op == Jset)
    && var code := JMP | TestCode(op, negated);
    if b.RegX? then
      j == lo && e[j].code == code | SRC_X && e[j].src == REG_X
    else if b.k >= NEGATIVE then
      MovesK(e, lo, j, REG_TMP, b.k) && e[j].code == code | SRC_X && e[j].src == REG_TMP
    else if j == lo then
      e[j].code == code && e[j].imm == b.k && e[j].src == 0
    else
      && j == lo + 2 && Blinding(e, lo, ALU64, b.k)
      && e[j].code == code | SRC_X && e[j].src == REG_AX
  }

  function Target(e: seq<Insn>, i: nat): int {
    i + 1 + At(e, i).off
  }

  /** A conditional jump that falls through on one arm needs one eBPF jump, others need two. */
  datatype Arms = TrueArm | FalseArm | BothArms

  function ArmsOf(cmp: CmpOp, jt: u8, jf: u8): Arms {
    if jf == 0 then TrueArm
    else if jt == 0 && cmp != Jset then FalseArm
    else BothArms
  }

  predicate Branches(i: Instr, g: nat, addr: seq<nat>, e: seq<Insn>, lo: nat, hi: nat)
    requires i.Branch? && g + 1 + i.jt < |addr| && g + 1 + i.jf < |addr|
  {
    var j := JumpAt(e, lo);
    && j < hi <= |e|
    && match ArmsOf(i.cmp, i.jt, i.jf)
       case TrueArm =>
         hi == j + 1 && Compares(i.cmp, false, i.operand, e, lo) && Target(e, j) == addr[g + 1 + i.jt]
       case FalseArm =>
         hi == j + 1 && Compares(i.cmp, true, i.operand, e, lo) && Target(e, j) == addr[g + 1 + i.jf]
       case BothArms =>
         && hi == j + 2 && Compares(i.cmp, false, i.operand, e, lo) && Target(e, j) == addr[g + 1 + i.jt]
         && e[j + 1].code == JMP_JA && e[j + 1].dst == e[j + 1].src == 0
         && Target(e, j + 1) == addr[g + 1 + i.jf]
  }

  function RegOf(r: Reg): nat {
    if r == A then REG_A else REG_X
  }

  /** The eBPF group `e[lo..hi]` of the classic instruction `i` at index `g`. */
  predicate IsGroup(i: Instr, g: nat, addr: seq<nat>, e: seq<Insn>, lo: nat, hi: nat)
    requires |addr| > 0 && ValidInstr(i, g, |addr| - 1)
  {
    && lo < hi <= |e|
    && match i
       case LoadAbs(k) => One(e, lo, hi, LDX_W, REG_A, REG_CTX) && e[lo].off == k
       case LoadMem(r, k) => One(e, lo, hi, LDX_W, RegOf(r), REG_FP) && e[lo].off == StackOff(k)
       case Store(r, k) => One(e, lo, hi, STX_W, REG_FP, RegOf(r)) && e[lo].off == StackOff(k)
       case LoadImm(r, k) => MovesK(e, lo, hi, RegOf(r), k)
       case LoadLen(r) => MovesK(e, lo, hi, RegOf(r), DATA_LEN)
       case Tax => One(e, lo, hi, ALU64 | MOV | SRC_X, REG_X, REG_A)
       case Txa => One(e, lo, hi, ALU64 | MOV | SRC_X, REG_A, REG_X)
       case Neg => hi == lo + 1 && e[lo].code == ALU_NEG && e[lo].dst == REG_A && e[lo].src < REGISTERS
       case Arith(op, K(k)) => ComputesK(op, k, e, lo, hi)
       case Arith(op, RegX) =>
         if op == Div then DividesX(e, lo, hi)
         else One(e, lo, hi, ALU | op.Code() | SRC_X, REG_A, REG_X)
       case Goto(k) => One(e, lo, hi, JMP_JA, 0, 0) && Target(e, lo) == addr[g + 1 + k]
       case Branch(_, _, _, _) => Branches(i, g, addr, e, lo, hi)
       case ReturnK(k) => MovesK(e, lo, hi - 1, REG_A, k) && One(e, hi - 1, hi, JMP_EXIT, 0, 0)
       case ReturnA => One(e, lo, hi, JMP_EXIT, 0, 0)
       case Illegal => false
  }

  predicate IsPrologue(e: seq<Insn>) {
    && |e| > PROLOGUE
    && e[0].code == ALU | XOR | SRC_X && e[0].dst == e[0].src == REG_A
    && e[1].code == ALU | XOR | SRC_X && e[1].dst == e[1].src == REG_X
    && e[2].code == ALU64 | MOV | SRC_X && e[2].dst == REG_CTX && e[2].src == REG_ARG1
  }

  predicate GroupAt(p: seq<Filter>, addr: seq<nat>, e: seq<Insn>, g: nat)
    requires |addr| == |p| + 1
  {
    g < |p| && ValidAt(p, g) && IsGroup(Decode(p[g]), g, addr, e, addr[g], addr[g + 1])
  }

  /** `e` is a migration of the valid classic program `p`; `addr[g]` is where group `g` starts. */
  predicate IsMigration(p: seq<Filter>, addr: seq<nat>, e: seq<Insn>) {
    && ValidProgram(p)
    && |addr| == |p| + 1 && addr[0] == PROLOGUE && addr[|p|] == |e|
    && IsPrologue(e)
    && (forall g :: 0 <= g < |p| ==> GroupAt(p, addr, e, g))
  }

  predicate Increasing(addr: seq<nat>) {
    forall g, h :: 0 <= g < h < |addr| ==> addr[g] < addr[h]
  }

  lemma {:induction false} AddrIncreases(p: seq<Filter>, addr: seq<nat>, e: seq<Insn>, g: nat, h: nat)
    requires IsMigration(p, addr, e) && g < h <= |p|
    ensures addr[g] < addr[h]
  {
    assert GroupAt(p, addr, e, h - 1);
    if g < h - 1 {
      AddrIncreases(p, addr, e, g, h - 1);
    }
  }

  lemma MigrationIncreases(p: seq<Filter>, addr: seq<nat>, e: seq<Insn>)
    requires IsMigration(p, addr, e)
    ensures Increasing(addr)
  {
    forall g, h | 0 <= g < h < |addr| ensures addr[g] < addr[h] {
      AddrIncreases(p, addr, e, g, h);
    }
  }

  // ----- a migration computes what the classic program computes -----

  predicate Related(s: State, es: EState) {
    && es.r[REG_A] == Scalar(s.a) && es.r[REG_X] == Scalar(s.x)
    && es.r[REG_CTX] == Ctx && es.r[REG_FP] == Fp
    && es.stack == s.mem
  }

  /** `es'` is `es` with `v` in `reg` and anything in AX. */
  predicate Loaded(es: EState, es': EState, reg: nat, v: u64)
    requires reg < REGISTERS
  {
    && es'.stack == es.stack && es'.r[reg] == Scalar(v)
    && forall q :: 0 <= q < REGISTERS && q != reg && q != REG_AX ==> es'.r[q] == es.r[q]
  }

  lemma NarrowLow(a: u32)
    ensures Low(a) == a && Low(SignExtend(a)) == a
  {
    Halves(SignBits(a), a);
  }

  lemma TestCodes(op: CmpOp, negated: bool)
    requires !(negated && op == Jset)
    ensures var c := JMP | TestCode(op, negated);
            && OpOf(c) == OpOf(c | SRC_X) == Test(op, negated) && c & SRC_X == 0 && (c | SRC_X) & SRC_X == SRC_X
            && c != LDX_W && c | SRC_X != LDX_W && c != STX_W && c | SRC_X != STX_W
  {
    match op
    case _ =>
  }

  lemma AluCodes(op: AluOp)
    ensures var c := ALU | op.Code();
            && OpOf(c) == OpOf(c | SRC_X) == EArith(op) && c & SRC_X == 0 && (c | SRC_X) & SRC_X == SRC_X
            && c != LDX_W && c | SRC_X != LDX_W && c != STX_W && c | SRC_X != STX_W
  {
    match op
    case _ =>
  }

  lemma StackRoundTrip(k: nat)
    requires k < MEMWORDS
    ensures IsStackOff(StackOff(k)) && StackIndex(StackOff(k)) == k
  {
  }

  /** One step of a run. */
  lemma {:induction false} StepE(e: seq<Insn>, pc: nat, s: EState, data: Data)
    requires pc < |e|
    ensures var r := ExecE(e[pc], pc, s, data);
            (r.EDone? ==> RunE(e, pc, s, data) == Some(r.ret))
            && (r.ENext? ==> RunE(e, pc, s, data) == RunE(e, r.pc, r.s, data))
  {
  }

  lemma RunBlinding(e: seq<Insn>, i: nat, cls: bv16, k: u32, es: EState, data: Data)
    returns (es': EState)
    requires Blinding(e, i, cls, k) && (cls == ALU || cls == ALU64)
    ensures Loaded(es, es', REG_AX, if cls == ALU then k else SignExtend(k))
    ensures RunE(e, i, es, data) == RunE(e, i + 2, es', data)
  {
    hide RunE;
    NarrowLow(e[i].imm);
    NarrowLow(e[i + 1].imm);
    SignExtendXor(e[i].imm, e[i + 1].imm);
    StepE(e, i, es, data);
    var s1 := ExecE(e[i], i, es, data).s;
    es' := ExecE(e[i + 1], i + 1, s1, data).s;
    StepE(e, i + 1, s1, data);
  }

  lemma RunMovesK(e: seq<Insn>, lo: nat, hi: nat, reg: nat, k: u32, es: EState, data: Data)
    returns (es': EState)
    requires MovesK(e, lo, hi, reg, k) && reg < REGISTERS && reg != REG_AX
    requires es.r[reg].Scalar? || k != 0
    ensures Loaded(es, es', reg, k)
    ensures RunE(e, lo, es, data) == RunE(e, hi, es', data)
  {
    hide RunE;
    NarrowLow(k);
    if hi == lo + 3 {
      var s := RunBlinding(e, lo, ALU, k, es, data);
      es' := Set(s, reg, Scalar(k));
      assert ExecE(e[lo + 2], lo + 2, s, data) == ENext(hi, es');
      StepE(e, lo + 2, s, data);
    } else {
      es' := Set(es, reg, Scalar(k));
      if es.r[reg].Scalar? {
        XorSelf64(es.r[reg].v);
      }
      assert ExecE(e[lo], lo, es, data) == ENext(hi, es');
      StepE(e, lo, es, data);
    }
  }

  /** What one classic step and the eBPF group for it have in common: they return the same
      value, or go on from related states at corresponding places. */
  predicate SameStep(r: Step, addr: seq<nat>, e: seq<Insn>, lo: nat, es: EState, es': EState, data: Data) {
    match r
    case Done(v) => RunE(e, lo, es, data) == Some(v)
    case Next(g, s) => g < |addr| && Related(s, es') && RunE(e, lo, es, data) == RunE(e, addr[g], es', data)
    case Stuck => false
  }

  lemma MigratedLoad(i: Instr, g: nat, addr: seq<nat>, e: seq<Insn>, s: State, es: EState, data: Data)
    returns (es': EState)
    requires g + 1 < |addr| && ValidInstr(i, g, |addr| - 1) && IsGroup(i, g, addr, e, addr[g], addr[g + 1])
    requires Related(s, es)
    requires i.LoadImm? || i.LoadLen?
    ensures SameStep(Exec(i, g, s, data), addr, e, addr[g], es, es', data)
  {
    hide RunE;
    es' := RunMovesK(e, addr[g], addr[g + 1], RegOf(i.reg), if i.LoadLen? then DATA_LEN else i.k, es, data);
  }

  lemma MigratedReturn(i: Instr, g: nat, addr: seq<nat>, e: seq<Insn>, s: State, es: EState, data: Data)
    returns (es': EState)
    requires g + 1 < |addr| && ValidInstr(i, g, |addr| - 1) && IsGroup(i, g, addr, e, addr[g], addr[g + 1])
    requires Related(s, es)
    requires i.ReturnK? || i.ReturnA?
    ensures SameStep(Exec(i, g, s, data), addr, e, addr[g], es, es', data)
  {
    hide RunE;
    es' := es;
    NarrowLow(s.a);
    if i.ReturnK? {
      NarrowLow(i.k);
      es' := RunMovesK(e, addr[g], addr[g + 1] - 1, REG_A, i.k, es, data);
    }
    StepE(e, addr[g + 1] - 1, es', data);
  }

  lemma MigratedArith(i: Instr, g: nat, addr: seq<nat>, e: seq<Insn>, s: State, es: EState, data: Data)
    returns (es': EState)
    requires g + 1 < |addr| && ValidInstr(i, g, |addr| - 1) && IsGroup(i, g, addr, e, addr[g], addr[g + 1])
    requires Related(s, es)
    requires i.Arith? && !(i.op == Div && i.operand.RegX?)
    ensures SameStep(Exec(i, g, s, data), addr, e, addr[g], es, es', data)
  {
    hide RunE, Compute, ExecE, OpOf, ComputesK;
    var lo, hi := addr[g], addr[g + 1];
    if i.operand.K? {
      es' := RunComputesK(i.op, i.operand.k, e, lo, hi, s, es, data);
    } else {
      es' := Set(es, REG_A, Scalar(Compute(i.op, s.a, s.x)));
      AluCodes(i.op);
      ArithStep(e[lo], lo, i.op, s.a, s.x, es, data);
      StepE(e, lo, es, data);
    }
  }

  lemma RunComputesK(op: AluOp, k: u32, e: seq<Insn>, lo: nat, hi: nat, s: State, es: EState, data: Data)
    returns (es': EState)
    requires ComputesK(op, k, e, lo, hi) && Related(s, es)
    ensures Related(s.(a := Compute(op, s.a, k)), es')
    ensures RunE(e, lo, es, data) == RunE(e, hi, es', data)
  {
    hide RunE, Compute, ExecE, OpOf;
    AluCodes(op);
    var s0 := es;
    if hi == lo + 3 {
      s0 := RunBlinding(e, lo, ALU, k, es, data);
    }
    es' := Set(s0, REG_A, Scalar(Compute(op, s.a, k)));
    ArithStep(e[hi - 1], hi - 1, op, s.a, k, s0, data);
    StepE(e, hi - 1, s0, data);
  }

  /** One instruction of 32-bit arithmetic on A. */
  lemma ArithStep(i: Insn, pc: nat, op: AluOp, a: u32, b: u32, es: EState, data: Data)
    requires OpOf(i.code) == EArith(op) && i.code != LDX_W && i.code != STX_W
    requires i.dst == REG_A && i.src < REGISTERS && es.r[REG_A] == Scalar(a)
    requires (i.code & SRC_X == 0 && i.imm == b) || (i.code & SRC_X == SRC_X && es.r[i.src] == Scalar(b))
    ensures ExecE(i, pc, es, data) == ENext(pc + 1, Set(es, REG_A, Scalar(Compute(op, a, b))))
  {
    hide OpOf, Compute;
    NarrowLow(a);
    NarrowLow(b);
  }

  /** The guard before a division by X returns 0 when X is 0. */
  lemma MigratedDivide(i: Instr, g: nat, addr: seq<nat>, e: seq<Insn>, s: State, es: EState, data: Data)
    returns (es': EState)
    requires g + 1 < |addr| && ValidInstr(i, g, |addr| - 1) && IsGroup(i, g, addr, e, addr[g], addr[g + 1])
    requires Related(s, es)
    requires i == Arith(Div, RegX)
    ensures SameStep(Exec(i, g, s, data), addr, e, addr[g], es, es', data)
  {
    hide RunE;
    var lo, hi := addr[g], addr[g + 1];
    NarrowLow(s.x);
    StepE(e, lo, es, data);
    assert ExecE(e[lo], lo, es, data) == ENext(lo + 1, es);
    var s1 := es;
    if hi == lo + 7 {
      s1 := RunBlinding(e, lo + 1, ALU64, 0, es, data);
    }
    es' := RunGuard(e, hi - 4, s, s1, data);
  }

  lemma RunGuard(e: seq<Insn>, j: nat, s: State, es: EState, data: Data) returns (es': EState)
    requires j + 4 <= |e| && Related(s, es)
    requires e[j].dst == REG_X && e[j].off == 2
    requires || (e[j].code == JMP | JNE && e[j].imm == 0 && e[j].src == 0)
             || (e[j].code == JMP | JNE | SRC_X && e[j].src == REG_AX && es.r[REG_AX] == Scalar(0))
    requires e[j + 1].code == ALU | XOR | SRC_X && e[j + 1].dst == e[j + 1].src == REG_A
    requires e[j + 2].code == JMP_EXIT && e[j + 2].dst == e[j + 2].src == 0
    requires e[j + 3].code == ALU | DIV | SRC_X && e[j + 3].dst == REG_A && e[j + 3].src == REG_X
    ensures if s.x == 0 then RunE(e, j, es, data) == Some(0)
            else RunE(e, j, es, data) == RunE(e, j + 4, es', data)
                 && Related(s.(a := Compute(Div, s.a, s.x)), es')
  {
    hide RunE, Compute, ExecE, Related;
    GuardTest(e, j, s, es, data);
    StepE(e, j, es, data);
    if s.x == 0 {
      es' := es;
      GuardReturns(e, j + 1, s, es, data);
    } else {
      es' := Set(es, REG_A, Scalar(Compute(Div, s.a, s.x)));
      GuardDivides(e, j + 3, s, es, data);
    }
  }

  lemma GuardTest(e: seq<Insn>, j: nat, s: State, es: EState, data: Data)
    requires j < |e| && Related(s, es)
    requires e[j].dst == REG_X && e[j].off == 2
    requires || (e[j].code == JMP | JNE && e[j].imm == 0 && e[j].src == 0)
             || (e[j].code == JMP | JNE | SRC_X && e[j].src == REG_AX && es.r[REG_AX] == Scalar(0))
    ensures ExecE(e[j], j, es, data) == ENext(if s.x == 0 then j + 1 else j + 3, es)
  {
    hide Compute;
    NarrowLow(0);
  }

  lemma {:induction false} GuardReturns(e: seq<Insn>, j: nat, s: State, es: EState, data: Data)
    requires j + 2 <= |e| && Related(s, es)
    requires e[j].code == ALU | XOR | SRC_X && e[j].dst == e[j].src == REG_A
    requires e[j + 1].code == JMP_EXIT && e[j + 1].dst == e[j + 1].src == 0
    ensures RunE(e, j, es, data) == Some(0)
  {
    XorSelf(s.a);
    assert Compute(Xor, s.a, s.a) == 0;
    hide RunE, Compute;
    NarrowLow(s.a);
    var es' := Set(es, REG_A, Scalar(0));
    StepE(e, j, es, data);
    StepE(e, j + 1, es', data);
  }

  lemma GuardDivides(e: seq<Insn>, j: nat, s: State, es: EState, data: Data)
    requires j < |e| && Related(s, es) && s.x != 0
    requires e[j].code == ALU | DIV | SRC_X && e[j].dst == REG_A && e[j].src == REG_X
    ensures var es' := Set(es, REG_A, Scalar(Compute(Div, s.a, s.x)));
            RunE(e, j, es, data) == RunE(e, j + 1, es', data) && Related(s.(a := Compute(Div, s.a, s.x)), es')
  {
    hide RunE, Compute;
    NarrowLow(s.a);
    NarrowLow(s.x);
    StepE(e, j, es, data);
  }

  /** A comparison of A with the number `b` that it finds in a register or as immediate. */
  lemma RunTest(e: seq<Insn>, j: nat, op: CmpOp, negated: bool, b: u32, s: State, es: EState, data: Data)
    requires j < |e| && Related(s, es) && !(negated && op == Jset)
    requires e[j].dst == REG_A && e[j].src < REGISTERS && e[j].off >= 0
    requires || (e[j].code == JMP | TestCode(op, negated) && e[j].imm == b < NEGATIVE)
             || (e[j].code == JMP | TestCode(op, negated) | SRC_X && es.r[e[j].src] == Scalar(b))
    ensures RunE(e, j, es, data)
         == RunE(e, if Compare(op, s.a, b) != negated then Target(e, j) else j + 1, es, data)
  {
    hide RunE, OpOf, TestCode, ExecE, Compare;
    TestCodes(op, negated);
    TestStep(e[j], j, op, negated, b, s.a, es, data);
    StepE(e, j, es, data);
  }

  /** One comparison instruction. */
  lemma TestStep(i: Insn, j: nat, op: CmpOp, negated: bool, b: u32, a: u32, es: EState, data: Data)
    requires OpOf(i.code) == Test(op, negated) && i.code != LDX_W && i.code != STX_W
    requires i.dst == REG_A && i.src < REGISTERS && i.off >= 0 && es.r[REG_A] == Scalar(a)
    requires (i.code & SRC_X == 0 && i.imm == b < NEGATIVE) || (i.code & SRC_X == SRC_X && es.r[i.src] == Scalar(b))
    ensures ExecE(i, j, es, data) == ENext(if Compare(op, a, b) != negated then j + 1 + i.off else j + 1, es)
  {
    AndNarrow(a, b);
    assert b < NEGATIVE ==> SignExtend(b) == b;
    hide OpOf, And64, And32;
  }

  function AfterCompare(op: CmpOp, negated: bool, b: Operand, e: seq<Insn>, lo: nat, s: State): int {
    var j := JumpAt(e, lo);
    if Compare(op, s.a, b.In(s)) != negated then Target(e, j) else j + 1
  }

  lemma RunCompares(op: CmpOp, negated: bool, b: Operand, e: seq<Insn>, lo: nat, s: State, es: EState, data: Data)
    returns (es': EState)
    requires Compares(op, negated, b, e, lo) && e[JumpAt(e, lo)].off >= 0 && Related(s, es)
    ensures Related(s, es')
    ensures RunE(e, lo, es, data) == RunE(e, AfterCompare(op, negated, b, e, lo, s), es', data)
  {
    hide RunE, OpOf, TestCode, Compare;
    es' := es;
    if b.K? {
      if b.k >= NEGATIVE {
        es' := RunMovesK(e, lo, JumpAt(e, lo), REG_TMP, b.k, es, data);
      } else if JumpAt(e, lo) != lo {
        assert SignExtend(b.k) == b.k;
        es' := RunBlinding(e, lo, ALU64, b.k, es, data);
      }
    }
    RunTest(e, JumpAt(e, lo), op, negated, b.In(s), s, es', data);
  }

  lemma MigratedBranch(i: Instr, g: nat, addr: seq<nat>, e: seq<Insn>, s: State, es: EState, data: Data)
    returns (es': EState)
    requires g + 1 < |addr| && ValidInstr(i, g, |addr| - 1) && IsGroup(i, g, addr, e, addr[g], addr[g + 1])
    requires Increasing(addr)
    requires Related(s, es)
    requires i.Branch?
    ensures SameStep(Exec(i, g, s, data), addr, e, addr[g], es, es', data)
  {
    hide RunE, Compares, Compare;
    var lo, j := addr[g], JumpAt(e, addr[g]);
    var arms := ArmsOf(i.cmp, i.jt, i.jf);
    es' := RunCompares(i.cmp, arms.FalseArm?, i.operand, e, lo, s, es, data);
    if arms.BothArms? && !Compare(i.cmp, s.a, i.operand.In(s)) {
      RunJump(e, j + 1, es', data);
    }
  }

  lemma {:induction false} RunJump(e: seq<Insn>, j: nat, es: EState, data: Data)
    requires j < |e| && e[j].code == JMP_JA && e[j].dst == e[j].src == 0 && e[j].off >= 0
    ensures RunE(e, j, es, data) == RunE(e, Target(e, j), es, data)
  {
    hide RunE;
    StepE(e, j, es, data);
  }

  lemma MigratedStep(i: Instr, g: nat, addr: seq<nat>, e: seq<Insn>, s: State, es: EState, data: Data)
    returns (es': EState)
    requires g + 1 < |addr| && ValidInstr(i, g, |addr| - 1) && IsGroup(i, g, addr, e, addr[g], addr[g + 1])
    requires Increasing(addr)
    requires Related(s, es)
    ensures SameStep(Exec(i, g, s, data), addr, e, addr[g], es, es', data)
  {
    hide RunE;
    if i.LoadImm? || i.LoadLen? {
      es' := MigratedLoad(i, g, addr, e, s, es, data);
    } else if i.ReturnK? || i.ReturnA? {
      es' := MigratedReturn(i, g, addr, e, s, es, data);
    } else if i == Arith(Div, RegX) {
      es' := MigratedDivide(i, g, addr, e, s, es, data);
    } else if i.Arith? {
      es' := MigratedArith(i, g, addr, e, s, es, data);
    } else if i.Branch? {
      es' := MigratedBranch(i, g, addr, e, s, es, data);
    } else if i.Goto? {
      es' := es;
      RunJump(e, addr[g], es, data);
    } else {
      es' := MigratedMove(i, g, addr, e, s, es, data);
    }
  }

  lemma MigratedMove(i: Instr, g: nat, addr: seq<nat>, e: seq<Insn>, s: State, es: EState, data: Data)
    returns (es': EState)
    requires g + 1 < |addr| && ValidInstr(i, g, |addr| - 1) && IsGroup(i, g, addr, e, addr[g], addr[g + 1])
    requires Related(s, es)
    requires i.LoadAbs? || i.LoadMem? || i.Store? || i.Tax? || i.Txa? || i.Neg?
    ensures SameStep(Exec(i, g, s, data), addr, e, addr[g], es, es', data)
  {
    hide RunE;
    NarrowLow(s.a);
    NarrowLow(s.x);
    if i.LoadMem? || i.Store? {
      StackRoundTrip(i.k);
    }
    StepE(e, addr[g], es, data);
    es' := ExecE(e[addr[g]], addr[g], es, data).s;
  }

  lemma {:induction false} MigratedRun(
      p: seq<Filter>, addr: seq<nat>, e: seq<Insn>, g: nat, s: State, es: EState, data: Data)
    requires IsMigration(p, addr, e) && g <= |p| && Related(s, es)
    ensures RunE(e, addr[g], es, data) == Run(p, g, s, data)
    decreases |p| - g
  {
    if g < |p| {
      MigrationIncreases(p, addr, e);
      assert GroupAt(p, addr, e, g);
      hide RunE, Decode, IsGroup;
      var es' := MigratedStep(Decode(p[g]), g, addr, e, s, es, data);
      match Exec(Decode(p[g]), g, s, data)
      case Next(g', s') => MigratedRun(p, addr, e, g', s', es', data);
      case Done(_) =>
    }
  }

  /** The kernel's migration, blinded or not, returns what the classic program returns. */
  lemma {:induction false} MigrationComputes(p: seq<Filter>, addr: seq<nat>, e: seq<Insn>, es: EState, data: Data)
    requires IsMigration(p, addr, e) && Entry(es)
    ensures RunE(e, 0, es, data) == Result(p, es.stack, data)
  {
    hide RunE;
    XorSelf(Low(es.r[REG_A].v));
    XorSelf(Low(es.r[REG_X].v));
    var s1 := Set(es, REG_A, Scalar(0));
    var s2 := Set(s1, REG_X, Scalar(0));
    var s3 := Set(s2, REG_CTX, Ctx);
    StepE(e, 0, es, data);
    StepE(e, 1, s1, data);
    StepE(e, 2, s2, data);
    MigratedRun(p, addr, e, 0, State(0, 0, es.stack), s3, data);
  }
}
