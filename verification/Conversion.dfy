/** Every valid classic filter has migrations: the groups that the kernel writes, with or without
    blinded constants, whatever the random values are. */
module Conversion {
  import opened Word
  import opened Bpf
  import opened Ebpf
  import opened Migration

  /** The random value that hides the constant of a group; none when it is not hidden. */
  type Rnd = Option<u32>

  lemma {:induction false} XorBack(a: nat, b: nat)
    ensures Bitwise(XorOp, Bitwise(XorOp, a, b), a) == b
  {
    if a > 0 || b > 0 {
      XorBack(a / 2, b / 2);
    }
  }

  /** MOV AX rnd ^ k; XOR AX rnd */
  function Blind(cls: bv16, k: u32, rnd: u32): seq<Insn> {
    [Insn(cls | MOV, REG_AX, 0, 0, Xor32(rnd, k)), Insn(cls | XOR, REG_AX, 0, 0, rnd)]
  }

  /** A constant moved into a register; a zero that is to be hidden comes from XOR. */
  function Moves(reg: nat, k: u32, rnd: Rnd): seq<Insn> {
    if rnd.None? then [Insn(ALU | MOV, reg, 0, 0, k)]
    else if k == 0 then [Insn(ALU64 | XOR | SRC_X, reg, reg, 0, 0)]
    else Blind(ALU, k, rnd.value) + [Insn(ALU | MOV | SRC_X, reg, REG_AX, 0, 0)]
  }

  /** Arithmetic on a constant; shift counts are never hidden. */
  function Computes(op: AluOp, k: u32, rnd: Rnd): seq<Insn> {
    if rnd.None? || op.Lsh? || op.Rsh? then [Insn(ALU | op.Code(), REG_A, 0, 0, k)]
    else Blind(ALU, k, rnd.value) + [Insn(ALU | op.Code() | SRC_X, REG_A, REG_AX, 0, 0)]
  }

  function Divides(rnd: Rnd): seq<Insn> {
    [Insn(ALU | MOV | SRC_X, REG_X, REG_X, 0, 0)]
    + (if rnd.None? then [Insn(JMP | JNE, REG_X, 0, 2, 0)]
       else Blind(ALU64, 0, rnd.value) + [Insn(JMP | JNE | SRC_X, REG_X, REG_AX, 2, 0)])
    + [Insn(ALU | XOR | SRC_X, REG_A, REG_A, 0, 0), Insn(JMP_EXIT, 0, 0, 0, 0), Insn(ALU | DIV | SRC_X, REG_A, REG_X, 0, 0)]
  }

  /** What loads the constant of a comparison. */
  function Prefix(b: Operand, rnd: Rnd): seq<Insn> {
    if b.RegX? then []
    else if b.k >= NEGATIVE then Moves(REG_TMP, b.k, rnd)
    else if rnd.Some? then Blind(ALU64, b.k, rnd.value)
    else []
  }

  /** One comparison at `j`, leading to `target`. */
  function CompareInsn(cmp: CmpOp, negated: bool, b: Operand, target: nat, j: nat, rnd: Rnd): Insn {
    var code := JMP | TestCode(cmp, negated);
    if b.RegX? then Insn(code | SRC_X, REG_A, REG_X, target - j - 1, 0)
    else if b.k >= NEGATIVE then Insn(code | SRC_X, REG_A, REG_TMP, target - j - 1, 0)
    else if rnd.Some? then Insn(code | SRC_X, REG_A, REG_AX, target - j - 1, 0)
    else Insn(code, REG_A, 0, target - j - 1, b.k)
  }

  function CompareInsns(cmp: CmpOp, b: Operand, holds: nat, fails: nat, jt: u8, jf: u8, j: nat, rnd: Rnd): seq<Insn> {
    match ArmsOf(cmp, jt, jf)
    case TrueArm => [CompareInsn(cmp, false, b, holds, j, rnd)]
    case FalseArm => [CompareInsn(cmp, true, b, fails, j, rnd)]
    case BothArms => [CompareInsn(cmp, false, b, holds, j, rnd), Insn(JMP_JA, 0, 0, fails - j - 2, 0)]
  }

  /** The instructions of one group at address `lo`, whose jumps know where all groups start. */
  function Group(i: Instr, g: nat, addr: seq<nat>, lo: nat, rnd: Rnd): seq<Insn>
    requires |addr| > 0 && ValidInstr(i, g, |addr| - 1)
  {
    match i
    case LoadAbs(k) => [Insn(LDX_W, REG_A, REG_CTX, k, 0)]
    case LoadMem(r, k) => [Insn(LDX_W, RegOf(r), REG_FP, StackOff(k), 0)]
    case Store(r, k) => [Insn(STX_W, REG_FP, RegOf(r), StackOff(k), 0)]
    case LoadImm(r, k) => Moves(RegOf(r), k, rnd)
    case LoadLen(r) => Moves(RegOf(r), DATA_LEN, rnd)
    case Tax => [Insn(ALU64 | MOV | SRC_X, REG_X, REG_A, 0, 0)]
    case Txa => [Insn(ALU64 | MOV | SRC_X, REG_A, REG_X, 0, 0)]
    case Neg => [Insn(ALU_NEG, REG_A, 0, 0, 0)]
    case Arith(op, K(k)) => Computes(op, k, rnd)
    case Arith(op, RegX) =>
      if op == Div then Divides(rnd) else [Insn(ALU | op.Code() | SRC_X, REG_A, REG_X, 0, 0)]
    case Goto(k) => [Insn(JMP_JA, 0, 0, addr[g + 1 + k] - lo - 1, 0)]
    case Branch(cmp, b, jt, jf) =>
      Prefix(b, rnd) + CompareInsns(cmp, b, addr[g + 1 + jt], addr[g + 1 + jf], jt, jf, lo + |Prefix(b, rnd)|, rnd)
    case ReturnK(k) => Moves(REG_A, k, rnd) + [Insn(JMP_EXIT, 0, 0, 0, 0)]
    case ReturnA => [Insn(JMP_EXIT, 0, 0, 0, 0)]
  }

  /** How long a group is, wherever it stands. */
  function Size(i: Instr, rnd: Rnd): nat {
    match i
    case LoadImm(r, k) => |Moves(RegOf(r), k, rnd)|
    case LoadLen(r) => |Moves(RegOf(r), DATA_LEN, rnd)|
    case Arith(op, K(k)) => |Computes(op, k, rnd)|
    case Arith(Div, RegX) => |Divides(rnd)|
    case Branch(cmp, b, jt, jf) => |Prefix(b, rnd)| + (if ArmsOf(cmp, jt, jf).BothArms? then 2 else 1)
    case ReturnK(k) => |Moves(REG_A, k, rnd)| + 1
    case _ => 1
  }

  lemma GroupSize(i: Instr, g: nat, addr: seq<nat>, lo: nat, rnd: Rnd)
    requires |addr| > 0 && ValidInstr(i, g, |addr| - 1)
    ensures |Group(i, g, addr, lo, rnd)| == Size(i, rnd) >= 1
  {
    hide AluOp.Code, TestCode, Blind, Prefix, CompareInsn;
  }

  function Start(p: seq<Filter>, rnds: seq<Rnd>, g: nat): nat
    requires g <= |p| == |rnds|
  {
    if g == 0 then PROLOGUE else Start(p, rnds, g - 1) + Size(Decode(p[g - 1]), rnds[g - 1])
  }

  function Starts(p: seq<Filter>, rnds: seq<Rnd>): (addr: seq<nat>)
    requires |p| == |rnds|
    ensures |addr| == |p| + 1
  {
    seq(|p| + 1, g requires 0 <= g < |p| + 1 => Start(p, rnds, g))
  }

  const PROLOGUE_INSNS := [
    Insn(ALU | XOR | SRC_X, REG_A, REG_A, 0, 0),
    Insn(ALU | XOR | SRC_X, REG_X, REG_X, 0, 0),
    Insn(ALU64 | MOV | SRC_X, REG_CTX, REG_ARG1, 0, 0)
  ]

  /** The prologue and the first `g` groups. */
  function Converted(p: seq<Filter>, rnds: seq<Rnd>, g: nat): seq<Insn>
    requires ValidProgram(p) && g <= |p| == |rnds|
  {
    if g == 0 then PROLOGUE_INSNS
    else
      assert ValidAt(p, g - 1);
      Converted(p, rnds, g - 1) + Group(Decode(p[g - 1]), g - 1, Starts(p, rnds), Start(p, rnds, g - 1), rnds[g - 1])
  }

  lemma {:induction false} ConvertedSize(p: seq<Filter>, rnds: seq<Rnd>, g: nat)
    requires ValidProgram(p) && g <= |p| == |rnds|
    ensures |Converted(p, rnds, g)| == Start(p, rnds, g)
  {
    hide Group, Size, Decode, ValidInstr;
    if g > 0 {
      ConvertedSize(p, rnds, g - 1);
      assert ValidAt(p, g - 1);
      GroupSize(Decode(p[g - 1]), g - 1, Starts(p, rnds), Start(p, rnds, g - 1), rnds[g - 1]);
    }
  }

  /** Earlier groups are a prefix of later ones. */
  lemma {:induction false} ConvertedGrows(p: seq<Filter>, rnds: seq<Rnd>, g: nat, h: nat)
    requires ValidProgram(p) && g <= h <= |p| == |rnds|
    ensures Converted(p, rnds, g) <= Converted(p, rnds, h)
  {
    hide Group, Decode, ValidInstr;
    if g < h {
      ConvertedGrows(p, rnds, g, h - 1);
    }
  }

  // ----- every group is a group of a migration -----

  /** The instructions `insns` stand in `e` from `lo` on. */
  predicate In(insns: seq<Insn>, e: seq<Insn>, lo: nat) {
    lo + |insns| <= |e| && e[lo..lo + |insns|] == insns
  }

  lemma InAt(insns: seq<Insn>, e: seq<Insn>, lo: nat)
    requires In(insns, e, lo)
    ensures forall x :: 0 <= x < |insns| ==> e[lo + x] == insns[x]
  {
    forall x | 0 <= x < |insns|
      ensures e[lo + x] == insns[x]
    {
      assert e[lo..lo + |insns|][x] == e[lo + x];
    }
  }

  lemma InSplit(a: seq<Insn>, b: seq<Insn>, e: seq<Insn>, lo: nat)
    requires In(a + b, e, lo)
    ensures In(a, e, lo) && In(b, e, lo + |a|)
  {
    var both := a + b;
    assert e[lo..lo + |a|] == both[..|a|] == a;
    assert e[lo + |a|..lo + |both|] == both[|a|..] == b;
  }

  lemma BlindInPlace(cls: bv16, k: u32, rnd: u32, e: seq<Insn>, lo: nat)
    requires In(Blind(cls, k, rnd), e, lo)
    ensures Blinding(e, lo, cls, k)
  {
    InAt(Blind(cls, k, rnd), e, lo);
    assert e[lo] == Blind(cls, k, rnd)[0] && e[lo + 1] == Blind(cls, k, rnd)[1];
    XorBack(rnd, k);
  }

  lemma MovesInPlace(reg: nat, k: u32, rnd: Rnd, e: seq<Insn>, lo: nat)
    requires In(Moves(reg, k, rnd), e, lo)
    ensures MovesK(e, lo, lo + |Moves(reg, k, rnd)|, reg, k)
  {
    hide Blind, Blinding;
    InAt(Moves(reg, k, rnd), e, lo);
    if rnd.Some? && k != 0 {
      var last := [Insn(ALU | MOV | SRC_X, reg, REG_AX, 0, 0)];
      InSplit(Blind(ALU, k, rnd.value), last, e, lo);
      BlindInPlace(ALU, k, rnd.value, e, lo);
      assert |Blind(ALU, k, rnd.value)| == 2 by {
        BlindSize(ALU, k, rnd.value);
      }
      InAt(last, e, lo + 2);
      assert e[lo + 2 + 0] == last[0];
    } else {
      assert e[lo + 0] == Moves(reg, k, rnd)[0];
    }
  }

  lemma BlindSize(cls: bv16, k: u32, rnd: u32)
    ensures |Blind(cls, k, rnd)| == 2
  {
  }

  lemma ComputesInPlace(op: AluOp, k: u32, rnd: Rnd, e: seq<Insn>, lo: nat)
    requires In(Computes(op, k, rnd), e, lo)
    ensures ComputesK(op, k, e, lo, lo + |Computes(op, k, rnd)|)
  {
    hide Blind, Blinding, AluOp.Code;
    InAt(Computes(op, k, rnd), e, lo);
    if rnd.None? || op.Lsh? || op.Rsh? {
      assert e[lo + 0] == Computes(op, k, rnd)[0];
    } else {
      var last := [Insn(ALU | op.Code() | SRC_X, REG_A, REG_AX, 0, 0)];
      InSplit(Blind(ALU, k, rnd.value), last, e, lo);
      BlindInPlace(ALU, k, rnd.value, e, lo);
      BlindSize(ALU, k, rnd.value);
      InAt(last, e, lo + 2);
      assert e[lo + 2 + 0] == last[0];
    }
  }

  lemma DividesInPlace(rnd: Rnd, e: seq<Insn>, lo: nat)
    requires In(Divides(rnd), e, lo)
    ensures DividesX(e, lo, lo + |Divides(rnd)|)
  {
    hide Blind, Blinding;
    var d := Divides(rnd);
    InAt(d, e, lo);
    var first := [Insn(ALU | MOV | SRC_X, REG_X, REG_X, 0, 0)];
    var last := [Insn(ALU | XOR | SRC_X, REG_A, REG_A, 0, 0), Insn(JMP_EXIT, 0, 0, 0, 0), Insn(ALU | DIV | SRC_X, REG_A, REG_X, 0, 0)];
    assert e[lo + 0] == d[0];
    if rnd.None? {
      assert e[lo + 1] == d[1] && e[lo + 2] == d[2] && e[lo + 3] == d[3] && e[lo + 4] == d[4];
    } else {
      var blind, test := Blind(ALU64, 0, rnd.value), [Insn(JMP | JNE | SRC_X, REG_X, REG_AX, 2, 0)];
      BlindSize(ALU64, 0, rnd.value);
      assert d == first + (blind + (test + last));
      InSplit(first, blind + (test + last), e, lo);
      InSplit(blind, test + last, e, lo + 1);
      BlindInPlace(ALU64, 0, rnd.value, e, lo + 1);
      assert e[lo + 3] == d[3] && e[lo + 4] == d[4] && e[lo + 5] == d[5] && e[lo + 6] == d[6];
    }
  }

  lemma PrefixInPlace(b: Operand, rnd: Rnd, e: seq<Insn>, lo: nat)
    requires In(Prefix(b, rnd), e, lo) && b.K?
    ensures b.k >= NEGATIVE ==> MovesK(e, lo, lo + |Prefix(b, rnd)|, REG_TMP, b.k)
    ensures b.k < NEGATIVE && rnd.Some? ==> |Prefix(b, rnd)| == 2 && Blinding(e, lo, ALU64, b.k)
    ensures b.k < NEGATIVE && rnd.None? ==> |Prefix(b, rnd)| == 0
  {
    hide Moves, MovesK, Blind, Blinding;
    if b.k >= NEGATIVE {
      MovesInPlace(REG_TMP, b.k, rnd, e, lo);
    } else if rnd.Some? {
      BlindSize(ALU64, b.k, rnd.value);
      BlindInPlace(ALU64, b.k, rnd.value, e, lo);
    }
  }

  /** Where a comparison is found behind what loads its constant. */
  lemma CompareFound(b: Operand, rnd: Rnd, e: seq<Insn>, lo: nat)
    requires In(Prefix(b, rnd), e, lo)
    requires var j := lo + |Prefix(b, rnd)|; j < |e| && e[j].dst == REG_A
    ensures JumpAt(e, lo) == lo + |Prefix(b, rnd)|
  {
    hide In, Prefix, Xor32;
    if b.RegX? {
      NoPrefix(b, rnd);
    } else {
      PrefixInPlace(b, rnd, e, lo);
    }
  }

  /** A comparison behind what loads its constant. */
  lemma CompareInPlace(cmp: CmpOp, negated: bool, b: Operand, target: nat, rnd: Rnd, e: seq<Insn>, lo: nat)
    requires In(Prefix(b, rnd), e, lo) && !(negated && cmp == Jset)
    requires var j := lo + |Prefix(b, rnd)|; j < |e| && e[j] == CompareInsn(cmp, negated, b, target, j, rnd)
    ensures var j := lo + |Prefix(b, rnd)|;
            JumpAt(e, lo) == j && Compares(cmp, negated, b, e, lo) && Target(e, j) == target
  {
    hide TestCode, In, Prefix, MovesK, Blinding, JumpAt, CompareInsn, Compares;
    var j := lo + |Prefix(b, rnd)|;
    CompareFields(cmp, negated, b, target, j, rnd);
    CompareFound(b, rnd, e, lo);
    if b.RegX? {
      NoPrefix(b, rnd);
    } else {
      PrefixInPlace(b, rnd, e, lo);
    }
    CompareFrom(cmp, negated, b, rnd, e, lo, j);
  }

  lemma CompareFields(cmp: CmpOp, negated: bool, b: Operand, target: nat, j: nat, rnd: Rnd)
    ensures var insn, code := CompareInsn(cmp, negated, b, target, j, rnd), JMP | TestCode(cmp, negated);
            && insn.dst == REG_A && insn.off == target - j - 1
            && insn.code == (if b.RegX? || b.k >= NEGATIVE || rnd.Some? then code | SRC_X else code)
            && insn.src == (if b.RegX? then REG_X else if b.k >= NEGATIVE then REG_TMP else if rnd.Some? then REG_AX else 0)
            && (b.K? && b.k < NEGATIVE && rnd.None? ==> insn.imm == b.k)
  {
    hide TestCode;
  }

  lemma CompareFrom(cmp: CmpOp, negated: bool, b: Operand, rnd: Rnd, e: seq<Insn>, lo: nat, j: nat)
    requires j == JumpAt(e, lo) < |e| && e[j].dst == REG_A && !(negated && cmp == Jset)
    requires var code := JMP | TestCode(cmp, negated);
             e[j].code == if b.RegX? || b.k >= NEGATIVE || rnd.Some? then code | SRC_X else code
    requires e[j].src == if b.RegX? then REG_X else if b.k >= NEGATIVE then REG_TMP else if rnd.Some? then REG_AX else 0
    requires b.K? && b.k < NEGATIVE && rnd.None? ==> j == lo && e[j].imm == b.k
    requires b.K? && b.k < NEGATIVE && rnd.Some? ==> j == lo + 2 && Blinding(e, lo, ALU64, b.k)
    requires b.K? && b.k >= NEGATIVE ==> MovesK(e, lo, j, REG_TMP, b.k)
    requires b.RegX? ==> j == lo
    ensures Compares(cmp, negated, b, e, lo)
  {
    hide TestCode, JumpAt, Blinding, MovesK;
  }

  lemma NoPrefix(b: Operand, rnd: Rnd)
    requires b.RegX?
    ensures Prefix(b, rnd) == []
  {
  }

  lemma BranchInPlace(i: Instr, g: nat, addr: seq<nat>, e: seq<Insn>, lo: nat, rnd: Rnd)
    requires |addr| > 0 && i.Branch? && ValidInstr(i, g, |addr| - 1)
    requires In(Group(i, g, addr, lo, rnd), e, lo)
    ensures Branches(i, g, addr, e, lo, lo + Size(i, rnd))
  {
    hide Compares, CompareInsn, CompareInsns, In, Prefix, JumpAt, ArmsOf, Branches;
    var prefix := Prefix(i.operand, rnd);
    var j := lo + |prefix|;
    var rest := CompareInsns(i.cmp, i.operand, addr[g + 1 + i.jt], addr[g + 1 + i.jf], i.jt, i.jf, j, rnd);
    InSplit(prefix, rest, e, lo);
    ComparesInPlace(i.cmp, i.operand, addr[g + 1 + i.jt], addr[g + 1 + i.jf], i.jt, i.jf, j, rnd, e);
    if ArmsOf(i.cmp, i.jt, i.jf).FalseArm? {
      CompareInPlace(i.cmp, true, i.operand, addr[g + 1 + i.jf], rnd, e, lo);
    } else {
      CompareInPlace(i.cmp, false, i.operand, addr[g + 1 + i.jt], rnd, e, lo);
    }
    BranchFrom(i, g, addr, e, lo, j);
  }

  lemma BranchFrom(i: Instr, g: nat, addr: seq<nat>, e: seq<Insn>, lo: nat, j: nat)
    requires i.Branch? && g + 1 + i.jt < |addr| && g + 1 + i.jf < |addr| && j == JumpAt(e, lo) < |e|
    requires var arms := ArmsOf(i.cmp, i.jt, i.jf);
             && Compares(i.cmp, arms.FalseArm?, i.operand, e, lo)
             && Target(e, j) == addr[if arms.FalseArm? then g + 1 + i.jf else g + 1 + i.jt]
             && (arms.BothArms? ==> j + 1 < |e| && e[j + 1] == Insn(JMP_JA, 0, 0, addr[g + 1 + i.jf] - j - 2, 0))
    ensures Branches(i, g, addr, e, lo, j + (if ArmsOf(i.cmp, i.jt, i.jf).BothArms? then 2 else 1))
  {
    hide Compares, JumpAt, ArmsOf;
  }

  lemma ComparesInPlace(cmp: CmpOp, b: Operand, holds: nat, fails: nat, jt: u8, jf: u8, j: nat, rnd: Rnd, e: seq<Insn>)
    requires In(CompareInsns(cmp, b, holds, fails, jt, jf, j, rnd), e, j)
    ensures var arms := ArmsOf(cmp, jt, jf);
            && j < |e| && (arms.FalseArm? ==> e[j] == CompareInsn(cmp, true, b, fails, j, rnd))
            && (!arms.FalseArm? ==> e[j] == CompareInsn(cmp, false, b, holds, j, rnd))
            && (arms.BothArms? ==> j + 1 < |e| && e[j + 1] == Insn(JMP_JA, 0, 0, fails - j - 2, 0))
            && (arms.FalseArm? ==> cmp != Jset)
  {
    hide CompareInsn, In;
    var insns := CompareInsns(cmp, b, holds, fails, jt, jf, j, rnd);
    InSize(insns, e, j);
    InAt(insns, e, j);
    assert e[j + 0] == insns[0];
    if ArmsOf(cmp, jt, jf).BothArms? {
      assert e[j + 1] == insns[1];
    }
  }

  lemma InSize(insns: seq<Insn>, e: seq<Insn>, lo: nat)
    requires In(insns, e, lo)
    ensures lo + |insns| <= |e|
  {
  }

  lemma ReturnInPlace(k: u32, g: nat, addr: seq<nat>, e: seq<Insn>, lo: nat, rnd: Rnd)
    requires |addr| > 0 && In(Group(ReturnK(k), g, addr, lo, rnd), e, lo)
    ensures IsGroup(ReturnK(k), g, addr, e, lo, lo + Size(ReturnK(k), rnd))
  {
    hide MovesK, Moves, In;
    var moves, exit := Moves(REG_A, k, rnd), [Insn(JMP_EXIT, 0, 0, 0, 0)];
    InSplit(moves, exit, e, lo);
    MovesInPlace(REG_A, k, rnd, e, lo);
    InSize(exit, e, lo + |moves|);
    InAt(exit, e, lo + |moves|);
    assert e[lo + |moves| + 0] == exit[0];
  }

  /** The groups of one instruction that are always the same. */
  predicate IsFixed(i: Instr) {
    || i.LoadAbs? || i.LoadMem? || i.Store? || i.Tax? || i.Txa? || i.Neg? || i.Goto? || i.ReturnA?
    || (i.Arith? && i.operand.RegX? && i.op != Div)
  }

  lemma FixedInPlace(i: Instr, g: nat, addr: seq<nat>, e: seq<Insn>, lo: nat, rnd: Rnd)
    requires |addr| > 0 && ValidInstr(i, g, |addr| - 1) && IsFixed(i)
    requires In(Group(i, g, addr, lo, rnd), e, lo)
    ensures IsGroup(i, g, addr, e, lo, lo + Size(i, rnd))
  {
    hide AluOp.Code, StackOff, Branches, DividesX, Divides, Computes, Moves;
    InAt(Group(i, g, addr, lo, rnd), e, lo);
    assert e[lo + 0] == Group(i, g, addr, lo, rnd)[0];
  }

  /** A group in place is a group of the migration. */
  lemma GroupInPlace(i: Instr, g: nat, addr: seq<nat>, e: seq<Insn>, lo: nat, rnd: Rnd)
    requires |addr| > 0 && ValidInstr(i, g, |addr| - 1)
    requires In(Group(i, g, addr, lo, rnd), e, lo)
    ensures IsGroup(i, g, addr, e, lo, lo + Size(i, rnd))
  {
    hide In, Branches, DividesX, MovesK, ComputesK, Moves, Computes, Divides;
    GroupSize(i, g, addr, lo, rnd);
    InSize(Group(i, g, addr, lo, rnd), e, lo);
    match i
    case LoadImm(r, k) => MovesInPlace(RegOf(r), k, rnd, e, lo);
    case LoadLen(r) => MovesInPlace(RegOf(r), DATA_LEN, rnd, e, lo);
    case Arith(op, K(k)) => ComputesInPlace(op, k, rnd, e, lo);
    case Arith(Div, RegX) => DividesInPlace(rnd, e, lo);
    case Branch(_, _, _, _) => BranchInPlace(i, g, addr, e, lo, rnd);
    case ReturnK(k) => ReturnInPlace(k, g, addr, e, lo, rnd);
    case _ => FixedInPlace(i, g, addr, e, lo, rnd);
  }

  lemma {:induction false} PrologueInPlace(p: seq<Filter>, rnds: seq<Rnd>)
    requires ValidProgram(p) && |p| == |rnds|
    ensures IsPrologue(Converted(p, rnds, |p|))
  {
    hide Decode, Group, Size, ValidInstr, IsPrologue;
    ConvertedSize(p, rnds, 1);
    ConvertedGrows(p, rnds, 0, |p|);
    ConvertedGrows(p, rnds, 1, |p|);
    assert ValidAt(p, 0);
    GroupSize(Decode(p[0]), 0, Starts(p, rnds), PROLOGUE, rnds[0]);
    StartsPrologue(Converted(p, rnds, |p|));
  }

  lemma StartsPrologue(e: seq<Insn>)
    requires PROLOGUE_INSNS <= e && |e| > PROLOGUE
    ensures IsPrologue(e)
  {
    assert e[0] == PROLOGUE_INSNS[0] && e[1] == PROLOGUE_INSNS[1] && e[2] == PROLOGUE_INSNS[2];
  }

  lemma {:induction false} GroupPlaced(p: seq<Filter>, rnds: seq<Rnd>, g: nat)
    requires ValidProgram(p) && g < |p| == |rnds|
    ensures GroupAt(p, Starts(p, rnds), Converted(p, rnds, |p|), g)
  {
    hide Decode, Group, Size, IsGroup, ValidInstr;
    var addr, e := Starts(p, rnds), Converted(p, rnds, |p|);
    assert ValidAt(p, g);
    var lo, hi := Start(p, rnds, g), Start(p, rnds, g + 1);
    var group := Group(Decode(p[g]), g, addr, lo, rnds[g]);
    ConvertedSize(p, rnds, g);
    ConvertedSize(p, rnds, g + 1);
    ConvertedGrows(p, rnds, g + 1, |p|);
    var c := Converted(p, rnds, g + 1);
    assert c == Converted(p, rnds, g) + group;
    assert c == e[..|c|];
    assert e[lo..hi] == c[lo..] == group;
    GroupInPlace(Decode(p[g]), g, addr, e, lo, rnds[g]);
  }

  /** The converted program is a migration of the classic one, however its constants are hidden. */
  lemma {:induction false} ConvertedIsMigration(p: seq<Filter>, rnds: seq<Rnd>)
    requires ValidProgram(p) && |p| == |rnds|
    ensures IsMigration(p, Starts(p, rnds), Converted(p, rnds, |p|))
  {
    hide Decode, Converted, Size, IsPrologue, GroupAt;
    ConvertedSize(p, rnds, |p|);
    PrologueInPlace(p, rnds);
    forall g | 0 <= g < |p|
      ensures GroupAt(p, Starts(p, rnds), Converted(p, rnds, |p|), g)
    {
      GroupPlaced(p, rnds, g);
    }
  }

  /** The eBPF program made of a valid classic filter, with any constants hidden behind any
      random values, returns what the filter returns. */
  lemma {:induction false} ConvertedComputes(p: seq<Filter>, rnds: seq<Rnd>, es: EState, data: Data)
    requires ValidProgram(p) && |p| == |rnds| && Entry(es)
    ensures RunE(Converted(p, rnds, |p|), 0, es, data) == Result(p, es.stack, data)
  {
    ConvertedIsMigration(p, rnds);
    MigrationComputes(p, Starts(p, rnds), Converted(p, rnds, |p|), es, data);
  }
}
