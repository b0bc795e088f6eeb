/** The first pass on a migrated program: every group is folded into one classic
    instruction, and a second group only when nothing jumps to it. */
module Folding {
  import opened Word
  import opened Bpf
  import opened Ebpf
  import opened Migration
  import opened Recovery

  /** The groups that the eBPF jumps of the group of `i` at index `g` lead to. */
  function MarksOf(i: Instr, g: nat): set<nat> {
    match i
    case Goto(k) => {g + 1 + k}
    case Branch(op, _, jt, jf) =>
      (match ArmsOf(op, jt, jf)
       case TrueArm => {g + 1 + jt}
       case FalseArm => {g + 1 + jf}
       case BothArms => {g + 1 + jt, g + 1 + jf})
    case _ => {}
  }

  /** The groups that jumps before group `g` lead to. */
  function Targets(p: seq<Filter>, g: nat): set<nat>
    requires g <= |p|
  {
    if g == 0 then {} else Targets(p, g - 1) + MarksOf(Decode(p[g - 1]), g - 1)
  }

  predicate LoadsA(i: Instr) {
    (i.LoadImm? || i.LoadLen?) && i.reg == A
  }

  /** The group at `t` is folded into the one before it. */
  predicate Merged(p: seq<Filter>, t: nat) {
    && 0 < t < |p| && t !in Targets(p, t)
    && var i, next := Decode(p[t - 1]), Decode(p[t]);
    (LoadsA(i) && next.ReturnA?) || (i.Branch? && i.jf == 0 && next.Goto?)
  }

  function LoadedK(i: Instr): u32
    requires i.LoadImm? || i.LoadLen?
  {
    if i.LoadLen? then DATA_LEN else i.k
  }

  /** The instruction the first pass puts in the slot of group `g`; arms that are not yet
      relocated are only marked as present by a one. */
  function FirstFold(p: seq<Filter>, g: nat): Instr
    requires g < |p|
  {
    var i := Decode(p[g]);
    if LoadsA(i) && Merged(p, g + 1) then ReturnK(LoadedK(i))
    else if i.LoadImm? || i.LoadLen? then
      if LoadedK(i) == DATA_LEN then LoadLen(i.reg) else i
    else if i.Goto? then Goto(1)
    else if i.Branch? then
      match ArmsOf(i.cmp, i.jt, i.jf)
      case TrueArm => i.(jt := 1, jf := if Merged(p, g + 1) then 1 else 0)
      case FalseArm => i.(jt := 0, jf := 1)
      case BothArms => i.(jt := 1, jf := 1)
    else i
  }

  /** The word in a slot stands for `i`; the second pass looks at unused arms, too. */
  predicate Holds(f: Filter, i: Instr) {
    Decode(f) == i && (!i.Branch? ==> f.jt == f.jf == 0)
  }

  /** Where the jump of group `g` lies behind the start of the group. */
  function FoldOf(i: Instr, e: seq<Insn>, lo: nat): nat {
    if i.Branch? then JumpAt(e, lo) - lo else 0
  }

  /** The group after `g` that is not folded into it. */
  function NextHead(p: seq<Filter>, g: nat): nat {
    if Merged(p, g + 1) then g + 2 else g + 1
  }

  /** A group of `t` starts at `x`. */
  predicate Lands(addr: seq<nat>, t: set<nat>, x: nat) {
    exists g :: g in t && g < |addr| && addr[g] == x
  }

  /** From `lo` on, exactly the starts of the groups in `t` are flagged. */
  predicate FlagsFor(addr: seq<nat>, t: set<nat>, lo: nat, flags: seq<Flag>) {
    forall x :: lo <= x < |flags| ==> flags[x] == Flag(0, Lands(addr, t, x))
  }

  /** `e'` is the migration `e`, perhaps with zeroed padding, as far as folding has not edited it. */
  predicate Unfolded(e: seq<Insn>, e': seq<Insn>, i: nat) {
    && |e| <= |e'|
    && (forall x :: i <= x < |e'| ==> e'[x] == At(e, x))
    && (forall x :: 0 <= x < |e'| ==> e'[x].off == At(e, x).off)
  }

  // ----- folding one group -----

  /** Folding the head group `g` uses it up, and the group merged with it. */
  predicate RightLayout(p: seq<Filter>, addr: seq<nat>, e: seq<Insn>, e': seq<Insn>, flags: seq<Flag>, g: nat, r: Folded)
    requires g < |p| && |addr| == |p| + 1
  {
    var h := NextHead(p, g);
    && h <= |p| && addr[g] + r.ate + 1 == addr[h]
    && Unfolded(e, r.e, addr[h]) && SameSizes(e', flags, r)
  }

  /** It keeps the flags of earlier groups and flags the targets of this one. */
  predicate RightFlags(p: seq<Filter>, addr: seq<nat>, e: seq<Insn>, flags: seq<Flag>, g: nat, r: Folded)
    requires g < |p| && |addr| == |p| + 1
  {
    var h := NextHead(p, g);
    && h <= |p| && |r.flags| == |flags|
    && (Decode(p[g]).Branch? || Decode(p[g]).Goto? ==>
          FlagAt(r.flags, addr[g]).fold == FoldOf(Decode(p[g]), e, addr[g]))
    && (forall x :: 0 <= x < addr[g] && x < |flags| ==> r.flags[x].fold == flags[x].fold)
    && FlagsFor(addr, Targets(p, h), addr[h], r.flags)
  }

  /** What folding the head group `g` must give. */
  predicate FoldsRight(p: seq<Filter>, addr: seq<nat>, e: seq<Insn>, e': seq<Insn>, flags: seq<Flag>, g: nat, r: Folded)
    requires g < |p| && |addr| == |p| + 1
  {
    && RightLayout(p, addr, e, e', flags, g, r)
    && RightFlags(p, addr, e, flags, g, r)
    && Holds(r.f, FirstFold(p, g))
  }

  lemma ArithFirst(i: Instr, g: nat, addr: seq<nat>, e: seq<Insn>, lo: nat, hi: nat)
    requires |addr| > 0 && ValidInstr(i, g, |addr| - 1) && IsGroup(i, g, addr, e, lo, hi) && i.Arith?
    ensures e[lo].code != JMP_EXIT && e[lo].code != JMP_JA
  {
    hide AluOp.Code, ComputesK, DividesX, ValidInstr;
    if i.operand.K? {
      ComputesFirst(i.op, i.operand.k, e, lo, hi);
    } else if i.op == Div {
      DividesFirst(e, lo, hi);
    } else {
      RegisterFirst(i.op, e, lo, hi);
    }
  }

  lemma RegisterFirst(op: AluOp, e: seq<Insn>, lo: nat, hi: nat)
    requires One(e, lo, hi, ALU | op.Code() | SRC_X, REG_A, REG_X)
    ensures e[lo].code != JMP_EXIT && e[lo].code != JMP_JA
  {
    AluFirst(op);
    hide AluOp.Code;
  }

  lemma ComputesFirst(op: AluOp, k: u32, e: seq<Insn>, lo: nat, hi: nat)
    requires ComputesK(op, k, e, lo, hi)
    ensures e[lo].code != JMP_EXIT && e[lo].code != JMP_JA
  {
    hide AluOp.Code, Xor32;
    AluFirst(op);
  }

  lemma DividesFirst(e: seq<Insn>, lo: nat, hi: nat)
    requires DividesX(e, lo, hi)
    ensures e[lo].code != JMP_EXIT && e[lo].code != JMP_JA
  {
    hide Blinding;
  }

  lemma BranchFirst(i: Instr, g: nat, addr: seq<nat>, e: seq<Insn>, lo: nat, hi: nat)
    requires |addr| > 0 && ValidInstr(i, g, |addr| - 1) && IsGroup(i, g, addr, e, lo, hi) && i.Branch?
    ensures e[lo].code != JMP_EXIT && e[lo].code != JMP_JA
  {
    hide Compares, ComputesK, DividesX;
    if ArmsOf(i.cmp, i.jt, i.jf).FalseArm? {
      ComparesFirst(i.cmp, true, i.operand, e, lo);
    } else {
      ComparesFirst(i.cmp, false, i.operand, e, lo);
    }
  }

  lemma ComparesFirst(op: CmpOp, negated: bool, b: Operand, e: seq<Insn>, lo: nat)
    requires Compares(op, negated, b, e, lo)
    ensures lo < |e| && e[lo].code != JMP_EXIT && e[lo].code != JMP_JA
  {
    TestFirst(op, negated);
    hide TestCode, SignExtend;
  }

  lemma OtherFirst(i: Instr, g: nat, addr: seq<nat>, e: seq<Insn>, lo: nat, hi: nat)
    requires |addr| > 0 && ValidInstr(i, g, |addr| - 1) && IsGroup(i, g, addr, e, lo, hi) && !i.Arith? && !i.Branch?
    ensures (e[lo].code == JMP_EXIT) == i.ReturnA? && (e[lo].code == JMP_JA) == i.Goto?
  {
    hide AluOp.Code, CmpOp.Code, TestCode, ComputesK, DividesX, Branches;
  }

  /** Only the group of RET A begins with EXIT, and only the group of JA begins with JA. */
  lemma FirstCode(i: Instr, g: nat, addr: seq<nat>, e: seq<Insn>, lo: nat, hi: nat)
    requires |addr| > 0 && ValidInstr(i, g, |addr| - 1) && IsGroup(i, g, addr, e, lo, hi)
    ensures (e[lo].code == JMP_EXIT) == i.ReturnA? && (e[lo].code == JMP_JA) == i.Goto?
  {
    if i.Arith? {
      ArithFirst(i, g, addr, e, lo, hi);
    } else if i.Branch? {
      BranchFirst(i, g, addr, e, lo, hi);
    } else {
      OtherFirst(i, g, addr, e, lo, hi);
    }
  }

  lemma AluFirst(op: AluOp)
    ensures var c := ALU | op.Code();
            && c != JMP_EXIT && c != JMP_JA && c | SRC_X != JMP_EXIT && c | SRC_X != JMP_JA
  {
    match op
    case _ =>
  }

  lemma TestFirst(op: CmpOp, negated: bool)
    ensures var c := JMP | TestCode(op, negated);
            && c != JMP_EXIT && c != JMP_JA && c | SRC_X != JMP_EXIT && c | SRC_X != JMP_JA
  {
    match op
    case _ =>
  }

  lemma TestBits(op: CmpOp, negated: bool)
    ensures var c := JMP | TestCode(op, negated);
            && (c | SRC_X) & !SRC_X == c && c & !SRC_X == c && c | 0 == c
            && c & CLASS_MASK == JMP && (c | SRC_X) & CLASS_MASK == JMP
  {
    match op
    case _ =>
  }

  lemma AddFolds(flags: seq<Flag>, i: nat, m: nat, n: nat)
    ensures AddFold(flags, i, 0) == flags
    ensures AddFold(AddFold(flags, i, m), i, n) == AddFold(flags, i, m + n)
  {
  }

  /** A comparison with a constant in the jump itself, or with X. */
  lemma FoldsPlain(e: seq<Insn>, lo: nat, flags: seq<Flag>)
    requires lo < |e| && e[lo].code & CLASS_MASK == JMP
    ensures FoldGroup(e, lo, flags) == FoldJump(e, lo, 0, 0, flags)
  {
  }

  /** MOV AX; XOR AX; Jxx A AX */
  lemma FoldsBlinded(e: seq<Insn>, lo: nat, flags: seq<Flag>)
    requires lo + 2 < |e|
    requires e[lo].code == ALU64 | MOV && e[lo].dst == REG_AX
    requires e[lo + 2].code & !SRC_X & CLASS_MASK == JMP
    ensures FoldGroup(e, lo, flags) == FoldJump(Unblind(e, lo), lo, 0, 2, AddFold(flags, lo, 2))
  {
  }

  /** MOV TMP K; Jxx A TMP */
  lemma FoldsLarge(e: seq<Insn>, lo: nat, flags: seq<Flag>)
    requires lo + 1 < |e|
    requires e[lo].code == ALU | MOV && e[lo].dst == REG_TMP && e[lo].src == 0
    requires e[lo + 1].code & CLASS_MASK == JMP
    ensures FoldGroup(e, lo, flags) == FoldJump(e, lo, e[lo].imm, 1, AddFold(flags, lo, 1))
  {
  }

  /** MOV AX; XOR AX; MOV TMP AX; Jxx A TMP */
  lemma FoldsBlindedLarge(e: seq<Insn>, lo: nat, flags: seq<Flag>)
    requires lo + 3 < |e| && lo < |flags|
    requires e[lo].code == ALU | MOV && e[lo].dst == REG_AX
    requires e[lo + 2].code == ALU | MOV | SRC_X && e[lo + 2].dst == REG_TMP
    requires e[lo + 3].code & CLASS_MASK == JMP
    ensures FoldGroup(e, lo, flags)
         == FoldJump(Unblind(e, lo), lo, Xor32(e[lo].imm, e[lo + 1].imm), 3, AddFold(flags, lo, 3))
  {
    AddFolds(flags, lo, 2, 1);
  }

  function BranchCode(op: CmpOp, negated: bool, b: Operand): bv16 {
    JMP | TestCode(op, negated) | b.Src()
  }

  /** The instructions once the constant of the jump at `j` is unblinded. */
  function Edited(e: seq<Insn>, lo: nat, j: nat): (r: seq<Insn>)
    ensures |r| == |e|
  {
    if j >= lo + 2 then Unblind(e, lo) else e
  }

  function LargeK(b: Operand): u32 {
    if b.K? && b.k >= NEGATIVE then b.k else 0
  }

  /** How the instructions before a conditional jump are folded into it. */
  lemma PrefixFolds(op: CmpOp, negated: bool, b: Operand, e: seq<Insn>, e': seq<Insn>, lo: nat, flags: seq<Flag>)
    requires Compares(op, negated, b, e, lo) && Unfolded(e, e', lo) && lo < |flags| && flags[lo].fold == 0
    ensures var j := JumpAt(e, lo);
            FoldGroup(e', lo, flags) == FoldJump(Edited(e', lo, j), lo, LargeK(b), j - lo, AddFold(flags, lo, j - lo))
  {
    var j := JumpAt(e, lo);
    TestBits(op, negated);
    AddFolds(flags, lo, 0, 0);
    hide FoldGroup, TestCode, FoldJump;
    assert e'[lo] == e[lo] && e'[j] == e[j];
    if b.RegX? || j == lo {
      FoldsPlain(e', lo, flags);
    } else if j == lo + 2 {
      FoldsBlinded(e', lo, flags);
    } else if j == lo + 1 {
      FoldsLarge(e', lo, flags);
    } else {
      FoldsBlindedLarge(e', lo, flags);
    }
  }

  lemma PrefixCode(op: CmpOp, negated: bool, b: Operand, e: seq<Insn>, e': seq<Insn>, lo: nat)
    requires Compares(op, negated, b, e, lo) && Unfolded(e, e', lo)
    ensures JumpCode(At(Edited(e', lo, JumpAt(e, lo)), JumpAt(e, lo)), LargeK(b)) == BranchCode(op, negated, b)
  {
    hide Compares, Unfolded, JumpAt, JumpCode, Edited, LargeK, BranchCode;
    if b.RegX? || (b.k < NEGATIVE && JumpAt(e, lo) == lo) {
      PlainTest(op, negated, b, e, e', lo);
    } else if b.k >= NEGATIVE {
      LargeTest(op, negated, b, e, e', lo);
    } else {
      BlindedTest(op, negated, b, e, e', lo);
    }
  }

  /** A comparison that needs nothing before it is kept as it is. */
  lemma PlainTest(op: CmpOp, negated: bool, b: Operand, e: seq<Insn>, e': seq<Insn>, lo: nat)
    requires Compares(op, negated, b, e, lo) && Unfolded(e, e', lo)
    requires b.RegX? || (b.k < NEGATIVE && JumpAt(e, lo) == lo)
    ensures JumpCode(At(Edited(e', lo, JumpAt(e, lo)), JumpAt(e, lo)), LargeK(b)) == BranchCode(op, negated, b)
  {
    PlainCode(op, negated, b);
    hide TestCode, JumpAt, Unblind, BranchCode;
    assert e'[lo] == e[lo];
  }

  lemma PlainCode(op: CmpOp, negated: bool, b: Operand)
    ensures BranchCode(op, negated, b) == if b.RegX? then JMP | TestCode(op, negated) | SRC_X else JMP | TestCode(op, negated)
  {
    hide TestCode;
  }

  /** One that compares with a constant in TMP compares with the constant again. */
  lemma LargeTest(op: CmpOp, negated: bool, b: Operand, e: seq<Insn>, e': seq<Insn>, lo: nat)
    requires Compares(op, negated, b, e, lo) && Unfolded(e, e', lo) && b.K? && b.k >= NEGATIVE
    ensures JumpCode(At(Edited(e', lo, JumpAt(e, lo)), JumpAt(e, lo)), LargeK(b)) == BranchCode(op, negated, b)
  {
    var j := JumpAt(e, lo);
    ConstantTest(op, negated, b);
    MovesBefore(e, lo, j, REG_TMP, b.k);
    EditedLarge(e, e', lo, j);
    hide TestCode, JumpAt, MovesK, Edited, Unfolded;
  }

  lemma MovesBefore(e: seq<Insn>, lo: nat, hi: nat, reg: nat, k: u32)
    requires MovesK(e, lo, hi, reg, k)
    ensures hi == lo + 1 || hi == lo + 3
  {
  }

  /** Unblinding the move to TMP leaves the comparison behind it alone. */
  lemma EditedLarge(e: seq<Insn>, e': seq<Insn>, lo: nat, j: nat)
    requires Unfolded(e, e', lo) && lo <= j && j != lo + 2
    ensures At(Edited(e', lo, j), j) == At(e, j)
  {
    assert At(e', j) == At(e, j);
  }

  function WithoutX(c: bv16): bv16 {
    c & !SRC_X
  }

  lemma BlindedTest(op: CmpOp, negated: bool, b: Operand, e: seq<Insn>, e': seq<Insn>, lo: nat)
    requires Compares(op, negated, b, e, lo) && Unfolded(e, e', lo) && b.K? && b.k < NEGATIVE && JumpAt(e, lo) != lo
    ensures JumpCode(At(Edited(e', lo, JumpAt(e, lo)), JumpAt(e, lo)), LargeK(b)) == BranchCode(op, negated, b)
  {
    hide JumpAt, Compares, BranchCode, Edited, WithoutX;
    BlindedAt(op, negated, b, e, lo);
    assert e'[lo + 2] == e[lo + 2];
    EditedBlinded(e', lo);
  }

  lemma BlindedAt(op: CmpOp, negated: bool, b: Operand, e: seq<Insn>, lo: nat)
    requires Compares(op, negated, b, e, lo) && b.K? && b.k < NEGATIVE && JumpAt(e, lo) != lo
    ensures JumpAt(e, lo) == lo + 2 < |e| && WithoutX(e[lo + 2].code) == BranchCode(op, negated, b)
  {
    ConstantTest(op, negated, b);
    hide TestCode, JumpAt, Blinding, BranchCode;
  }

  lemma EditedBlinded(e: seq<Insn>, lo: nat)
    requires lo + 2 < |e|
    ensures At(Edited(e, lo, lo + 2), lo + 2).code == WithoutX(e[lo + 2].code)
  {
    hide Xor32;
  }

  lemma ConstantTest(op: CmpOp, negated: bool, b: Operand)
    requires b.K?
    ensures (JMP | TestCode(op, negated) | SRC_X) & !SRC_X == BranchCode(op, negated, b)
  {
    TestBits(op, negated);
    hide TestCode;
  }

  lemma PrefixK(op: CmpOp, negated: bool, b: Operand, e: seq<Insn>, e': seq<Insn>, lo: nat)
    requires Compares(op, negated, b, e, lo) && Unfolded(e, e', lo) && b.K?
    ensures JumpK(At(Edited(e', lo, JumpAt(e, lo)), JumpAt(e, lo)), LargeK(b)) == b.k
  {
    hide TestCode;
    assert e'[lo] == e[lo] && e'[JumpAt(e, lo)] == e[JumpAt(e, lo)];
  }

  lemma EditedUnfolded(e: seq<Insn>, e': seq<Insn>, lo: nat, j: nat)
    requires Unfolded(e, e', lo) && lo < |e| && lo <= j
    ensures Unfolded(e, Edited(e', lo, j), j + 1)
    ensures Target(Edited(e', lo, j), j) == Target(e, j) && At(Edited(e', lo, j), j + 1) == At(e, j + 1)
  {
  }

  lemma MarkAdds(addr: seq<nat>, t: set<nat>, lo: nat, flags: seq<Flag>, g: nat)
    requires FlagsFor(addr, t, lo, flags) && g < |addr|
    ensures FlagsFor(addr, t + {g}, lo, Mark(flags, addr[g]))
  {
    var marked := Mark(flags, addr[g]);
    forall x | lo <= x < |marked| ensures marked[x] == Flag(0, Lands(addr, t + {g}, x)) {
      if Lands(addr, t, x) {
        var h :| h in t && h < |addr| && addr[h] == x;
        assert h in t + {g};
      }
      if x == addr[g] {
        assert g in t + {g};
      }
    }
  }

  predicate IsTest(c: bv16, op: CmpOp, negated: bool) {
    c == JMP | TestCode(op, negated) || c == JMP | TestCode(op, negated) | SRC_X
  }

  lemma JumpOpBits(op: CmpOp, negated: bool, c: bv16)
    requires IsTest(c, op, negated)
    ensures c & OP_MASK == TestCode(op, negated)
    ensures c & OP_MASK != JMP_EXIT & OP_MASK && c & OP_MASK != JMP_JA & OP_MASK
  {
    match op
    case _ =>
  }

  lemma TestCodeBits(op: CmpOp)
    ensures !IsSingleOp(TestCode(op, false))
    ensures op != Jset ==> IsSingleOp(TestCode(op, true))
  {
    match op
    case _ =>
  }

  lemma DecodeBranch(op: CmpOp, b: Operand, jt: u8, jf: u8, k: u32)
    ensures Decode(Filter(BranchCode(op, false, b), jt, jf, k)) == Branch(op, if b.RegX? then RegX else K(k), jt, jf)
  {
    match op
    case _ =>
  }

  lemma OppositeCode(op: CmpOp, b: Operand)
    requires op != Jset
    ensures var c := BranchCode(op, true, b);
            BranchCode(op, false, b)
            == match op case Jeq => (c & !JNE) | JEQ case Jgt => (c & !JLE) | JGT case _ => (c & !JLT) | JGE
  {
    match op
    case _ =>
  }

  /** `e[j]` compares as told, once its constant is found. */
  predicate Foldable(op: CmpOp, negated: bool, b: Operand, e: seq<Insn>, lo: nat, j: nat, k: u32, flags: seq<Flag>) {
    && lo <= j < |e| && lo < |flags| && FlagAt(flags, lo).fold == j - lo && !(negated && op == Jset)
    && IsTest(e[j].code, op, negated)
    && JumpCode(At(e, j), k) == BranchCode(op, negated, b)
    && (b.K? ==> JumpK(At(e, j), k) == b.k)
  }

  /** `r` folds the comparison `e[j]` into slot `lo`, and the JA behind it if it can. */
  predicate FoldsCompare(op: CmpOp, negated: bool, b: Operand, e: seq<Insn>, lo: nat, j: nat, marked: seq<Flag>, r: Folded)
    requires lo <= j
  {
    var two := At(e, j + 1).code == JMP_JA && !FlagAt(marked, j + 1).targeted && !negated;
    && r.f.jt == (if negated then 0 else 1) && r.f.jf == (if negated || two then 1 else 0)
    && Decode(r.f) == Branch(op, b, r.f.jt, r.f.jf)
    && r.e == e
    && r.ate == (if two then j - lo + 1 else j - lo)
    && r.flags == (if two then Mark(marked, Target(e, j + 1)) else marked)
  }

  lemma FoldsTest(op: CmpOp, negated: bool, b: Operand, e: seq<Insn>, lo: nat, j: nat, k: u32, flags: seq<Flag>)
    returns (r: Folded)
    requires Foldable(op, negated, b, e, lo, j, k, flags)
    ensures FoldsCompare(op, negated, b, e, lo, j, Mark(flags, Target(e, j)), r)
    ensures FoldJump(e, lo, k, j - lo, flags) == Some(r)
  {
    JumpOpBits(op, negated, e[j].code);
    TestCodeBits(op);
    var marked := Mark(flags, Target(e, j));
    var two := At(e, j + 1).code == JMP_JA && !FlagAt(marked, j + 1).targeted && !negated;
    var jt, jf := if negated then 0 else 1, if negated || two then 1 else 0;
    var f := Filter(BranchCode(op, false, b), jt, jf, JumpK(At(e, j), k));
    DecodeBranch(op, b, jt, jf, JumpK(At(e, j), k));
    if negated {
      OppositeCode(op, b);
    }
    hide BranchCode, Decode;
    r := if two then Folded(f, j - lo + 1, e, Mark(marked, Target(e, j + 1))) else Folded(f, j - lo, e, marked);
  }

  lemma LandsAt(addr: seq<nat>, t: set<nat>, g: nat)
    requires Increasing(addr) && g < |addr|
    ensures Lands(addr, t, addr[g]) == (g in t)
  {
    if h :| h in t && h < |addr| && addr[h] == addr[g] {
      assert h == g;
    }
  }

  lemma NotBetween(addr: seq<nat>, t: set<nat>, g: nat, x: nat)
    requires Increasing(addr) && g + 1 < |addr| && addr[g] < x < addr[g + 1]
    ensures !Lands(addr, t, x)
  {
    forall h | h in t && h < |addr| ensures addr[h] != x {
      assert h <= g || g + 1 <= h;
    }
  }

  /** The first pass arrives at head group `g` with what it needs to fold it. */
  predicate AtHead(p: seq<Filter>, addr: seq<nat>, e: seq<Insn>, e': seq<Insn>, flags: seq<Flag>, g: nat) {
    && IsMigration(p, addr, e) && Increasing(addr) && g < |p|
    && Unfolded(e, e', addr[g]) && |flags| == |e| + FLAG_SLACK
    && FlagsFor(addr, Targets(p, g), addr[g], flags)
  }

  lemma HeadUnfolded(addr: seq<nat>, t: set<nat>, lo: nat, flags: seq<Flag>)
    requires FlagsFor(addr, t, lo, flags)
    ensures FlagAt(flags, lo).fold == 0
  {
  }

  lemma StartFold(addr: seq<nat>, t: set<nat>, lo: nat, flags: seq<Flag>, n: nat)
    requires FlagsFor(addr, t, lo, flags) && lo < |flags|
    ensures FlagsFor(addr, t, lo + 1, AddFold(flags, lo, n)) && AddFold(flags, lo, n)[lo].fold == n
  {
  }

  /** The flags once the comparison at `lo` is folded and its target `to` marked. */
  function MarkedBy(flags: seq<Flag>, e: seq<Insn>, lo: nat): seq<Flag> {
    Mark(AddFold(flags, lo, JumpAt(e, lo) - lo), Target(e, JumpAt(e, lo)))
  }

  lemma ComparisonMarks(t: set<nat>, to: nat, addr: seq<nat>, e: seq<Insn>, flags: seq<Flag>, lo: nat)
    requires to < |addr| && lo < |flags| && FlagsFor(addr, t, lo, flags)
    requires JumpAt(e, lo) < |e| && Target(e, JumpAt(e, lo)) == addr[to]
    ensures var marked := MarkedBy(flags, e, lo);
            && |marked| == |flags| && FlagsFor(addr, t + {to}, lo + 1, marked)
            && marked[lo].fold == JumpAt(e, lo) - lo
            && forall x :: 0 <= x < lo ==> marked[x].fold == flags[x].fold
  {
    StartFold(addr, t, lo, flags, JumpAt(e, lo) - lo);
    MarkAdds(addr, t, lo + 1, AddFold(flags, lo, JumpAt(e, lo) - lo), to);
  }

  lemma ComparisonFoldable(op: CmpOp, negated: bool, b: Operand, e: seq<Insn>, e': seq<Insn>, lo: nat, flags: seq<Flag>)
    requires lo < |flags| && Unfolded(e, e', lo) && flags[lo].fold == 0
    requires Compares(op, negated, b, e, lo)
    ensures var j := JumpAt(e, lo);
            Foldable(op, negated, b, Edited(e', lo, j), lo, j, LargeK(b), AddFold(flags, lo, j - lo))
  {
    hide TestCode, JumpCode, JumpK, IsTest, BranchCode;
    EditedCode(op, negated, b, e, e', lo);
    PrefixCode(op, negated, b, e, e', lo);
    if b.K? {
      PrefixK(op, negated, b, e, e', lo);
    }
  }

  /** The parts of folding a comparison that do not depend on its arms. */
  lemma FoldsComparison(i: Instr, e: seq<Insn>, e': seq<Insn>, flags: seq<Flag>, lo: nat) returns (r: Folded)
    requires i.Branch? && lo < |flags| && Unfolded(e, e', lo) && flags[lo].fold == 0
    requires Compares(i.cmp, ArmsOf(i.cmp, i.jt, i.jf).FalseArm?, i.operand, e, lo)
    ensures var e1 := Edited(e', lo, JumpAt(e, lo));
            FoldsCompare(i.cmp, ArmsOf(i.cmp, i.jt, i.jf).FalseArm?, i.operand, e1, lo, JumpAt(e, lo), MarkedBy(flags, e, lo), r)
    ensures FoldGroup(e', lo, flags) == Some(r)
  {
    var j, negated := JumpAt(e, lo), ArmsOf(i.cmp, i.jt, i.jf).FalseArm?;
    var e1 := Edited(e', lo, j);
    PrefixFolds(i.cmp, negated, i.operand, e, e', lo, flags);
    ComparisonFoldable(i.cmp, negated, i.operand, e, e', lo, flags);
    EditedUnfolded(e, e', lo, j);
    hide Decode, FoldJump, FoldGroup, Foldable, Compares, Unfolded, Edited, Mark, AddFold, FoldsCompare;
    assert Target(e1, j) == Target(e, j);
    r := FoldsTest(i.cmp, negated, i.operand, e1, lo, j, LargeK(i.operand), AddFold(flags, lo, j - lo));
  }

  lemma EditedCode(op: CmpOp, negated: bool, b: Operand, e: seq<Insn>, e': seq<Insn>, lo: nat)
    requires Compares(op, negated, b, e, lo) && Unfolded(e, e', lo)
    ensures var j := JumpAt(e, lo);
            IsTest(Edited(e', lo, j)[j].code, op, negated)
  {
    var j := JumpAt(e, lo);
    TestBits(op, negated);
    hide TestCode;
    assert e'[lo] == e[lo] && e'[j] == e[j];
  }

  /** The targets known when the head after `g` is reached. */
  lemma NextTargets(p: seq<Filter>, g: nat)
    requires g < |p|
    ensures Targets(p, g + 1) == Targets(p, g) + MarksOf(Decode(p[g]), g)
    ensures g + 1 < |p| ==> Targets(p, g + 2) == Targets(p, g + 1) + MarksOf(Decode(p[g + 1]), g + 1)
  {
  }

  lemma JumpGroup(p: seq<Filter>, addr: seq<nat>, e: seq<Insn>, g: nat)
    requires IsMigration(p, addr, e) && g < |p|
    ensures |addr| == |p| + 1 && addr[g] < addr[g + 1] <= |e|
    ensures (e[addr[g]].code == JMP_JA) == Decode(p[g]).Goto?
    ensures var i := Decode(p[g]);
            i.Goto? ==> addr[g + 1] == addr[g] + 1 && g + 1 + i.k < |p| && Target(e, addr[g]) == addr[g + 1 + i.k]
  {
    assert GroupAt(p, addr, e, g);
    FirstCode(Decode(p[g]), g, addr, e, addr[g], addr[g + 1]);
  }

  /** The first eBPF jump of a branch leads to this group, ... */
  function FirstTo(i: Instr, g: nat): nat
    requires i.Branch?
  {
    if ArmsOf(i.cmp, i.jt, i.jf).FalseArm? then g + 1 + i.jf else g + 1 + i.jt
  }

  /** ... the JA behind it, if it is taken in, ... */
  predicate TakesTwo(p: seq<Filter>, g: nat)
    requires g < |p| && Decode(p[g]).Branch?
  {
    var i := Decode(p[g]);
    ArmsOf(i.cmp, i.jt, i.jf).BothArms? || Merged(p, g + 1)
  }

  /** ... to this one. */
  function SecondTo(p: seq<Filter>, g: nat): nat
    requires g < |p| && Decode(p[g]).Branch? && TakesTwo(p, g)
  {
    var i := Decode(p[g]);
    if ArmsOf(i.cmp, i.jt, i.jf).BothArms? then g + 1 + i.jf else g + 2 + Decode(p[g + 1]).k
  }

  lemma BranchGroup(p: seq<Filter>, addr: seq<nat>, e: seq<Insn>, g: nat)
    requires IsMigration(p, addr, e) && g < |p| && Decode(p[g]).Branch?
    ensures var i := Decode(p[g]);
            && |addr| == |p| + 1 && g + 1 + i.jt < |p| && g + 1 + i.jf < |p|
            && Branches(i, g, addr, e, addr[g], addr[g + 1])
  {
    assert GroupAt(p, addr, e, g);
  }

  /** How the group of a branch is laid out. */
  lemma BranchShape(p: seq<Filter>, addr: seq<nat>, e: seq<Insn>, g: nat)
    requires IsMigration(p, addr, e) && g < |p| && Decode(p[g]).Branch?
    ensures var i := Decode(p[g]);
            var j, two, h := JumpAt(e, addr[g]), TakesTwo(p, g), NextHead(p, g);
            && |addr| == |p| + 1 && j < |e| && FirstTo(i, g) < |p| && Target(e, j) == addr[FirstTo(i, g)]
            && Compares(i.cmp, ArmsOf(i.cmp, i.jt, i.jf).FalseArm?, i.operand, e, addr[g])
            && h <= |p| && addr[h] == (if two then j + 2 else j + 1)
            && (two ==> j + 1 < |e| && e[j + 1].code == JMP_JA && !ArmsOf(i.cmp, i.jt, i.jf).FalseArm?
                        && SecondTo(p, g) < |p| && Target(e, j + 1) == addr[SecondTo(p, g)])
  {
    hide Decode, IsMigration, Compares, Targets;
    BranchGroup(p, addr, e, g);
    JumpGroup(p, addr, e, g + 1);
  }

  lemma {:induction false} BranchTargets(p: seq<Filter>, g: nat)
    requires g < |p| && Decode(p[g]).Branch? && NextHead(p, g) <= |p|
    ensures Targets(p, NextHead(p, g))
         == Targets(p, g) + {FirstTo(Decode(p[g]), g)} + (if TakesTwo(p, g) then {SecondTo(p, g)} else {})
  {
    NextTargets(p, g);
    hide Decode, Targets;
  }

  /** The JA behind a comparison is taken in when it belongs to it or nothing jumps to it. */
  lemma {:induction false} BranchTakes(p: seq<Filter>, addr: seq<nat>, e: seq<Insn>, g: nat, marked: seq<Flag>)
    requires IsMigration(p, addr, e) && Increasing(addr) && g < |p| && Decode(p[g]).Branch?
    requires FlagsFor(addr, Targets(p, g) + {FirstTo(Decode(p[g]), g)}, addr[g] + 1, marked)
    requires |marked| == |e| + FLAG_SLACK
    ensures var i, j := Decode(p[g]), JumpAt(e, addr[g]);
            (At(e, j + 1).code == JMP_JA && !FlagAt(marked, j + 1).targeted && !ArmsOf(i.cmp, i.jt, i.jf).FalseArm?)
            == TakesTwo(p, g)
  {
    hide Decode, IsMigration, Compares, Targets;
    BranchGroup(p, addr, e, g);
    var i, j := Decode(p[g]), JumpAt(e, addr[g]);
    var t := Targets(p, g) + {FirstTo(i, g)};
    JumpGroup(p, addr, e, g + 1);
    NextTargets(p, g);
    match ArmsOf(i.cmp, i.jt, i.jf) {
      case TrueArm => LandsAt(addr, t, g + 1);
      case FalseArm =>
      case BothArms => NotBetween(addr, t, g, j + 1);
    }
  }

  lemma FlagsLater(addr: seq<nat>, t: set<nat>, lo: nat, hi: nat, flags: seq<Flag>)
    requires FlagsFor(addr, t, lo, flags) && lo <= hi
    ensures FlagsFor(addr, t, hi, flags)
  {
  }

  lemma BranchLayout(p: seq<Filter>, addr: seq<nat>, e: seq<Insn>, e': seq<Insn>, flags: seq<Flag>, g: nat, r: Folded)
    requires IsMigration(p, addr, e) && g < |p| && Decode(p[g]).Branch?
    requires var j := JumpAt(e, addr[g]);
             && j < |e| && Unfolded(e, e', addr[g]) && r.e == Edited(e', addr[g], j) && |r.flags| == |flags|
             && r.ate == j - addr[g] + (if TakesTwo(p, g) then 1 else 0)
    ensures RightLayout(p, addr, e, e', flags, g, r)
  {
    hide Decode, IsMigration, Compares, Targets, Merged, FlagsFor;
    BranchShape(p, addr, e, g);
    EditedUnfolded(e, e', addr[g], JumpAt(e, addr[g]));
  }

  lemma {:induction false} BranchFlags(p: seq<Filter>, addr: seq<nat>, e: seq<Insn>, flags: seq<Flag>, g: nat, r: Folded)
    requires IsMigration(p, addr, e) && Increasing(addr) && g < |p| && Decode(p[g]).Branch? && JumpAt(e, addr[g]) < |e|
    requires |flags| == |e| + FLAG_SLACK && FlagsFor(addr, Targets(p, g), addr[g], flags)
    requires var j, marked := JumpAt(e, addr[g]), MarkedBy(flags, e, addr[g]);
             r.flags == if TakesTwo(p, g) then Mark(marked, j + 1 + At(e, j + 1).off + 1) else marked
    ensures RightFlags(p, addr, e, flags, g, r)
  {
    hide Decode, IsMigration, Compares, Targets, Merged, FlagsFor;
    BranchShape(p, addr, e, g);
    var t, to := Targets(p, g), FirstTo(Decode(p[g]), g);
    var marked := MarkedBy(flags, e, addr[g]);
    ComparisonMarks(t, to, addr, e, flags, addr[g]);
    BranchTargets(p, g);
    if TakesTwo(p, g) {
      MarkAdds(addr, t + {to}, addr[g] + 1, marked, SecondTo(p, g));
    } else {
      assert Targets(p, NextHead(p, g)) == t + {to};
    }
    FlagsLater(addr, Targets(p, NextHead(p, g)), addr[g] + 1, addr[NextHead(p, g)], r.flags);
  }

  lemma FoldsBranch(p: seq<Filter>, addr: seq<nat>, e: seq<Insn>, e': seq<Insn>, flags: seq<Flag>, g: nat)
    returns (r: Folded)
    requires AtHead(p, addr, e, e', flags, g) && Decode(p[g]).Branch?
    ensures FoldGroup(e', addr[g], flags) == Some(r) && FoldsRight(p, addr, e, e', flags, g, r)
  {
    hide FoldGroup, Decode, Compares, IsMigration, IsGroup, RightLayout, RightFlags, FlagsFor, Unfolded, Targets, Merged;
    BranchShape(p, addr, e, g);
    var i := Decode(p[g]);
    HeadFlag(addr, Targets(p, g), addr[g], flags);
    r := FoldsComparison(i, e, e', flags, addr[g]);
    EditedUnfolded(e, e', addr[g], JumpAt(e, addr[g]));
    ComparisonMarks(Targets(p, g), FirstTo(i, g), addr, e, flags, addr[g]);
    BranchTakes(p, addr, e, g, MarkedBy(flags, e, addr[g]));
    BranchLayout(p, addr, e, e', flags, g, r);
    BranchFlags(p, addr, e, flags, g, r);
  }

  lemma HeadFlag(addr: seq<nat>, t: set<nat>, lo: nat, flags: seq<Flag>)
    requires FlagsFor(addr, t, lo, flags) && lo < |flags|
    ensures flags[lo].fold == 0
  {
  }

  // ----- groups without a comparison -----

  /** The word of a MOV and what is left to be folded after it. */
  predicate AtMove(e: seq<Insn>, e1: seq<Insn>, lo: nat, mid: nat, reg: nat, k: u32, flags: seq<Flag>, flags1: seq<Flag>) {
    && lo < mid && Unfolded(e, e1, mid) && mid <= |e1|
    && e1[mid - 1].code == ALU | MOV && e1[mid - 1].dst == reg && e1[mid - 1].src == 0 && e1[mid - 1].imm == k
    && flags1 == AddFold(flags, lo, mid - 1 - lo)
  }

  /** However the constant is moved, its group is folded as MOV reg K. */
  lemma FoldsToMove(e: seq<Insn>, e': seq<Insn>, lo: nat, mid: nat, reg: nat, k: u32, flags: seq<Flag>)
    returns (e1: seq<Insn>)
    requires MovesK(e, lo, mid, reg, k) && (reg == REG_A || reg == REG_X)
    requires Unfolded(e, e', lo) && lo < |flags|
    ensures |e1| == |e'| && AtMove(e, e1, lo, mid, reg, k, flags, AddFold(flags, lo, mid - 1 - lo))
    ensures FoldGroup(e', lo, flags) == FoldMove(e1, lo, mid - 1, mid - 1 - lo, AddFold(flags, lo, mid - 1 - lo))
  {
    AddFolds(flags, lo, 0, 0);
    hide FoldMove;
    assert e'[lo] == e[lo] && e'[mid - 1] == e[mid - 1];
    if mid == lo + 3 {
      assert e'[lo + 1] == e[lo + 1];
      e1 := Unblind(e', lo);
    } else if e[lo].code == ALU | MOV {
      e1 := e';
    } else {
      e1 := e'[lo := e'[lo].(src := 0, code := ALU | MOV)];
    }
  }

  lemma FoldsMoveA(e: seq<Insn>, e1: seq<Insn>, lo: nat, mid: nat, k: u32, flags: seq<Flag>, flags1: seq<Flag>)
    requires AtMove(e, e1, lo, mid, REG_A, k, flags, flags1)
    ensures var exits := At(e, mid).code == JMP_EXIT && !FlagAt(flags1, mid).targeted;
            FoldMove(e1, lo, mid - 1, mid - 1 - lo, flags1)
            == Some(if exits then Folded(Stmt(RET_K, k), mid - lo, e1, flags1)
                    else Folded(if k == DATA_LEN then Stmt(LD_W_LEN, 0) else Stmt(LD_IMM, k), mid - 1 - lo, e1, flags1))
  {
    assert At(e1, mid) == At(e, mid);
  }

  lemma FoldsMoveX(e: seq<Insn>, e1: seq<Insn>, lo: nat, mid: nat, k: u32, flags: seq<Flag>, flags1: seq<Flag>)
    requires AtMove(e, e1, lo, mid, REG_X, k, flags, flags1)
    ensures FoldMove(e1, lo, mid - 1, mid - 1 - lo, flags1)
            == Some(Folded(if k == DATA_LEN then Stmt(LDX_W_LEN, 0) else Stmt(LDX_IMM, k), mid - 1 - lo, e1, flags1))
  {
  }

  lemma LoadGroup(p: seq<Filter>, addr: seq<nat>, e: seq<Insn>, g: nat)
    requires IsMigration(p, addr, e) && g < |p|
    ensures |addr| == |p| + 1 && addr[g] < addr[g + 1] <= |e|
    ensures var i := Decode(p[g]);
            && (i.LoadImm? || i.LoadLen? ==> g + 1 < |p| && MovesK(e, addr[g], addr[g + 1], RegOf(i.reg), LoadedK(i)))
            && (i.ReturnK? ==> addr[g] + 1 < addr[g + 1] && MovesK(e, addr[g], addr[g + 1] - 1, REG_A, i.k)
                               && e[addr[g + 1] - 1].code == JMP_EXIT)
  {
    assert GroupAt(p, addr, e, g);
  }

  lemma ExitGroup(p: seq<Filter>, addr: seq<nat>, e: seq<Insn>, g: nat)
    requires IsMigration(p, addr, e) && g < |p|
    ensures |addr| == |p| + 1 && addr[g] < addr[g + 1] <= |e| && (e[addr[g]].code == JMP_EXIT) == Decode(p[g]).ReturnA?
    ensures Decode(p[g]).ReturnA? ==> addr[g + 1] == addr[g] + 1
  {
    assert GroupAt(p, addr, e, g);
    FirstCode(Decode(p[g]), g, addr, e, addr[g], addr[g + 1]);
  }

  /** A group that marks nothing leaves the flags behind it as they are. */
  lemma {:induction false} QuietFlags(p: seq<Filter>, addr: seq<nat>, e: seq<Insn>, flags: seq<Flag>, g: nat, r: Folded, n: nat)
    requires g < |p| && |addr| == |p| + 1 && NextHead(p, g) <= |p| && addr[g] < addr[NextHead(p, g)]
    requires FlagsFor(addr, Targets(p, g), addr[g], flags) && addr[g] < |flags|
    requires r.flags == AddFold(flags, addr[g], n)
    requires !Decode(p[g]).Branch? && !Decode(p[g]).Goto?
    requires Merged(p, g + 1) ==> Decode(p[g + 1]).ReturnA?
    ensures RightFlags(p, addr, e, flags, g, r)
  {
    NextTargets(p, g);
    assert Targets(p, NextHead(p, g)) == Targets(p, g);
    StartFold(addr, Targets(p, g), addr[g], flags, n);
  }

  /** EXIT behind the constant of A is taken in just when its group is merged. */
  lemma TakesExit(p: seq<Filter>, addr: seq<nat>, e: seq<Insn>, g: nat, flags: seq<Flag>, n: nat)
    requires IsMigration(p, addr, e) && Increasing(addr) && g + 1 < |p| && LoadsA(Decode(p[g]))
    requires FlagsFor(addr, Targets(p, g), addr[g], flags) && |flags| == |e| + FLAG_SLACK
    ensures (At(e, addr[g + 1]).code == JMP_EXIT && !FlagAt(AddFold(flags, addr[g], n), addr[g + 1]).targeted)
            == Merged(p, g + 1)
    ensures Merged(p, g + 1) ==> Decode(p[g + 1]).ReturnA? && addr[g + 2] == addr[g + 1] + 1
  {
    hide IsMigration, Targets, Decode;
    ExitGroup(p, addr, e, g + 1);
    StartFold(addr, Targets(p, g), addr[g], flags, n);
    LandsAt(addr, Targets(p, g), g + 1);
    NextTargets(p, g);
  }

  lemma DecodeLoads(k: u32)
    ensures Decode(Stmt(RET_K, k)) == ReturnK(k) && Decode(Stmt(LD_W_LEN, 0)) == LoadLen(A)
    ensures Decode(Stmt(LD_IMM, k)) == LoadImm(A, k)
    ensures Decode(Stmt(LDX_W_LEN, 0)) == LoadLen(X) && Decode(Stmt(LDX_IMM, k)) == LoadImm(X, k)
  {
  }

  lemma FoldsLoadA(p: seq<Filter>, addr: seq<nat>, e: seq<Insn>, e': seq<Insn>, flags: seq<Flag>, g: nat)
    returns (r: Folded)
    requires AtHead(p, addr, e, e', flags, g) && LoadsA(Decode(p[g]))
    ensures FoldGroup(e', addr[g], flags) == Some(r) && FoldsRight(p, addr, e, e', flags, g, r)
  {
    hide FoldGroup, FoldMove, IsMigration, MovesK, Targets, Decode, Merged, FlagsFor, Unfolded, RightFlags;
    LoadGroup(p, addr, e, g);
    var lo, mid, k := addr[g], addr[g + 1], LoadedK(Decode(p[g]));
    var flags1 := AddFold(flags, lo, mid - 1 - lo);
    var e1 := FoldsToMove(e, e', lo, mid, REG_A, k, flags);
    FoldsMoveA(e, e1, lo, mid, k, flags, flags1);
    TakesExit(p, addr, e, g, flags, mid - 1 - lo);
    r := if Merged(p, g + 1) then Folded(Stmt(RET_K, k), mid - lo, e1, flags1)
         else Folded(if k == DATA_LEN then Stmt(LD_W_LEN, 0) else Stmt(LD_IMM, k), mid - 1 - lo, e1, flags1);
    DecodeLoads(k);
    UnfoldedLater(e, e1, mid, addr[NextHead(p, g)]);
    QuietFlags(p, addr, e, flags, g, r, mid - 1 - lo);
  }

  lemma UnfoldedLater(e: seq<Insn>, e': seq<Insn>, lo: nat, hi: nat)
    requires Unfolded(e, e', lo) && lo <= hi
    ensures Unfolded(e, e', hi)
  {
  }

  /** A group that is never merged with the next one and marks nothing. */
  lemma FoldsAlone(p: seq<Filter>, addr: seq<nat>, e: seq<Insn>, e': seq<Insn>, flags: seq<Flag>, g: nat, r: Folded, n: nat)
    requires AtHead(p, addr, e, e', flags, g)
    requires !LoadsA(Decode(p[g])) && !Decode(p[g]).Branch? && !Decode(p[g]).Goto?
    requires Unfolded(e, r.e, addr[g + 1]) && |r.e| == |e'|
    requires r.flags == AddFold(flags, addr[g], n) && addr[g] + r.ate + 1 == addr[g + 1] <= |e|
    requires Holds(r.f, FirstFold(p, g))
    ensures FoldsRight(p, addr, e, e', flags, g, r)
  {
    hide IsMigration, Decode, Targets, RightFlags, FlagsFor;
    ExitGroup(p, addr, e, g);
    QuietFlags(p, addr, e, flags, g, r, n);
  }

  lemma FoldsLoadX(p: seq<Filter>, addr: seq<nat>, e: seq<Insn>, e': seq<Insn>, flags: seq<Flag>, g: nat)
    returns (r: Folded)
    requires AtHead(p, addr, e, e', flags, g)
    requires Decode(p[g]).LoadImm? || Decode(p[g]).LoadLen?
    requires Decode(p[g]).reg == X
    ensures FoldGroup(e', addr[g], flags) == Some(r) && FoldsRight(p, addr, e, e', flags, g, r)
  {
    hide FoldGroup, FoldMove, IsMigration, MovesK, Targets, Decode, FlagsFor, Unfolded, FoldsRight;
    LoadGroup(p, addr, e, g);
    var lo, mid, k := addr[g], addr[g + 1], LoadedK(Decode(p[g]));
    var flags1 := AddFold(flags, lo, mid - 1 - lo);
    var e1 := FoldsToMove(e, e', lo, mid, REG_X, k, flags);
    FoldsMoveX(e, e1, lo, mid, k, flags, flags1);
    r := Folded(if k == DATA_LEN then Stmt(LDX_W_LEN, 0) else Stmt(LDX_IMM, k), mid - 1 - lo, e1, flags1);
    DecodeLoads(k);
    FoldsAlone(p, addr, e, e', flags, g, r, mid - 1 - lo);
  }

  lemma FoldsReturnK(p: seq<Filter>, addr: seq<nat>, e: seq<Insn>, e': seq<Insn>, flags: seq<Flag>, g: nat)
    returns (r: Folded)
    requires AtHead(p, addr, e, e', flags, g) && Decode(p[g]).ReturnK?
    ensures FoldGroup(e', addr[g], flags) == Some(r) && FoldsRight(p, addr, e, e', flags, g, r)
  {
    hide FoldGroup, FoldMove, IsMigration, MovesK, Targets, Decode, Unfolded, FoldsRight;
    LoadGroup(p, addr, e, g);
    var lo, mid, k := addr[g], addr[g + 1] - 1, Decode(p[g]).k;
    var flags1 := AddFold(flags, lo, mid - 1 - lo);
    var e1 := FoldsToMove(e, e', lo, mid, REG_A, k, flags);
    FoldsMoveA(e, e1, lo, mid, k, flags, flags1);
    StartFold(addr, Targets(p, g), lo, flags, mid - 1 - lo);
    NotBetween(addr, Targets(p, g), g, mid);
    r := Folded(Stmt(RET_K, k), mid - lo, e1, flags1);
    DecodeLoads(k);
    UnfoldedLater(e, e1, mid, addr[g + 1]);
    FoldsAlone(p, addr, e, e', flags, g, r, mid - 1 - lo);
  }

  lemma FoldsExit(e: seq<Insn>, lo: nat, flags: seq<Flag>)
    requires lo < |e| && e[lo].code == JMP_EXIT && FlagAt(flags, lo).fold == 0
    ensures FoldGroup(e, lo, flags) == Some(Folded(Stmt(RET_A, 0), 0, e, flags))
    ensures Decode(Stmt(RET_A, 0)) == ReturnA
  {
    FoldsPlain(e, lo, flags);
    hide FoldGroup;
  }

  lemma FoldsJa(e: seq<Insn>, lo: nat, flags: seq<Flag>)
    requires lo < |e| && e[lo].code == JMP_JA && FlagAt(flags, lo).fold == 0
    ensures FoldGroup(e, lo, flags) == Some(Folded(Stmt(JMP_JA, 1), 0, e, Mark(flags, Target(e, lo))))
    ensures Decode(Stmt(JMP_JA, 1)) == Goto(1)
  {
    FoldsPlain(e, lo, flags);
    hide FoldGroup;
  }

  lemma FoldsReturnA(p: seq<Filter>, addr: seq<nat>, e: seq<Insn>, e': seq<Insn>, flags: seq<Flag>, g: nat)
    returns (r: Folded)
    requires AtHead(p, addr, e, e', flags, g) && Decode(p[g]).ReturnA?
    ensures FoldGroup(e', addr[g], flags) == Some(r) && FoldsRight(p, addr, e, e', flags, g, r)
  {
    hide FoldGroup, IsMigration, Targets, Decode, FoldsRight;
    ExitGroup(p, addr, e, g);
    r := Folded(Stmt(RET_A, 0), 0, e', flags);
    FoldsExit(e', addr[g], flags);
    UnfoldedLater(e, e', addr[g], addr[g + 1]);
    AddFolds(flags, addr[g], 0, 0);
    FoldsAlone(p, addr, e, e', flags, g, r, 0);
  }

  lemma FoldsGoto(p: seq<Filter>, addr: seq<nat>, e: seq<Insn>, e': seq<Insn>, flags: seq<Flag>, g: nat)
    returns (r: Folded)
    requires AtHead(p, addr, e, e', flags, g) && Decode(p[g]).Goto?
    ensures FoldGroup(e', addr[g], flags) == Some(r) && FoldsRight(p, addr, e, e', flags, g, r)
  {
    hide FoldGroup, IsMigration, Targets, Decode, FlagsFor;
    JumpGroup(p, addr, e, g);
    var to := g + 1 + Decode(p[g]).k;
    r := Folded(Stmt(JMP_JA, 1), 0, e', Mark(flags, Target(e, addr[g])));
    HeadUnfolded(addr, Targets(p, g), addr[g], flags);
    FoldsJa(e', addr[g], flags);
    UnfoldedLater(e, e', addr[g], addr[g + 1]);
    NextTargets(p, g);
    MarkAdds(addr, Targets(p, g), addr[g], flags, to);
    FlagsLater(addr, Targets(p, g + 1), addr[g], addr[g + 1], r.flags);
  }

  lemma ArithBits(op: AluOp)
    ensures var c := ALU | op.Code();
            && c & CLASS_MASK == ALU && (c | SRC_X) & CLASS_MASK == ALU
            && c & OP_MASK == (c | SRC_X) & OP_MASK == op.Code() && op.Code() != MOV
            && (op.Code() == XOR) == (op == Xor)
            && c & SRC_X == 0 && (c | SRC_X) & SRC_X == SRC_X && (c | SRC_X) & !SRC_X == c
  {
    match op
    case _ =>
  }

  lemma DecodeArith(op: AluOp, b: Operand, k: u32)
    ensures Decode(Stmt(ALU | op.Code() | b.Src(), k)) == Arith(op, if b.RegX? then RegX else K(k))
  {
    match op
    case _ =>
  }

  lemma FoldsPlainArith(e: seq<Insn>, lo: nat, op: AluOp, b: Operand, flags: seq<Flag>)
    requires lo < |e| && e[lo].code == ALU | op.Code() | b.Src() && !(b.RegX? && e[lo].src == e[lo].dst)
    ensures FoldGroup(e, lo, flags) == Some(Folded(Stmt(e[lo].code, e[lo].imm), 0, e, flags))
  {
    ArithBits(op);
    assert ALU | op.Code() | 0 == ALU | op.Code();
    hide AluOp.Code, FoldJump, FoldMove;
  }

  lemma FoldsBlindedArith(e: seq<Insn>, lo: nat, op: AluOp, flags: seq<Flag>)
    requires lo + 2 < |e|
    requires e[lo].code == ALU | MOV && e[lo].dst == REG_AX
    requires e[lo + 2].code == ALU | op.Code() | SRC_X
    ensures FoldGroup(e, lo, flags)
         == Some(Folded(Stmt(ALU | op.Code(), Xor32(e[lo].imm, e[lo + 1].imm)), 2, Unblind(e, lo), AddFold(flags, lo, 2)))
  {
    ArithBits(op);
    hide AluOp.Code, FoldJump, FoldMove;
  }

  lemma ArithGroup(p: seq<Filter>, addr: seq<nat>, e: seq<Insn>, g: nat)
    requires IsMigration(p, addr, e) && g < |p| && Decode(p[g]).Arith?
    ensures |addr| == |p| + 1 && addr[g] < addr[g + 1] <= |e|
    ensures var i, lo, hi := Decode(p[g]), addr[g], addr[g + 1];
            if i.operand.K? then ComputesK(i.op, i.operand.k, e, lo, hi)
            else if i.op == Div then DividesX(e, lo, hi)
            else One(e, lo, hi, ALU | i.op.Code() | SRC_X, REG_A, REG_X)
  {
    hide Decode, ComputesK, DividesX, One;
    assert GroupAt(p, addr, e, g);
  }

  lemma FoldsArith(p: seq<Filter>, addr: seq<nat>, e: seq<Insn>, e': seq<Insn>, flags: seq<Flag>, g: nat)
    returns (r: Folded)
    requires AtHead(p, addr, e, e', flags, g) && Decode(p[g]).Arith? && Decode(p[g]) != Arith(Div, RegX)
    ensures FoldGroup(e', addr[g], flags) == Some(r) && FoldsRight(p, addr, e, e', flags, g, r)
  {
    hide FoldGroup, IsMigration, Targets, Decode, FoldsRight, AluOp.Code, FlagsFor;
    ArithGroup(p, addr, e, g);
    var lo, hi, i := addr[g], addr[g + 1], Decode(p[g]);
    if i.operand.K? && hi == lo + 3 {
      r := BlindedArith(i.op, i.operand.k, e, e', flags, lo);
    } else {
      r := PlainArith(i.op, i.operand, e, e', flags, lo);
    }
    AddFolds(flags, lo, 0, 0);
    FoldsAlone(p, addr, e, e', flags, g, r, hi - 1 - lo);
  }

  lemma BlindedArith(op: AluOp, k: u32, e: seq<Insn>, e': seq<Insn>, flags: seq<Flag>, lo: nat) returns (r: Folded)
    requires ComputesK(op, k, e, lo, lo + 3) && Unfolded(e, e', lo)
    ensures FoldGroup(e', lo, flags) == Some(r) && Unfolded(e, r.e, lo + 3) && |r.e| == |e'|
    ensures r.ate == 2 && r.flags == AddFold(flags, lo, 2) && Holds(r.f, Arith(op, K(k)))
  {
    assert e'[lo] == e[lo] && e'[lo + 1] == e[lo + 1] && e'[lo + 2] == e[lo + 2];
    hide FoldGroup, Decode, AluOp.Code;
    DecodeArith(op, K(k), k);
    assert ALU | op.Code() | 0 == ALU | op.Code();
    EditedUnfolded(e, e', lo, lo + 2);
    FoldsBlindedArith(e', lo, op, flags);
    r := Folded(Stmt(ALU | op.Code(), k), 2, Unblind(e', lo), AddFold(flags, lo, 2));
  }

  lemma PlainArith(op: AluOp, b: Operand, e: seq<Insn>, e': seq<Insn>, flags: seq<Flag>, lo: nat) returns (r: Folded)
    requires lo < |e| && Unfolded(e, e', lo)
    requires if b.K? then ComputesK(op, b.k, e, lo, lo + 1) else One(e, lo, lo + 1, ALU | op.Code() | SRC_X, REG_A, REG_X)
    ensures FoldGroup(e', lo, flags) == Some(r) && Unfolded(e, r.e, lo + 1) && |r.e| == |e'|
    ensures r.ate == 0 && r.flags == flags && Holds(r.f, Arith(op, b))
  {
    assert e'[lo] == e[lo];
    hide FoldGroup, Decode, AluOp.Code;
    DecodeArith(op, b, e'[lo].imm);
    assert ALU | op.Code() | 0 == ALU | op.Code();
    FoldsPlainArith(e', lo, op, b, flags);
    r := Folded(Stmt(e'[lo].code, e'[lo].imm), 0, e', flags);
  }

  lemma FoldsGuard(e: seq<Insn>, lo: nat, hi: nat, flags: seq<Flag>)
    requires DividesX(e, lo, hi)
    ensures FoldGroup(e, lo, flags) == Some(Folded(Stmt(ALU | DIV | SRC_X, 0), hi - 1 - lo, e, flags))
    ensures Decode(Stmt(ALU | DIV | SRC_X, 0)) == Arith(Div, RegX)
  {
    hide FoldJump;
  }

  lemma FoldsDivide(p: seq<Filter>, addr: seq<nat>, e: seq<Insn>, e': seq<Insn>, flags: seq<Flag>, g: nat)
    returns (r: Folded)
    requires AtHead(p, addr, e, e', flags, g) && Decode(p[g]) == Arith(Div, RegX)
    ensures FoldGroup(e', addr[g], flags) == Some(r) && FoldsRight(p, addr, e, e', flags, g, r)
  {
    hide FoldGroup, IsMigration, Targets, Decode, FoldsRight, FlagsFor;
    ArithGroup(p, addr, e, g);
    var lo, hi := addr[g], addr[g + 1];
    assert DividesX(e', lo, hi) by {
      assert forall x :: lo <= x < hi ==> e'[x] == e[x];
    }
    hide DividesX;
    FoldsGuard(e', lo, hi, flags);
    r := Folded(Stmt(ALU | DIV | SRC_X, 0), hi - 1 - lo, e', flags);
    UnfoldedLater(e, e', lo, hi);
    AddFolds(flags, lo, 0, 0);
    FoldsAlone(p, addr, e, e', flags, g, r, 0);
  }

  predicate IsMove(i: Instr) {
    i.LoadAbs? || i.LoadMem? || i.Store? || i.Tax? || i.Txa? || i.Neg?
  }

  /** The word a move, load, store or negation is folded into. */
  function MoveWord(i: Instr, imm: u32): Filter
    requires IsMove(i)
  {
    match i
    case LoadAbs(k) => Stmt(LD_W_ABS, k)
    case LoadMem(r, k) => Stmt(if r == A then LD_MEM else LDX_MEM, k)
    case Store(r, k) => Stmt(if r == A then ST else STX, k)
    case Tax => Stmt(MISC_TAX, 0)
    case Txa => Stmt(MISC_TXA, 0)
    case Neg => Stmt(ALU_NEG, imm)
  }

  lemma MoveWordHolds(i: Instr, imm: u32)
    requires IsMove(i)
    ensures Holds(MoveWord(i, imm), i)
  {
  }

  lemma MoveGroup(i: Instr, g: nat, addr: seq<nat>, e: seq<Insn>, lo: nat, hi: nat, e': seq<Insn>, flags: seq<Flag>)
    requires |addr| > 0 && ValidInstr(i, g, |addr| - 1) && IsGroup(i, g, addr, e, lo, hi) && IsMove(i)
    requires |e'| > lo && e'[lo] == e[lo]
    ensures hi == lo + 1 && FoldGroup(e', lo, flags) == Some(Folded(MoveWord(i, e'[lo].imm), 0, e', flags))
  {
    hide FoldJump;
    if i.LoadAbs? || i.LoadMem? || i.Store? {
      hide FoldAlu, StackOff, ScratchIndex;
      StackIndexes();
    } else if i.Neg? {
      hide FoldMove;
    }
  }

  lemma StackIndexes()
    ensures forall k :: 0 <= k < MEMWORDS ==> ScratchIndex(StackOff(k)) == k
  {
  }

  lemma FoldsMoves(p: seq<Filter>, addr: seq<nat>, e: seq<Insn>, e': seq<Insn>, flags: seq<Flag>, g: nat)
    returns (r: Folded)
    requires AtHead(p, addr, e, e', flags, g) && IsMove(Decode(p[g]))
    ensures FoldGroup(e', addr[g], flags) == Some(r) && FoldsRight(p, addr, e, e', flags, g, r)
  {
    assert GroupAt(p, addr, e, g);
    var lo, i := addr[g], Decode(p[g]);
    assert e'[lo] == e[lo];
    hide FoldGroup, IsMigration, Targets, Decode, FoldsRight, FlagsFor, IsGroup, MoveWord, Holds;
    MoveGroup(i, g, addr, e, lo, addr[g + 1], e', flags);
    MoveWordHolds(i, e'[lo].imm);
    r := Folded(MoveWord(i, e'[lo].imm), 0, e', flags);
    UnfoldedLater(e, e', lo, lo + 1);
    AddFolds(flags, lo, 0, 0);
    FoldsAlone(p, addr, e, e', flags, g, r, 0);
  }

  /** Every group of a migration folds as it should. */
  lemma FoldsHead(p: seq<Filter>, addr: seq<nat>, e: seq<Insn>, e': seq<Insn>, flags: seq<Flag>, g: nat)
    returns (r: Folded)
    requires AtHead(p, addr, e, e', flags, g)
    ensures FoldGroup(e', addr[g], flags) == Some(r) && FoldsRight(p, addr, e, e', flags, g, r)
  {
    assert GroupAt(p, addr, e, g);
    hide FoldGroup, FoldsRight, IsMigration, Decode, Targets, IsGroup;
    var i := Decode(p[g]);
    assert !i.Illegal?;
    if LoadsA(i) {
      r := FoldsLoadA(p, addr, e, e', flags, g);
    } else if i.LoadImm? || i.LoadLen? {
      r := FoldsLoadX(p, addr, e, e', flags, g);
    } else if i.ReturnK? {
      r := FoldsReturnK(p, addr, e, e', flags, g);
    } else if i.ReturnA? {
      r := FoldsReturnA(p, addr, e, e', flags, g);
    } else if i.Goto? {
      r := FoldsGoto(p, addr, e, e', flags, g);
    } else if i.Branch? {
      r := FoldsBranch(p, addr, e, e', flags, g);
    } else if i == Arith(Div, RegX) {
      r := FoldsDivide(p, addr, e, e', flags, g);
    } else if i.Arith? {
      r := FoldsArith(p, addr, e, e', flags, g);
    } else {
      r := FoldsMoves(p, addr, e, e', flags, g);
    }
  }

  // ----- the whole pass -----

  /** Slot `addr[g]` holds what group `g` was folded into. */
  predicate Placed(p: seq<Filter>, addr: seq<nat>, e: seq<Insn>, b: Buffers, g: nat)
    requires g < |p| && |addr| == |p| + 1
  {
    && addr[g] < |b.c| && addr[g] !in b.holes && Holds(b.c[addr[g]], FirstFold(p, g))
    && (Decode(p[g]).Branch? || Decode(p[g]).Goto? ==>
          FlagAt(b.flags, addr[g]).fold == FoldOf(Decode(p[g]), e, addr[g]))
  }

  predicate IsHead(p: seq<Filter>, g: nat) {
    g < |p| && !Merged(p, g)
  }

  /** Before `addr[g]`, the slots of heads are placed and all others are holes. */
  predicate FoldedTo(p: seq<Filter>, addr: seq<nat>, e: seq<Insn>, b: Buffers, g: nat)
    requires g < |addr| == |p| + 1
  {
    && (forall h :: 0 <= h < g && IsHead(p, h) ==> Placed(p, addr, e, b, h))
    && (forall x :: x in b.holes ==> x < addr[g])
    && (forall x :: 0 <= x < addr[g] && x !in b.holes ==> exists h :: 0 <= h < g && IsHead(p, h) && addr[h] == x)
  }

  lemma NextIsHead(p: seq<Filter>, g: nat)
    requires IsHead(p, g) && NextHead(p, g) <= |p|
    ensures NextHead(p, g) < |p| ==> IsHead(p, NextHead(p, g))
  {
    if Merged(p, g + 1) {
      assert !LoadsA(Decode(p[g + 1])) && !Decode(p[g + 1]).Branch?;
    }
  }

  lemma PutsPlaced(p: seq<Filter>, addr: seq<nat>, e: seq<Insn>, b: Buffers, g: nat, r: Folded, h: nat)
    requires Increasing(addr) && |addr| == |p| + 1 && g < |p| && NextHead(p, g) <= |p|
    requires addr[g] < |b.c| && addr[g] < |b.flags|
    requires FoldedTo(p, addr, e, b, g) && IsHead(p, g)
    requires FoldsRight(p, addr, e, b.e, b.flags, g, r)
    requires h < NextHead(p, g) && IsHead(p, h)
    ensures Placed(p, addr, e, Put(b, addr[g], r), h)
  {
    hide FlagsFor, Unfolded, Decode, FirstFold, Targets, FoldOf;
    if h < g {
      assert Placed(p, addr, e, b, h);
    } else {
      assert h == g;
    }
  }

  lemma PutsFolded(p: seq<Filter>, addr: seq<nat>, e: seq<Insn>, b: Buffers, g: nat, r: Folded)
    requires Increasing(addr) && |addr| == |p| + 1 && g < |p| && NextHead(p, g) <= |p|
    requires addr[g] < |b.c| && addr[g] < |b.flags|
    requires FoldedTo(p, addr, e, b, g) && IsHead(p, g)
    requires FoldsRight(p, addr, e, b.e, b.flags, g, r)
    ensures FoldedTo(p, addr, e, Put(b, addr[g], r), NextHead(p, g))
  {
    hide FlagsFor, Unfolded, Decode, FirstFold, Targets, Merged, RightFlags, Holds;
    var b', n := Put(b, addr[g], r), NextHead(p, g);
    forall h | 0 <= h < n && IsHead(p, h) ensures Placed(p, addr, e, b', h) {
      PutsPlaced(p, addr, e, b, g, r, h);
    }
    forall x | 0 <= x < addr[n] && x !in b'.holes ensures exists h :: 0 <= h < n && IsHead(p, h) && addr[h] == x {
      if x >= addr[g] {
        assert x == addr[g];
      } else {
        assert x !in b.holes;
        var h :| 0 <= h < g && IsHead(p, h) && addr[h] == x;
      }
    }
  }

  /** The buffers once the first pass has come to the start of group `g`. */
  predicate ReachesGroup(p: seq<Filter>, addr: seq<nat>, e: seq<Insn>, b: Buffers, g: nat) {
    && IsMigration(p, addr, e) && Increasing(addr) && g <= |p|
    && |e| <= |b.c| && |b.flags| == |e| + FLAG_SLACK
    && Unfolded(e, b.e, addr[g]) && FlagsFor(addr, Targets(p, g), addr[g], b.flags)
    && FoldedTo(p, addr, e, b, g)
  }

  lemma {:induction false} FoldPassRight(p: seq<Filter>, addr: seq<nat>, e: seq<Insn>, b: Buffers, g: nat)
    returns (b': Buffers)
    requires ReachesGroup(p, addr, e, b, g) && (g < |p| ==> IsHead(p, g))
    ensures FoldPass(b, addr[g], |e|) == Some(b') && ReachesGroup(p, addr, e, b', |p|)
    ensures |b'.c| == |b.c|
    decreases |p| - g
  {
    assert addr[|p|] == |e|;
    if g < |p| {
      hide FoldGroup, Decode, Targets, FlagsFor, Unfolded, GroupAt, FoldedTo, Merged, RightFlags;
      var r := FoldsHead(p, addr, e, b.e, b.flags, g);
      NextIsHead(p, g);
      PutsFolded(p, addr, e, b, g, r);
      RightFlagsFor(p, addr, e, b.flags, g, r);
      b' := FoldPassRight(p, addr, e, Put(b, addr[g], r), NextHead(p, g));
    } else {
      b' := b;
    }
  }

  lemma {:induction false} RightFlagsFor(p: seq<Filter>, addr: seq<nat>, e: seq<Insn>, flags: seq<Flag>, g: nat, r: Folded)
    requires g < |p| && |addr| == |p| + 1 && RightFlags(p, addr, e, flags, g, r)
    ensures var h := NextHead(p, g);
            h <= |p| && |r.flags| == |flags| && FlagsFor(addr, Targets(p, h), addr[h], r.flags)
  {
  }
}
