/** What the three passes of the eBPF-to-classic recovery compute, as functions on values:
    fold groups of eBPF instructions, relocate jumps, discard the holes. */
module Recovery {
  import opened Word
  import opened Bpf
  import opened Ebpf
  import opened Migration

  /** `fold`: how far the jump lies behind the slot its folded instruction is put in;
      `targeted`: an earlier jump lands here. */
  datatype Flag = Flag(fold: nat, targeted: bool)

  /** The buffers of the recovery; `holes` is the set of slots to be discarded. */
  datatype Buffers = Buffers(e: seq<Insn>, flags: seq<Flag>, c: seq<Filter>, holes: set<nat>)

  /** One folded group: its classic instruction, how many slots behind it are used up, and
      the eBPF instructions and flags as the folding leaves them. */
  datatype Folded = Folded(f: Filter, ate: nat, e: seq<Insn>, flags: seq<Flag>)

  function FlagAt(flags: seq<Flag>, i: int): Flag {
    if 0 <= i < |flags| then flags[i] else Flag(0, false)
  }

  function Mark(flags: seq<Flag>, i: int): (r: seq<Flag>)
    ensures |r| == |flags|
  {
    if 0 <= i < |flags| then flags[i := flags[i].(targeted := true)] else flags
  }

  function AddFold(flags: seq<Flag>, i: nat, n: nat): (r: seq<Flag>)
    ensures |r| == |flags|
  {
    if i < |flags| then flags[i := flags[i].(fold := flags[i].fold + n)] else flags
  }

  predicate SameSizes(e: seq<Insn>, flags: seq<Flag>, r: Folded) {
    |r.e| == |e| && |r.flags| == |flags|
  }

  predicate IsSingleOp(op: bv16) {
    op == JNE || op == JLE || op == JLT
  }

  /** A jump with one arm; an inverted comparison gets its code and its arm exchanged. */
  function SingleArm(op: bv16, code: bv16, k: u32): Option<Filter> {
    if op == JEQ || op == JGT || op == JGE || op == JSET then Some(Filter(code, 1, 0, k))
    else if op == JNE then Some(Filter((code & !JNE) | JEQ, 0, 1, k))
    else if op == JLE then Some(Filter((code & !JLE) | JGT, 0, 1, k))
    else if op == JLT then Some(Filter((code & !JLT) | JGE, 0, 1, k))
    else None
  }

  /** The code and constant of a jump that may compare with a constant from TMP. */
  function JumpCode(insn: Insn, largeK: u32): bv16 {
    if largeK != 0 then insn.code & !SRC_X else insn.code
  }

  function JumpK(insn: Insn, largeK: u32): u32 {
    if largeK != 0 then largeK else insn.imm
  }

  /** The instruction at `i + fold` as a jump; `largeK` is the constant it compares with when
      that was moved to TMP first. */
  function FoldJump(e: seq<Insn>, i: nat, largeK: u32, ate: nat, flags: seq<Flag>): (r: Option<Folded>)
    ensures r.Some? ==> SameSizes(e, flags, r.value) && r.value.ate <= ate + 1
  {
    var j := i + FlagAt(flags, i).fold;
    var insn, ja := At(e, j), At(e, j + 1);
    var op := insn.code & OP_MASK;
    if op == JMP_EXIT & OP_MASK then Some(Folded(Stmt(RET_A, 0), ate, e, flags))
    else if op == JMP_JA & OP_MASK then
      Some(Folded(Stmt(JMP_JA, 1), ate, e, Mark(flags, i + insn.off + 1)))
    else
      var code, k := JumpCode(insn, largeK), JumpK(insn, largeK);
      var marked := Mark(flags, j + insn.off + 1);
      if ja.code == JMP_JA && !FlagAt(marked, j + 1).targeted && !IsSingleOp(op) then
        Some(Folded(Filter(code, 1, 1, k), ate + 1, e, Mark(marked, j + 1 + ja.off + 1)))
      else
        match SingleArm(op, code, k)
        case None => None
        case Some(f) => Some(Folded(f, ate, e, marked))
  }

  /** MOV X X at `j`, which must start the guard of a division by X. */
  function FoldDivide(e: seq<Insn>, j: nat, ate: nat, flags: seq<Flag>): (r: Option<Folded>)
    ensures r.Some? ==> SameSizes(e, flags, r.value) && r.value.ate <= ate + 6
  {
    var plain := At(e, j + 1).code == JMP | JNE;
    var x := if plain then j + 2 else j + 4;
    if !plain && (At(e, j + 1).code != ALU64 | MOV || At(e, j + 2).code != ALU64 | XOR
                  || At(e, j + 3).code != JMP | JNE | SRC_X || At(e, j + 3).src != REG_AX) then None
    else if At(e, x).code != ALU | XOR | SRC_X || At(e, x + 1).code != JMP_EXIT then None
    else Some(Folded(Stmt(ALU | DIV | SRC_X, 0), ate + (if plain then 4 else 6), e, flags))
  }

  /** MOV TMP K at `j`, which must load the constant of the jump behind it. */
  function FoldLargeK(e: seq<Insn>, i: nat, j: nat, ate: nat, flags: seq<Flag>): (r: Option<Folded>)
    ensures r.Some? ==> SameSizes(e, flags, r.value) && r.value.ate <= ate + 2
  {
    if At(e, j + 1).code & CLASS_MASK != JMP then None
    else FoldJump(e, i, At(e, j).imm, ate + 1, AddFold(flags, i, 1))
  }

  /** MOV A K at `j`: a return when an EXIT follows that nothing jumps to. */
  function FoldMoveA(e: seq<Insn>, i: nat, j: nat, ate: nat, flags: seq<Flag>): (r: Folded)
    ensures SameSizes(e, flags, r) && r.ate <= ate + 1
  {
    var k := At(e, j).imm;
    if At(e, j + 1).code == JMP_EXIT && !FlagAt(flags, j + 1).targeted then
      Folded(Stmt(RET_K, k), ate + 1, e, flags)
    else
      Folded(if k == DATA_LEN then Stmt(LD_W_LEN, 0) else Stmt(LD_IMM, k), ate, e, flags)
  }

  function FoldMove(e: seq<Insn>, i: nat, j: nat, ate: nat, flags: seq<Flag>): (r: Option<Folded>)
    ensures r.Some? ==> SameSizes(e, flags, r.value) && r.value.ate <= ate + 6
  {
    var insn := At(e, j);
    if insn.code & CLASS_MASK == ALU64 && insn.code & SRC_X == SRC_X && (insn.src == REG_X || insn.dst == REG_X) then
      Some(Folded(Stmt(if insn.src == REG_A then MISC_TAX else MISC_TXA, 0), ate, e, flags))
    else if insn.dst == REG_A && insn.src == 0 then Some(FoldMoveA(e, i, j, ate, flags))
    else if insn.dst == REG_X && insn.src == 0 then
      Some(Folded(if insn.imm == DATA_LEN then Stmt(LDX_W_LEN, 0) else Stmt(LDX_IMM, insn.imm), ate, e, flags))
    else if insn.dst == REG_X && insn.src == REG_X then FoldDivide(e, j, ate, flags)
    else if insn.dst == REG_TMP && insn.src == 0 then FoldLargeK(e, i, j, ate, flags)
    else None
  }

  /** MOV AX K; XOR AX K; insn: give `insn` its constant back. */
  function Unblind(e: seq<Insn>, i: nat): (r: seq<Insn>)
    ensures |r| == |e|
  {
    var insn := At(e, i + 2);
    SetInsn(e, i + 2, insn.(imm := Xor32(At(e, i).imm, At(e, i + 1).imm), code := insn.code & !SRC_X, src := 0))
  }

  function SetInsn(e: seq<Insn>, i: nat, insn: Insn): (r: seq<Insn>)
    ensures |r| == |e|
  {
    if i < |e| then e[i := insn] else e
  }

  function FoldUnblinded(e: seq<Insn>, i: nat, ate: nat, flags: seq<Flag>): (r: Option<Folded>)
    ensures r.Some? ==> SameSizes(e, flags, r.value) && r.value.ate <= ate + 6
  {
    var insn := At(e, i + ate);
    if insn.code & CLASS_MASK == JMP then FoldJump(e, i, 0, ate, flags)
    else if insn.code & OP_MASK == MOV then FoldMove(e, i, i + ate, ate, flags)
    else Some(Folded(Stmt(insn.code, insn.imm), ate, e, flags))
  }

  function FoldAlu(e: seq<Insn>, i: nat, flags: seq<Flag>): (r: Option<Folded>)
    ensures r.Some? ==> SameSizes(e, flags, r.value) && r.value.ate <= 8
  {
    var insn := At(e, i);
    if insn.code & OP_MASK == MOV && insn.dst == REG_AX then
      FoldUnblinded(Unblind(e, i), i, 2, AddFold(flags, i, 2))
    else if insn.code & OP_MASK == XOR && insn.code & SRC_X == SRC_X && insn.src == insn.dst then
      FoldUnblinded(SetInsn(e, i, insn.(src := 0, code := ALU | MOV)), i, 0, flags)
    else FoldUnblinded(e, i, 0, flags)
  }

  /** A C conversion to an unsigned 32-bit number. */
  function Wrap32(x: int): u32 {
    x % U32
  }

  function Wrap8(x: int): u8 {
    x % 0x100
  }

  /** The scratch word for a stack offset, by C's division towards zero. */
  function ScratchIndex(off: int): u32 {
    var x := -off - 4;
    Wrap32(if x >= 0 then x / 4 else -(-x / 4))
  }

  /** The group that starts at `i`. */
  function FoldGroup(e: seq<Insn>, i: nat, flags: seq<Flag>): (r: Option<Folded>)
    ensures r.Some? ==> SameSizes(e, flags, r.value) && r.value.ate <= 8
  {
    var insn := At(e, i);
    var cls := insn.code & CLASS_MASK;
    if cls == LDX_W & CLASS_MASK then
      if insn.src == REG_CTX then Some(Folded(Stmt(LD_W_ABS, Wrap32(insn.off)), 0, e, flags))
      else if insn.src == REG_FP then
        Some(Folded(Stmt(if insn.dst == REG_A then LD_MEM else LDX_MEM, ScratchIndex(insn.off)), 0, e, flags))
      else None
    else if cls == STX_W & CLASS_MASK then
      Some(Folded(Stmt(if insn.src == REG_A then ST else STX, ScratchIndex(insn.off)), 0, e, flags))
    else if cls == ALU || cls == ALU64 then FoldAlu(e, i, flags)
    else if cls == JMP then FoldJump(e, i, 0, 0, flags)
    else None
  }

  /** The slots from `i` on, `n` of them. */
  function Span(i: nat, n: nat): (r: set<nat>)
    ensures forall x :: x in r <==> i <= x < i + n
  {
    if n == 0 then {} else Span(i, n - 1) + {i + n - 1}
  }

  function Put(b: Buffers, i: nat, r: Folded): (b': Buffers)
    requires i < |b.c|
    ensures |b'.c| == |b.c| && b'.e == r.e
  {
    Buffers(r.e, r.flags, b.c[i := r.f], b.holes + Span(i + 1, r.ate))
  }

  /** First pass: fold the groups from `i` on. */
  function FoldPass(b: Buffers, i: nat, len: nat): (r: Option<Buffers>)
    requires len <= |b.c|
    ensures r.Some? ==> |r.value.c| == |b.c| && |r.value.e| == |b.e|
    decreases len - i
  {
    if i >= len then Some(b)
    else
      match FoldGroup(b.e, i, b.flags)
      case None => None
      case Some(r) => FoldPass(Put(b, i, r), i + r.ate + 1, len)
  }

  /** How many holes there are in `[from, to)`. */
  function Count(holes: set<nat>, from: nat, to: int): nat
    decreases to - from
  {
    if to <= from then 0
    else Count(holes, from, to - 1) + (if to - 1 in holes then 1 else 0)
  }

  /** The live slots between slot `i` and where its own eBPF jump, `fold` behind it, leads. */
  function NearSlots(b: Buffers, holes: set<nat>, i: nat): int {
    var fold := FlagAt(b.flags, i).fold;
    var off := At(b.e, i + fold).off;
    off - Count(holes, i, i + fold + 1 + off) + fold
  }

  /** The live slots between it and where the JA behind that jump leads. */
  function FarSlots(b: Buffers, i: nat): u32 {
    var ja := i + FlagAt(b.flags, i).fold + 1;
    var off := At(b.e, ja).off;
    Wrap32(off - Count(b.holes, ja, ja + off + 1) + 1)
  }

  /** Both arms of a jump, or the true arm and a JA in a slot of its own when that is too far. */
  function RelocateTwo(b: Buffers, i: nat): (b': Buffers)
    requires i < |b.c|
    ensures |b'.c| == |b.c| && b'.e == b.e && b'.flags == b.flags
  {
    var f, far, ja := b.c[i], FarSlots(b, i), i + FlagAt(b.flags, i).fold + 1;
    if far > 255 && ja < |b.c| then
      var holes := b.holes - {ja};
      Buffers(b.e, b.flags, b.c[ja := Stmt(JMP_JA, far)][i := f.(jt := Wrap8(NearSlots(b, holes, i)), jf := 0)], holes)
    else
      b.(c := b.c[i := f.(jt := Wrap8(NearSlots(b, b.holes, i)), jf := Wrap8(far))])
  }

  /** The one arm of a jump, or the distance of a JA. */
  function RelocateOne(b: Buffers, i: nat): (b': Buffers)
    requires i < |b.c|
    ensures |b'.c| == |b.c| && b'.e == b.e && b'.flags == b.flags
  {
    var f, near := b.c[i], NearSlots(b, b.holes, i);
    var off := At(b.e, i + FlagAt(b.flags, i).fold).off;
    b.(c := b.c[i := if f.jt != 0 then f.(jt := Wrap8(near))
                     else if f.jf != 0 then f.(jf := Wrap8(near))
                     else f.(k := Wrap32(off - Count(b.holes, i, i + 1 + off)))])
  }

  /** The jump at slot `i` with its arms counted in live slots. */
  function RelocateAt(b: Buffers, i: nat): (b': Buffers)
    ensures |b'.c| == |b.c| && b'.e == b.e && b'.flags == b.flags
  {
    if i >= |b.c| || i in b.holes || b.c[i].code & CLASS_MASK != JMP then b
    else if b.c[i].jt != 0 && b.c[i].jf != 0 then RelocateTwo(b, i)
    else RelocateOne(b, i)
  }

  /** Second pass: relocate the jumps from slot `i` down to the prologue. */
  function RelocatePass(b: Buffers, i: int): (b': Buffers)
    ensures |b'.c| == |b.c|
    decreases i
  {
    if i < PROLOGUE then b else RelocatePass(RelocateAt(b, i), i - 1)
  }

  /** Third pass: the slots in `[i, len)` that are no holes, in order. */
  function Compress(c: seq<Filter>, holes: set<nat>, i: nat, len: nat): seq<Filter>
    requires len <= |c|
    decreases len - i
  {
    if i >= len then []
    else (if i in holes then [] else [c[i]]) + Compress(c, holes, i + 1, len)
  }

  /** A jump of the first `len` instructions that leaves them. */
  predicate JumpsInRange(e: seq<Insn>, len: nat)
    requires len <= |e|
  {
    forall i :: 0 <= i < len && IsJumpClass(e[i].code) ==> e[i].off >= 0 && i + 1 + e[i].off < len
  }

  predicate IsJumpClass(code: bv16) {
    (code & CLASS_MASK == JMP || code & CLASS_MASK == JMP32) && code & OP_MASK != JMP_EXIT & OP_MASK
  }

  /** The prologue as far as it is checked. */
  predicate StartsOk(e: seq<Insn>) {
    && At(e, 0).code & CLASS_MASK == ALU && At(e, 0).code & OP_MASK == XOR
    && At(e, 1).code & CLASS_MASK == ALU && At(e, 1).code & OP_MASK == XOR
    && At(e, 2).code & CLASS_MASK == ALU64 && At(e, 2).code & OP_MASK == MOV
  }

  /** How many flags there are more than instructions. */
  const FLAG_SLACK := 10

  /** The whole recovery of the first `len` instructions of `e` into the buffer `c`. */
  function Recover(e: seq<Insn>, len: nat, c: seq<Filter>): Option<seq<Filter>>
    requires len <= |e| && len <= |c|
  {
    if !JumpsInRange(e, len) || !StartsOk(e) then None
    else
      var start := Buffers(e, seq(len + FLAG_SLACK, _ => Flag(0, false)), c, Span(0, PROLOGUE));
      match FoldPass(start, PROLOGUE, len)
      case None => None
      case Some(b) =>
        var b' := RelocatePass(b, len - 1);
        Some(Compress(b'.c, b'.holes, PROLOGUE, len))
  }
}
