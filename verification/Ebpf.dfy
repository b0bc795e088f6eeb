/** The eBPF machine (RFC 9669, sections 4.1, 4.3 and 5.1) restricted to the instructions
    that a migrated seccomp filter is made of, with the kernel's auxiliary register AX. */
module Ebpf {
  import opened Word
  import opened Bpf

  datatype Insn = Insn(code: bv16, dst: nat, src: nat, off: int, imm: u32)

  const ZERO_INSN := Insn(0, 0, 0, 0, 0)

  const REG_A := 0
  const REG_ARG1 := 1
  const REG_TMP := 2
  const REG_CTX := 6
  const REG_X := 7
  const REG_FP := 10
  const REG_AX := 11
  const REGISTERS := 12

  // Instruction codes that classic BPF does not have, after linux/bpf.h.
  const ALU64: bv16 := 0x07
  const JMP32: bv16 := 0x06
  const LDX_W: bv16 := 0x61  // BPF_LDX | BPF_MEM | BPF_W
  const STX_W: bv16 := 0x63  // BPF_STX | BPF_MEM | BPF_W
  const MOV: bv16 := 0xb0
  const JMP_EXIT: bv16 := 0x95
  const JNE: bv16 := 0x50
  const JLT: bv16 := 0xa0
  const JLE: bv16 := 0xb0

  /** Registers hold 64-bit numbers or one of the two pointers a filter sees. */
  datatype Value = Scalar(v: u64) | Ctx | Fp

  type Regs = r: seq<Value> | |r| == REGISTERS witness seq(REGISTERS, _ => Ctx)

  datatype EState = EState(r: Regs, stack: Mem)

  datatype EStep = ENext(pc: nat, s: EState) | EDone(ret: u32) | EStuck

  /** Stack offset of scratch word `k`. */
  function StackOff(k: nat): int {
    -(4 * k + 4)
  }

  predicate IsStackOff(off: int) {
    -64 <= off < 0 && off % 4 == 0
  }

  /** The scratch word at a stack offset. */
  function StackIndex(off: int): nat
    requires IsStackOff(off)
  {
    (-off - 4) / 4
  }

  function Set(s: EState, reg: nat, v: Value): EState
    requires reg < REGISTERS
  {
    s.(r := s.r[reg := v])
  }

  /** The second operand: a register, or the immediate widened to 64 bits. */
  function Source(i: Insn, s: EState): Value
    requires i.src < REGISTERS
  {
    if i.code & SRC_X == SRC_X then s.r[i.src] else Scalar(SignExtend(i.imm))
  }

  datatype EOp = EArith(op: AluOp) | Negate | Move | WideMove | WideXor | Jump | Exit
               | Test(cmp: CmpOp, negated: bool) | Other

  /** The operation of an arithmetic or jump code, whatever its second operand is. */
  function OpOf(code: bv16): EOp {
    var base := code & !SRC_X;
    if base == ALU | ADD then EArith(Add)
    else if base == ALU | SUB then EArith(Sub)
    else if base == ALU | MUL then EArith(Mul)
    else if base == ALU | DIV then EArith(Div)
    else if base == ALU | OR then EArith(Or)
    else if base == ALU | AND then EArith(And)
    else if base == ALU | LSH then EArith(Lsh)
    else if base == ALU | RSH then EArith(Rsh)
    else if base == ALU | XOR then EArith(Xor)
    else if base == ALU_NEG then Negate
    else if base == ALU | MOV then Move
    else if base == ALU64 | MOV then WideMove
    else if base == ALU64 | XOR then WideXor
    else if base == JMP_JA then Jump
    else if base == JMP_EXIT then Exit
    else if base == JMP | JEQ then Test(Jeq, false)
    else if base == JMP | JGT then Test(Jgt, false)
    else if base == JMP | JGE then Test(Jge, false)
    else if base == JMP | JSET then Test(Jset, false)
    else if base == JMP | JNE then Test(Jeq, true)
    else if base == JMP | JLE then Test(Jgt, true)
    else if base == JMP | JLT then Test(Jge, true)
    else Other
  }

  predicate ECompare(op: CmpOp, a: u64, b: u64) {
    match op
    case Jeq => a == b
    case Jgt => a > b
    case Jge => a >= b
    case Jset => And64(a, b) != 0
  }

  function ExecOp(i: Insn, pc: nat, s: EState): (r: EStep)
    requires i.dst < REGISTERS && i.src < REGISTERS
    ensures r.ENext? ==> r.pc > pc
  {
    var d, b := s.r[i.dst], Source(i, s);
    match OpOf(i.code)
    case WideMove => ENext(pc + 1, Set(s, i.dst, b))
    case Move => if b.Scalar? then ENext(pc + 1, Set(s, i.dst, Scalar(Low(b.v)))) else EStuck
    case Negate => if d.Scalar? then ENext(pc + 1, Set(s, i.dst, Scalar(Neg32(Low(d.v))))) else EStuck
    case WideXor =>
      if d.Scalar? && b.Scalar? then ENext(pc + 1, Set(s, i.dst, Scalar(Xor64(d.v, b.v)))) else EStuck
    case EArith(op) =>
      if d.Scalar? && b.Scalar? then ENext(pc + 1, Set(s, i.dst, Scalar(Compute(op, Low(d.v), Low(b.v)))))
      else EStuck
    case Exit => if s.r[REG_A].Scalar? then EDone(Low(s.r[REG_A].v)) else EStuck
    case Jump => if i.off >= 0 then ENext(pc + 1 + i.off, s) else EStuck
    case Test(op, negated) =>
      if d.Scalar? && b.Scalar? && i.off >= 0 then
        ENext(pc + 1 + (if ECompare(op, d.v, b.v) != negated then i.off else 0), s)
      else EStuck
    case Other => EStuck
  }

  function ExecMem(i: Insn, pc: nat, s: EState, data: Data): (r: EStep)
    requires i.dst < REGISTERS && i.src < REGISTERS
    ensures r.ENext? ==> r.pc == pc + 1
  {
    if i.code == LDX_W then
      if s.r[i.src] == Ctx && 0 <= i.off < DATA_LEN && i.off % 4 == 0 then
        ENext(pc + 1, Set(s, i.dst, Scalar(data[i.off / 4])))
      else if s.r[i.src] == Fp && IsStackOff(i.off) then
        ENext(pc + 1, Set(s, i.dst, Scalar(s.stack[StackIndex(i.off)])))
      else EStuck
    else if i.code == STX_W && s.r[i.dst] == Fp && IsStackOff(i.off) && s.r[i.src].Scalar? then
      ENext(pc + 1, s.(stack := s.stack[StackIndex(i.off) := Low(s.r[i.src].v)]))
    else EStuck
  }

  function ExecE(i: Insn, pc: nat, s: EState, data: Data): (r: EStep)
    ensures r.ENext? ==> r.pc > pc
  {
    if i.dst >= REGISTERS || i.src >= REGISTERS then EStuck
    else if i.code == LDX_W || i.code == STX_W then ExecMem(i, pc, s, data)
    else ExecOp(i, pc, s)
  }

  /** The value an eBPF program returns from `pc` on. */
  function RunE(e: seq<Insn>, pc: nat, s: EState, data: Data): Option<u32>
    decreases |e| - pc
  {
    if pc >= |e| then None
    else
      match ExecE(e[pc], pc, s, data)
      case EDone(v) => Some(v)
      case ENext(pc', s') => RunE(e, pc', s', data)
      case EStuck => None
  }

  /** The registers on entry: arbitrary numbers, except for the two pointers. */
  predicate Entry(s: EState) {
    s.r[REG_A].Scalar? && s.r[REG_X].Scalar? && s.r[REG_ARG1] == Ctx && s.r[REG_FP] == Fp
  }
}
