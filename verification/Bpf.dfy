/** The classic BPF machine that seccomp filters run on: an accumulator, an index
    register, sixteen scratch words and forward jumps. */
module Bpf {
  import opened Word

  datatype Filter = Filter(code: bv16, jt: u8, jf: u8, k: u32)

  // Instruction codes, as the masks and fields of linux/bpf_common.h combine into them.
  const LD_IMM: bv16 := 0x00
  const LDX_IMM: bv16 := 0x01
  const ST: bv16 := 0x02
  const STX: bv16 := 0x03
  const ALU: bv16 := 0x04
  const JMP: bv16 := 0x05
  const RET_K: bv16 := 0x06
  const MISC_TAX: bv16 := 0x07
  const RET_A: bv16 := 0x16
  const LD_W_ABS: bv16 := 0x20
  const LD_MEM: bv16 := 0x60
  const LDX_MEM: bv16 := 0x61
  const LD_W_LEN: bv16 := 0x80
  const LDX_W_LEN: bv16 := 0x81
  const ALU_NEG: bv16 := 0x84
  const MISC_TXA: bv16 := 0x87
  const JMP_JA: bv16 := 0x05

  const SRC_X: bv16 := 0x08
  const CLASS_MASK: bv16 := 0x07
  const OP_MASK: bv16 := 0xf0

  const ADD: bv16 := 0x00
  const SUB: bv16 := 0x10
  const MUL: bv16 := 0x20
  const DIV: bv16 := 0x30
  const OR: bv16 := 0x40
  const AND: bv16 := 0x50
  const LSH: bv16 := 0x60
  const RSH: bv16 := 0x70
  const XOR: bv16 := 0xa0

  const JEQ: bv16 := 0x10
  const JGT: bv16 := 0x20
  const JGE: bv16 := 0x30
  const JSET: bv16 := 0x40

  const MEMWORDS := 16
  const DATA_LEN := 64  // sizeof (struct seccomp_data)

  datatype AluOp = Add | Sub | Mul | Div | Or | And | Lsh | Rsh | Xor {
    function Code(): bv16 {
      match this
      case Add => ADD
      case Sub => SUB
      case Mul => MUL
      case Div => DIV
      case Or => OR
      case And => AND
      case Lsh => LSH
      case Rsh => RSH
      case Xor => XOR
    }
  }

  datatype CmpOp = Jeq | Jgt | Jge | Jset {
    function Code(): bv16 {
      match this
      case Jeq => JEQ
      case Jgt => JGT
      case Jge => JGE
      case Jset => JSET
    }
  }

  datatype Reg = A | X

  /** The second operand of arithmetic and comparisons. */
  datatype Operand = K(k: u32) | RegX {
    function Src(): bv16 {
      if RegX? then SRC_X else 0
    }

    function Imm(): u32 {
      if RegX? then 0 else k
    }

    function In(s: State): u32 {
      if RegX? then s.x else k
    }
  }

  datatype Instr =
    | LoadImm(reg: Reg, k: u32)
    | LoadAbs(k: u32)
    | LoadLen(reg: Reg)
    | LoadMem(reg: Reg, k: u32)
    | Store(reg: Reg, k: u32)
    | Tax
    | Txa
    | Neg
    | Arith(op: AluOp, operand: Operand)
    | Goto(k: u32)
    | Branch(cmp: CmpOp, operand: Operand, jt: u8, jf: u8)
    | ReturnK(k: u32)
    | ReturnA
    | Illegal

  /** A word without arms. */
  function Stmt(code: bv16, k: u32): Filter {
    Filter(code, 0, 0, k)
  }

  /** The instruction an encoded word stands for; fields it does not use are ignored. */
  function Decode(f: Filter): Instr {
    var c := f.code;
    var base := c & !SRC_X;
    var operand := if c & SRC_X == SRC_X then RegX else K(f.k);
    if c == LD_IMM then LoadImm(A, f.k)
    else if c == LDX_IMM then LoadImm(X, f.k)
    else if c == LD_W_ABS then LoadAbs(f.k)
    else if c == LD_W_LEN then LoadLen(A)
    else if c == LDX_W_LEN then LoadLen(X)
    else if c == LD_MEM then LoadMem(A, f.k)
    else if c == LDX_MEM then LoadMem(X, f.k)
    else if c == ST then Store(A, f.k)
    else if c == STX then Store(X, f.k)
    else if c == MISC_TAX then Tax
    else if c == MISC_TXA then Txa
    else if c == ALU_NEG then Neg
    else if c == RET_K then ReturnK(f.k)
    else if c == RET_A then ReturnA
    else if c == JMP_JA then Goto(f.k)
    else if base == ALU | ADD then Arith(Add, operand)
    else if base == ALU | SUB then Arith(Sub, operand)
    else if base == ALU | MUL then Arith(Mul, operand)
    else if base == ALU | DIV then Arith(Div, operand)
    else if base == ALU | OR then Arith(Or, operand)
    else if base == ALU | AND then Arith(And, operand)
    else if base == ALU | LSH then Arith(Lsh, operand)
    else if base == ALU | RSH then Arith(Rsh, operand)
    else if base == ALU | XOR then Arith(Xor, operand)
    else if base == JMP | JEQ then Branch(Jeq, operand, f.jt, f.jf)
    else if base == JMP | JGT then Branch(Jgt, operand, f.jt, f.jf)
    else if base == JMP | JGE then Branch(Jge, operand, f.jt, f.jf)
    else if base == JMP | JSET then Branch(Jset, operand, f.jt, f.jf)
    else Illegal
  }

  /** The word for an instruction, with zero in the fields it does not use. */
  function Encode(i: Instr): Filter {
    match i
    case LoadImm(r, k) => Filter(if r == A then LD_IMM else LDX_IMM, 0, 0, k)
    case LoadAbs(k) => Filter(LD_W_ABS, 0, 0, k)
    case LoadLen(r) => Filter(if r == A then LD_W_LEN else LDX_W_LEN, 0, 0, 0)
    case LoadMem(r, k) => Filter(if r == A then LD_MEM else LDX_MEM, 0, 0, k)
    case Store(r, k) => Filter(if r == A then ST else STX, 0, 0, k)
    case Tax => Filter(MISC_TAX, 0, 0, 0)
    case Txa => Filter(MISC_TXA, 0, 0, 0)
    case Neg => Filter(ALU_NEG, 0, 0, 0)
    case Arith(op, b) => Filter(ALU | op.Code() | b.Src(), 0, 0, b.Imm())
    case Goto(k) => Filter(JMP_JA, 0, 0, k)
    case Branch(op, b, jt, jf) => Filter(JMP | op.Code() | b.Src(), jt, jf, b.Imm())
    case ReturnK(k) => Filter(RET_K, 0, 0, k)
    case ReturnA => Filter(RET_A, 0, 0, 0)
    case Illegal => Filter(0xff, 0, 0, 0)
  }

  lemma DecodeEncode(i: Instr)
    ensures Decode(Encode(i)) == i
  {
    match i
    case Arith(op, b) => match op { case _ => }
    case Branch(op, b, _, _) => match op { case _ => }
    case _ =>
  }

  type Mem = m: seq<u32> | |m| == MEMWORDS witness seq(MEMWORDS, _ => 0)
  type Data = d: seq<u32> | |d| == DATA_LEN / 4 witness seq(DATA_LEN / 4, _ => 0)

  datatype State = State(a: u32, x: u32, mem: Mem) {
    function Get(r: Reg): u32 {
      if r == A then a else x
    }

    function Set(r: Reg, v: u32): State {
      if r == A then this.(a := v) else this.(x := v)
    }
  }

  datatype Step = Next(pc: nat, s: State) | Done(ret: u32) | Stuck

  /** Arithmetic modulo 2^32; shift counts are masked and dividing by zero gives zero. */
  function Compute(op: AluOp, a: u32, b: u32): u32 {
    match op
    case Add => (a + b) % U32
    case Sub => (a + (U32 - b)) % U32
    case Mul => (a * b) % U32
    case Div => Quotient(a, b)
    case Or => Or32(a, b)
    case And => And32(a, b)
    case Lsh => Shl32(a, b % 32)
    case Rsh => Shr32(a, b % 32)
    case Xor => Xor32(a, b)
  }

  /** How often `b` goes into `a`; zero when `b` is zero. */
  function Quotient(a: nat, b: nat): (r: nat)
    ensures r <= a
  {
    if b == 0 || a < b then 0 else 1 + Quotient(a - b, b)
  }

  predicate Compare(op: CmpOp, a: u32, b: u32) {
    match op
    case Jeq => a == b
    case Jgt => a > b
    case Jge => a >= b
    case Jset => And32(a, b) != 0
  }

  function Exec(i: Instr, pc: nat, s: State, data: Data): (r: Step)
    ensures r.Next? ==> r.pc > pc
  {
    match i
    case LoadImm(r, k) => Next(pc + 1, s.Set(r, k))
    case LoadAbs(k) => if k < DATA_LEN && k % 4 == 0 then Next(pc + 1, s.Set(A, data[k / 4])) else Stuck
    case LoadLen(r) => Next(pc + 1, s.Set(r, DATA_LEN))
    case LoadMem(r, k) => if k < MEMWORDS then Next(pc + 1, s.Set(r, s.mem[k])) else Stuck
    case Store(r, k) => if k < MEMWORDS then Next(pc + 1, s.(mem := s.mem[k := s.Get(r)])) else Stuck
    case Tax => Next(pc + 1, s.Set(X, s.a))
    case Txa => Next(pc + 1, s.Set(A, s.x))
    case Neg => Next(pc + 1, s.Set(A, Neg32(s.a)))
    case Arith(op, b) =>
      if op == Div && b.In(s) == 0 then Done(0)
      else Next(pc + 1, s.Set(A, Compute(op, s.a, b.In(s))))
    case Goto(k) => Next(pc + 1 + k, s)
    case Branch(op, b, jt, jf) => Next(pc + 1 + (if Compare(op, s.a, b.In(s)) then jt else jf), s)
    case ReturnK(k) => Done(k)
    case ReturnA => Done(s.a)
    case Illegal => Stuck
  }

  datatype Option<+T> = None | Some(value: T)

  /** The value a program returns from `pc` on; nothing if it gets stuck or runs off its end. */
  function Run(p: seq<Filter>, pc: nat, s: State, data: Data): Option<u32>
    decreases |p| - pc
  {
    if pc >= |p| then None
    else
      match Exec(Decode(p[pc]), pc, s, data)
      case Done(v) => Some(v)
      case Next(pc', s') => Run(p, pc', s', data)
      case Stuck => None
  }

  /** A run from cleared registers, with whatever the scratch memory held. */
  function Result(p: seq<Filter>, mem: Mem, data: Data): Option<u32> {
    Run(p, 0, State(0, 0, mem), data)
  }

  /** What the kernel checks of each instruction before it installs a filter. */
  predicate ValidInstr(i: Instr, pc: nat, len: nat) {
    match i
    case LoadAbs(k) => k < DATA_LEN && k % 4 == 0
    case LoadMem(_, k) => k < MEMWORDS
    case Store(_, k) => k < MEMWORDS
    case Arith(op, K(k)) => (op == Div ==> k != 0) && (op == Lsh || op == Rsh ==> k < 32)
    case Goto(k) => pc + 1 + k < len
    case Branch(_, _, jt, jf) => pc + 1 + jt < len && pc + 1 + jf < len
    case Illegal => false
    case _ => true
  }

  predicate ValidAt(p: seq<Filter>, i: nat) {
    i < |p| && ValidInstr(Decode(p[i]), i, |p|)
  }

  predicate ValidProgram(p: seq<Filter>) {
    && |p| > 0
    && (forall i :: 0 <= i < |p| ==> ValidAt(p, i))
    && (Decode(p[|p| - 1]).ReturnK? || Decode(p[|p| - 1]).ReturnA?)
  }

  /** A valid program always returns: it strictly advances, never leaves its instructions
      and never gets stuck. */
  lemma {:induction false} ValidProgramReturns(p: seq<Filter>, pc: nat, s: State, data: Data)
    requires ValidProgram(p) && pc < |p|
    ensures Run(p, pc, s, data).Some?
    decreases |p| - pc
  {
    var r := Exec(Decode(p[pc]), pc, s, data);
    assert ValidAt(p, pc);
    if r.Next? {
      assert pc != |p| - 1;
      ValidProgramReturns(p, r.pc, r.s, data);
    }
  }
}
