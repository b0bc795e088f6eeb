/** The numbers that the language, the machine and the kernel agree on, written out. */
module Tables {
  import opened Word
  import opened Bpf
  import opened Ebpf
  import opened Migration
  import opened Statements
  import opened Emulation
  import opened Decoder
  import opened CheckProg

  // ----- instruction codes -----

  lemma OtherCodes(jt: u8, jf: u8, k: u32)
    ensures Decode(Filter(0x20, jt, jf, k)) == LoadAbs(k)
    ensures Decode(Filter(0x80, jt, jf, k)) == LoadLen(A)
    ensures Decode(Filter(0x81, jt, jf, k)) == LoadLen(X)
    ensures Decode(Filter(0x06, jt, jf, k)) == ReturnK(k)
    ensures Decode(Filter(0x16, jt, jf, k)) == ReturnA
    ensures Decode(Filter(0x84, jt, jf, k)) == Neg
    ensures Decode(Filter(0x00, jt, jf, k)) == LoadImm(A, k)
    ensures Decode(Filter(0x01, jt, jf, k)) == LoadImm(X, k)
    ensures Decode(Filter(0x07, jt, jf, k)) == Tax
    ensures Decode(Filter(0x87, jt, jf, k)) == Txa
    ensures Decode(Filter(0x60, jt, jf, k)) == LoadMem(A, k)
    ensures Decode(Filter(0x61, jt, jf, k)) == LoadMem(X, k)
    ensures Decode(Filter(0x02, jt, jf, k)) == Store(A, k)
    ensures Decode(Filter(0x03, jt, jf, k)) == Store(X, k)
    ensures Decode(Filter(0x05, jt, jf, k)) == Goto(k)
  {
  }

  lemma ArithmeticCodes(jt: u8, jf: u8, k: u32)
    ensures Decode(Filter(0x04, jt, jf, k)) == Arith(Add, K(k))
    ensures Decode(Filter(0x14, jt, jf, k)) == Arith(Sub, K(k))
    ensures Decode(Filter(0x24, jt, jf, k)) == Arith(Mul, K(k))
    ensures Decode(Filter(0x34, jt, jf, k)) == Arith(Div, K(k))
    ensures Decode(Filter(0x44, jt, jf, k)) == Arith(Or, K(k))
    ensures Decode(Filter(0x54, jt, jf, k)) == Arith(And, K(k))
    ensures Decode(Filter(0x64, jt, jf, k)) == Arith(Lsh, K(k))
    ensures Decode(Filter(0x74, jt, jf, k)) == Arith(Rsh, K(k))
    ensures Decode(Filter(0xa4, jt, jf, k)) == Arith(Xor, K(k))
  {
  }

  lemma RegisterCodes(jt: u8, jf: u8, k: u32)
    ensures Decode(Filter(0x0c, jt, jf, k)) == Arith(Add, Operand.RegX)
    ensures Decode(Filter(0x1c, jt, jf, k)) == Arith(Sub, Operand.RegX)
    ensures Decode(Filter(0x2c, jt, jf, k)) == Arith(Mul, Operand.RegX)
    ensures Decode(Filter(0x3c, jt, jf, k)) == Arith(Div, Operand.RegX)
    ensures Decode(Filter(0x4c, jt, jf, k)) == Arith(Or, Operand.RegX)
    ensures Decode(Filter(0x5c, jt, jf, k)) == Arith(And, Operand.RegX)
    ensures Decode(Filter(0x6c, jt, jf, k)) == Arith(Lsh, Operand.RegX)
    ensures Decode(Filter(0x7c, jt, jf, k)) == Arith(Rsh, Operand.RegX)
    ensures Decode(Filter(0xac, jt, jf, k)) == Arith(Xor, Operand.RegX)
  {
  }

  lemma JumpCodes(jt: u8, jf: u8, k: u32)
    ensures Decode(Filter(0x15, jt, jf, k)) == Branch(Jeq, K(k), jt, jf)
    ensures Decode(Filter(0x1d, jt, jf, k)) == Branch(Jeq, Operand.RegX, jt, jf)
    ensures Decode(Filter(0x25, jt, jf, k)) == Branch(Jgt, K(k), jt, jf)
    ensures Decode(Filter(0x2d, jt, jf, k)) == Branch(Jgt, Operand.RegX, jt, jf)
    ensures Decode(Filter(0x35, jt, jf, k)) == Branch(Jge, K(k), jt, jf)
    ensures Decode(Filter(0x3d, jt, jf, k)) == Branch(Jge, Operand.RegX, jt, jf)
    ensures Decode(Filter(0x45, jt, jf, k)) == Branch(Jset, K(k), jt, jf)
    ensures Decode(Filter(0x4d, jt, jf, k)) == Branch(Jset, Operand.RegX, jt, jf)
  {
  }

  /** The codes of all instructions. */
  const OTHER_CODES: set<bv16> := {0x00, 0x01, 0x02, 0x03, 0x05, 0x06, 0x07, 0x16, 0x20, 0x60, 0x61, 0x80, 0x81, 0x84, 0x87}
  const ARITHMETIC_CODES: set<bv16> := {0x04, 0x14, 0x24, 0x34, 0x44, 0x54, 0x64, 0x74, 0xa4}
  const REGISTER_CODES: set<bv16> := {0x0c, 0x1c, 0x2c, 0x3c, 0x4c, 0x5c, 0x6c, 0x7c, 0xac}
  const JUMP_CODES: set<bv16> := {0x15, 0x1d, 0x25, 0x2d, 0x35, 0x3d, 0x45, 0x4d}

  /** There are no others. */
  lemma NoOtherCodes(f: Filter)
    ensures !Decode(f).Illegal? <==>
              f.code in OTHER_CODES || f.code in ARITHMETIC_CODES || f.code in REGISTER_CODES || f.code in JUMP_CODES
  {
    hide Decode;
    if !Decode(f).Illegal? {
      LegalCode(f);
    }
    if f.code in OTHER_CODES {
      OtherIsLegal(f);
    } else if f.code in ARITHMETIC_CODES {
      ArithmeticIsLegal(f);
    } else if f.code in REGISTER_CODES {
      RegisterIsLegal(f);
    } else if f.code in JUMP_CODES {
      JumpIsLegal(f);
    }
  }

  lemma LegalCode(f: Filter)
    requires !Decode(f).Illegal?
    ensures f.code in OTHER_CODES || f.code in ARITHMETIC_CODES || f.code in REGISTER_CODES || f.code in JUMP_CODES
  {
    var base := f.code & !SRC_X;
    assert f.code == base || f.code == base | SRC_X;
  }

  lemma OtherIsLegal(f: Filter)
    requires f.code in OTHER_CODES
    ensures !Decode(f).Illegal?
  {
  }

  lemma ArithmeticIsLegal(f: Filter)
    requires f.code in ARITHMETIC_CODES
    ensures !Decode(f).Illegal?
  {
  }

  lemma RegisterIsLegal(f: Filter)
    requires f.code in REGISTER_CODES
    ensures !Decode(f).Illegal?
  {
  }

  lemma JumpIsLegal(f: Filter)
    requires f.code in JUMP_CODES
    ensures !Decode(f).Illegal?
  {
  }

  /** The codes that only eBPF has, and its registers. */
  lemma EbpfCodes()
    ensures LDX_W == 0x61 && STX_W == 0x63 && JMP_EXIT == 0x95
    ensures ALU | MOV == 0xb4 && ALU | MOV | SRC_X == 0xbc && ALU64 | MOV == 0xb7 && ALU64 | MOV | SRC_X == 0xbf
    ensures ALU64 | XOR == 0xa7 && ALU64 | XOR | SRC_X == 0xaf && ALU | XOR == 0xa4 && ALU | XOR | SRC_X == 0xac
    ensures JMP | JNE == 0x55 && JMP | JNE | SRC_X == 0x5d && JMP | JLT == 0xa5 && JMP | JLE == 0xb5
    ensures REG_A == 0 && REG_ARG1 == 1 && REG_TMP == 2 && REG_CTX == 6 && REG_X == 7 && REG_FP == 10 && REG_AX == 11
  {
  }

  /** Widening to 64 bits repeats the top bit, and it changes just the constants that a comparison
      has to take from a register. */
  lemma WideningIs(a: u32)
    ensures SignExtend(a) == if a < 0x8000_0000 then a as int else a as int + 0xffff_ffff_0000_0000
    ensures a >= NEGATIVE <==> SignExtend(a) != a
  {
  }

  // ----- return values -----

  lemma ActionCodes()
    ensures KillProc.Code() == 0x8000_0000 && Kill.Code() == 0 && Trap.Code() == 0x0003_0000 && Errno.Code() == 0x0005_0000
    ensures Notify.Code() == 0x7fc0_0000 && Action.Trace.Code() == 0x7ff0_0000 && Log.Code() == 0x7ffc_0000 && Allow.Code() == 0x7fff_0000
  {
  }

  /** The low 16 bits are data for three actions and dropped for the others. */
  lemma ReturnsAre(d: u32)
    requires d < 0x1_0000
    ensures ReturnObj(0x8000_0000 + d) == RetAction(KillProc, 0) && ReturnObj(d) == RetAction(Kill, 0)
    ensures ReturnObj(0x7fff_0000 + d) == RetAction(Allow, 0) && ReturnObj(0x7ffc_0000 + d) == RetAction(Log, 0)
    ensures ReturnObj(0x7fc0_0000 + d) == RetAction(Notify, 0) && ReturnObj(0x7ff0_0000 + d) == RetAction(Action.Trace, d)
    ensures ReturnObj(0x0003_0000 + d) == RetAction(Trap, d) && ReturnObj(0x0005_0000 + d) == RetAction(Errno, d)
  {
  }

  // ----- comparisons and operands of the language -----

  lemma ComparatorsAre(a: u32, v: u32)
    ensures Holds(EqualEqual, a, v) <==> a == v
    ensures Holds(BangEqual, a, v) <==> a != v
    ensures Holds(GreaterEqual, a, v) <==> a > v || a == v
    ensures Holds(GreaterThan, a, v) <==> a > v
    ensures Holds(LessEqual, a, v) <==> a < v || a == v
    ensures Holds(LessThan, a, v) <==> a < v
    ensures Holds(AndBits, a, v) <==> And32(a, v) != 0
  {
  }

  /** Where the attributes lie in struct seccomp_data. */
  lemma OffsetsAre(k: u32)
    requires k < 6
    ensures LoadA(SyscallNr) == Some(LoadAbs(0)) && LoadA(ArchNr) == Some(LoadAbs(4))
    ensures LoadA(LowPc) == Some(LoadAbs(8)) && LoadA(HighPc) == Some(LoadAbs(12))
    ensures LoadA(LowArg(k)) == Some(LoadAbs(16 + 8 * k)) && LoadA(HighArg(k)) == Some(LoadAbs(20 + 8 * k))
  {
  }

  // ----- the kernel's checks -----

  /** An instruction is refused that gets stuck, jumps out of the program, divides by a constant
      zero or shifts by a constant of 32 or more, and no other is. */
  lemma RefusedInstr(i: Instr, pc: nat, len: nat, s: State, d: Data)
    ensures ValidInstr(i, pc, len) <==>
              && !Exec(i, pc, s, d).Stuck?
              && (i.Goto? ==> pc + 1 + i.k < len)
              && (i.Branch? ==> pc + 1 + i.jt < len && pc + 1 + i.jf < len)
              && i != Arith(Div, K(0))
              && !(i.Arith? && (i.op == Lsh || i.op == Rsh) && i.operand.K? && i.operand.k >= 32)
  {
    hide Compute, Compare, Neg32;
  }

  /** What the check of a program stops at is what cannot be decoded. */
  lemma FatalIsUndecodable(f: Filter)
    ensures IsFatal(Decode(f)) <==> !Decodable(f)
  {
    LoadAbsKeepsK(f);
    hide Decode;
  }

  lemma LoadAbsKeepsK(f: Filter)
    ensures Decode(f).LoadAbs? ==> Decode(f).k == f.k
  {
  }
}
