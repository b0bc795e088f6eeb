/** The decoder: a statement for every instruction word, with comparisons turned around when
    only the false arm jumps. */
module Decoder {
  import opened Word
  import opened Bpf
  import opened Statements
  import opened Assembler

  /** The attribute at an offset of struct seccomp_data that is a multiple of four. */
  function AbsTable(k: u32): Obj
    requires k < DATA_LEN && k % 4 == 0
  {
    if k == 0 then SyscallNr
    else if k == 4 then ArchNr
    else if k == 8 then LowPc
    else if k == 12 then HighPc
    else if k % 8 == 0 then LowArg((k - 16) / 8)
    else HighArg((k - 16) / 8)
  }

  /** Instruction words the decoder is given: the codes it knows, and loads within the data. */
  predicate Decodable(f: Filter) {
    !Decode(f).Illegal? && (Decode(f).LoadAbs? ==> f.k < DATA_LEN && f.k % 4 == 0)
  }

  /** A return value that is written with all its bits. */
  predicate KeepsReturn(k: u32) {
    var r := ReturnObj(k);
    r.RetAction? && !r.action.HasData() ==> k % 0x1_0000 == 0
  }

  /** What a word still says once it is a statement: a jump's distance is kept in 16 bits, and
      an action without data drops the low bits of its return value. */
  function Kept(i: Instr): Instr {
    match i
    case Goto(k) => Goto(k % 0x1_0000)
    case ReturnK(k) => if KeepsReturn(k) then i else ReturnK(k - k % 0x1_0000)
    case _ => i
  }

  const MODE_MASK: bv16 := 0xe0
  const RVAL_MASK: bv16 := 0x18

  const NO_VERDICT := Verdict(KillProc, 0)

  method LdLdxLine(f: Filter) returns (b: Body)
    requires Decodable(f) && (f.code & CLASS_MASK == LD_IMM || f.code & CLASS_MASK == LDX_IMM)
    ensures InstrOf(b) == Some(Decode(f))
  {
    var left := if f.code & CLASS_MASK == LD_IMM then VarA else VarX;
    var mode := f.code & MODE_MASK;
    var right :=
      if mode == 0x00 then Number(f.k)
      else if mode == 0x60 then MemWord(f.k)
      else if mode == 0x20 then AbsTable(f.k)
      else DataLen;
    b := Assign(left, Equal, right);
  }

  method StStxLine(f: Filter) returns (b: Body)
    requires Decodable(f) && (f.code & CLASS_MASK == ST || f.code & CLASS_MASK == STX)
    ensures InstrOf(b) == Some(Decode(f))
  {
    b := Assign(MemWord(f.k), Equal, if f.code & CLASS_MASK == ST then VarA else VarX);
  }

  method MiscLine(f: Filter) returns (b: Body)
    requires Decodable(f) && f.code & CLASS_MASK == MISC_TAX
    ensures InstrOf(b) == Some(Decode(f))
  {
    if f.code & 0xf8 == 0 {
      b := Assign(VarX, Equal, VarA);
    } else {
      b := Assign(VarA, Equal, VarX);
    }
  }

  /** The operator in the upper bits of an arithmetic code. */
  function OperatorTable(op: bv16): Option<AssignOp> {
    if op == ADD then Some(OpTo(Add))
    else if op == SUB then Some(OpTo(Sub))
    else if op == MUL then Some(OpTo(Mul))
    else if op == DIV then Some(OpTo(Div))
    else if op == OR then Some(OpTo(Or))
    else if op == AND then Some(OpTo(And))
    else if op == LSH then Some(OpTo(Lsh))
    else if op == RSH then Some(OpTo(Rsh))
    else if op == 0x80 then Some(Negative)
    else if op == XOR then Some(OpTo(Xor))
    else None
  }

  method AluLine(f: Filter) returns (b: Body)
    requires Decodable(f) && f.code & CLASS_MASK == ALU
    ensures InstrOf(b) == Some(Decode(f))
  {
    var op := OperatorTable(f.code & OP_MASK).value;
    if f.code & SRC_X == SRC_X {
      b := Assign(VarA, op, VarX);
    } else if op.Negative? {
      b := Assign(VarA, op, VarA);
    } else {
      b := Assign(VarA, op, Number(f.k));
    }
  }

  method ReturnLine(f: Filter) returns (b: Body)
    requires Decodable(f) && f.code & CLASS_MASK == RET_K
    ensures InstrOf(b) == Some(Kept(Decode(f))) && Grammatical(b)
  {
    if f.code & RVAL_MASK == 0x10 {
      b := Return(RetA, NO_VERDICT);
    } else {
      b := Return(ReturnObj(f.k), NO_VERDICT);
    }
  }

  function ComparatorTable(op: bv16): Comparator {
    if op == JEQ then EqualEqual
    else if op == JGT then GreaterThan
    else if op == JGE then GreaterEqual
    else AndBits
  }

  function ReverseTable(op: bv16): Comparator {
    if op == JEQ then BangEqual
    else if op == JGT then LessEqual
    else LessThan
  }

  /** The comparison and what is left of the negation. */
  method Condition(f: Filter, bang: bool) returns (cmp: Comparator, obj: Operand, ifBang: bool)
    requires Decodable(f) && Decode(f).Branch?
    ensures Comparison(cmp) == Decode(f).cmp && obj == Decode(f).operand
    ensures (IsReverse(cmp) != ifBang) == bang
    ensures ifBang ==> cmp.AndBits?
    ensures !bang ==> !ifBang && !IsReverse(cmp)
  {
    var op := f.code & OP_MASK;
    ifBang := bang;
    if !bang || op == JSET {
      cmp := ComparatorTable(op);
    } else {
      cmp := ReverseTable(op);
      ifBang := false;
    }
    obj := if f.code & SRC_X == SRC_X then Operand.RegX else K(f.k);
  }

  /** A jump as the printer can write it: the arm left out is the false one, and only a test of
      bits is negated. */
  /** A conditional jump is turned around just when only its false arm leads somewhere else. */
  predicate TurnedAround(f: Filter, b: Body) {
    && b.Jump? && b.conditional
    && var turned := f.jt == 0 && f.jf != 0;
    && (b.bang || IsReverse(b.cmp)) == turned
    && b.jt.codeNr == (if turned then f.jf else f.jt) && b.jf.codeNr == (if turned then f.jt else f.jf)
  }

  predicate NormalJump(b: Body) {
    b.Jump? && b.conditional ==> (b.jt.codeNr == 0 ==> b.jf.codeNr == 0) && (b.bang ==> b.cmp.AndBits?)
  }

  method JumpLine(f: Filter) returns (b: Body)
    requires Decodable(f) && f.code & CLASS_MASK == JMP
    ensures InstrOf(b) == Some(Kept(Decode(f))) && NormalJump(b)
    ensures b.Jump? && b.jt.key == "" && b.jf.key == ""
    ensures Decode(f).Branch? ==> TurnedAround(f, b)
  {
    if f.code & OP_MASK == 0 {
      b := Jump(false, false, EqualEqual, K(0), Label("", f.k % 0x1_0000), NO_LABEL);
      return;
    }
    var bang := f.jt == 0 && f.jf != 0;
    var jt, jf := Label("", f.jt), Label("", f.jf);
    if bang {
      jt, jf := jf, jt;
    }
    var cmp, obj, ifBang := Condition(f, bang);
    b := Jump(ifBang, true, cmp, obj, jt, jf);
  }

  /** Instructions that have a use for the k field. */
  predicate UsesK(i: Instr) {
    match i
    case LoadLen(_) => false
    case Tax => false
    case Txa => false
    case Neg => false
    case Arith(_, b) => b.K?
    case Branch(_, b, _, _) => b.K?
    case ReturnA => false
    case _ => true
  }

  /** A word with zero in the fields it does not use, no data under an action without data and
      no jump farther than 16 bits tell. */
  predicate Exact(f: Filter) {
    ExactAs(f, Decode(f))
  }

  predicate ExactAs(f: Filter, i: Instr) {
    && (i.Branch? || (f.jt == 0 && f.jf == 0))
    && (UsesK(i) || f.k == 0)
    && (i.ReturnK? ==> KeepsReturn(f.k))
    && (i.Goto? ==> f.k < 0x1_0000)
  }

  /** Encoding again what a statement keeps of a word gives the word exactly when it is exact. */
  lemma EncodesBack(f: Filter)
    requires Decodable(f)
    ensures Encode(Kept(Decode(f))) == f <==> Exact(f)
  {
    hide Decode, Encode, Kept, ExactAs;
    var i := Decode(f);
    if i.Arith? {
      CodeOfArith(f);
      OperandKept(f, i);
    } else if i.Branch? {
      CodeOfBranch(f);
      OperandKept(f, i);
    } else {
      PlainBack(f);
      PlainKept(f, i);
    }
  }

  lemma OperandKept(f: Filter, i: Instr)
    requires i.Arith? ==> ALU | i.op.Code() | i.operand.Src() == f.code
    requires i.Branch? ==> JMP | i.cmp.Code() | i.operand.Src() == f.code && i.jt == f.jt && i.jf == f.jf
    requires (i.Arith? || i.Branch?) && (i.operand.K? ==> i.operand.k == f.k)
    ensures Encode(Kept(i)) == f <==> ExactAs(f, i)
  {
    hide AluOp.Code, CmpOp.Code, Operand.Src;
  }

  lemma PlainKept(f: Filter, i: Instr)
    requires !i.Illegal? && !i.Arith? && !i.Branch?
    requires Encode(i) == f <==> (f.jt == 0 && f.jf == 0 && (UsesK(i) || f.k == 0))
    requires i.Goto? || i.ReturnK? ==> i.k == f.k
    ensures Encode(Kept(i)) == f <==> ExactAs(f, i)
  {
    hide KeepsReturn;
    if i.ReturnK? {
      DropsSome(i.k);
    }
  }

  /** Words of the other instructions are determined by their k field. */
  lemma PlainBack(f: Filter)
    requires !Decode(f).Illegal? && !Decode(f).Arith? && !Decode(f).Branch?
    ensures Encode(Decode(f)) == f <==> f.jt == 0 && f.jf == 0 && (UsesK(Decode(f)) || f.k == 0)
    ensures Decode(f).Goto? || Decode(f).ReturnK? ==> Decode(f).k == f.k
  {
    hide AluOp.Code, CmpOp.Code, Operand.Src;
  }

  lemma DropsSome(k: u32)
    ensures !KeepsReturn(k) ==> k % 0x1_0000 != 0
  {
    hide ReturnObj;
  }

  lemma CodeOfArith(f: Filter)
    requires Decode(f).Arith?
    ensures ALU | Decode(f).op.Code() | Decode(f).operand.Src() == f.code
    ensures Decode(f).operand.K? ==> Decode(f).operand.k == f.k
  {
  }

  lemma CodeOfBranch(f: Filter)
    requires Decode(f).Branch?
    ensures JMP | Decode(f).cmp.Code() | Decode(f).operand.Src() == f.code
    ensures Decode(f).operand.K? ==> Decode(f).operand.k == f.k
    ensures Decode(f).jt == f.jt && Decode(f).jf == f.jf
  {
  }

  /** Assembling a decoded word gives the word back exactly when it is exact. */
  lemma AssemblesBack(f: Filter, b: Body)
    requires Decodable(f) && InstrOf(b) == Some(Kept(Decode(f)))
    ensures CanAssemble(b)
    ensures AsmBody(b) == f <==> Exact(f)
  {
    AssemblesInstr(b);
    EncodesBack(f);
  }

  method DecodeFilter(f: Filter) returns (b: Body)
    requires Decodable(f)
    ensures InstrOf(b) == Some(Kept(Decode(f))) && NormalJump(b) && Writable(b)
    ensures CanAssemble(b) && (AsmBody(b) == f <==> Exact(f))
    ensures Decode(f).Branch? ==> TurnedAround(f, b)
  {
    hide CanAssemble, AsmBody, Exact;
    var class_ := f.code & CLASS_MASK;
    if class_ == LD_IMM || class_ == LDX_IMM {
      b := LdLdxLine(f);
    } else if class_ == ST || class_ == STX {
      b := StStxLine(f);
    } else if class_ == ALU {
      b := AluLine(f);
    } else if class_ == JMP {
      b := JumpLine(f);
    } else if class_ == RET_K {
      b := ReturnLine(f);
    } else {
      b := MiscLine(f);
    }
    AssemblesBack(f, b);
  }

  /** decode_filters: the statements of a program, numbered from one. */
  method DecodeFilters(prog: seq<Filter>) returns (v: seq<Statement>)
    requires |prog| < 0x1_0000 && forall i :: 0 <= i < |prog| ==> Decodable(prog[i])
    ensures |v| == |prog| + 1
    ensures forall i :: 0 <= i < |prog| ==> DecodedAt(prog[i], v[i + 1], i)
  {
    v := [Statement("", 0, 0, Empty)];
    for i := 0 to |prog|
      invariant |v| == i + 1
      invariant forall j :: 0 <= j < i ==> DecodedAt(prog[j], v[j + 1], j)
    {
      hide InstrOf, AsmBody, Decode, Encode, Kept, NormalJump, Writable, Exact, Decodable, CanAssemble;
      var b := DecodeFilter(prog[i]);
      v := v + [Statement("", i + 1, i + 1, b)];
    }
  }

  /** Statement `i + 1` means the word `f` at `i`, and assembles to it when the word is exact. */
  predicate DecodedAt(f: Filter, s: Statement, i: nat) {
    && s.labelDecl == "" && s.textNr == i + 1 && s.codeNr == i + 1
    && InstrOf(s.body) == Some(Kept(Decode(f)))
    && NormalJump(s.body) && Writable(s.body) && CanAssemble(s.body)
    && (AsmBody(s.body) == f <==> Exact(f))
  }
}
