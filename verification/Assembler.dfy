/** The assembler: one classic instruction word for every statement. */
module Assembler {
  import opened Word
  import opened Bpf
  import opened Parser
  import opened Statements

  function ReturnLine(r: RetObj): Filter {
    match r
    case RetA => Stmt(RET_A, 0)
    case RetNumber(k) => Stmt(RET_K, k)
    case RetAction(a, data) => Stmt(RET_K, Or32(a.Code(), data))
  }

  function AluLine(op: AluOp, right: Obj): Filter {
    match right
    case VarX => Stmt(ALU | op.Code() | SRC_X, 0)
    case Number(k) => Stmt(ALU | op.Code(), k)
    case _ => Stmt(ALU | op.Code(), 0)
  }

  function StStxLine(k: u32, right: Obj): Filter {
    Stmt(if right.VarA? then ST else if right.VarX? then STX else 0, k)
  }

  function LdxLine(right: Obj): Filter
    requires right.VarA? || right.Number? || right.MemWord? || right.DataLen?
  {
    match right
    case VarA => Stmt(MISC_TAX, 0)
    case Number(k) => Stmt(LDX_IMM, k)
    case MemWord(k) => Stmt(LDX_MEM, k)
    case DataLen => Stmt(LDX_W_LEN, 0)
  }

  /** The offset in struct seccomp_data. */
  function OffsetAbs(o: Obj): u32
    requires o.SyscallNr? || o.ArchNr? || o.LowPc? || o.HighPc? || o.LowArg? || o.HighArg?
  {
    match o
    case SyscallNr => 0
    case ArchNr => 4
    case LowPc => 8
    case HighPc => 12
    case LowArg(k) => (16 + 8 * k) % U32
    case HighArg(k) => (20 + 8 * k) % U32
  }

  function LdLine(right: Obj): Filter
    requires !right.VarA?
  {
    if right.VarX? then Stmt(MISC_TXA, 0)
    else if right.DataLen? then Stmt(LD_W_LEN, 0)
    else if right.Number? then Stmt(LD_IMM, right.k)
    else if right.MemWord? then Stmt(LD_MEM, right.k)
    else Stmt(LD_W_ABS, OffsetAbs(right))
  }

  /** What the encoders assert of an assignment. */
  predicate CanEncode(left: Obj, op: AssignOp, right: Obj) {
    op.Equal? ==>
      if left.MemWord? then true
      else if left.VarX? then right.VarA? || right.Number? || right.MemWord? || right.DataLen?
      else left.VarA? && !right.VarA?
  }

  function AssignLine(left: Obj, op: AssignOp, right: Obj): Filter
    requires CanEncode(left, op, right)
  {
    match op
    case OpTo(o) => AluLine(o, right)
    case Negative => Stmt(ALU_NEG, 0)
    case Equal =>
      if left.MemWord? then StStxLine(left.k, right)
      else if left.VarX? then LdxLine(right)
      else LdLine(right)
  }

  /** The statement after its arms are exchanged, when the machine only has the opposite
      comparison. */
  function Reversed(j: Body): Body
    requires j.Jump?
  {
    if j.conditional && IsReverse(j.cmp) != j.bang then j.(jt := j.jf, jf := j.jt) else j
  }

  function JumpLine(j: Body): Filter
    requires j.Jump?
  {
    if !j.conditional then Stmt(JMP_JA, j.jt.codeNr)
    else
      var r := Reversed(j);
      Filter(JMP | Comparison(j.cmp).Code() | j.cmpobj.Src(), r.jt.codeNr % 0x100, r.jf.codeNr % 0x100, j.cmpobj.Imm())
  }

  predicate CanAssemble(b: Body) {
    match b
    case Assign(left, op, right) => CanEncode(left, op, right)
    case Jump(_, _, _, _, _, _) => true
    case Return(_, _) => true
    case _ => false
  }

  function AsmBody(b: Body): Filter
    requires CanAssemble(b)
  {
    match b
    case Assign(left, op, right) => AssignLine(left, op, right)
    case Jump(_, _, _, _, _, _) => JumpLine(b)
    case Return(r, _) => ReturnLine(r)
  }

  /** An action and its data do not overlap, so combining them adds them. */
  lemma {:induction false} OrIsSum(hi: nat, lo: nat, n: nat)
    requires lo < Pow2(n)
    ensures Bitwise(OrOp, hi * Pow2(n), lo) == hi * Pow2(n) + lo
  {
    if n == 0 {
      OrZero(hi);
    } else {
      assert hi * Pow2(n) == 2 * (hi * Pow2(n - 1));
      OrIsSum(hi, lo / 2, n - 1);
    }
  }

  lemma {:induction false} OrZero(a: nat)
    ensures Bitwise(OrOp, a, 0) == a
  {
    if a > 0 {
      OrZero(a / 2);
    }
  }

  lemma ActionWithData(a: Action, d: u32)
    requires d <= SECCOMP_RET_DATA
    ensures Or32(a.Code(), d) == a.Code() + d
  {
    Pow2Is16();
    OrIsSum(a.Code() / 0x1_0000, d, 16);
  }

  lemma AssemblesAssign(left: Obj, op: AssignOp, right: Obj)
    requires AssignInstr(left, op, right).Some?
    ensures CanEncode(left, op, right)
    ensures AssignLine(left, op, right) == Encode(AssignInstr(left, op, right).value)
  {
    match op
    case OpTo(o) => AssemblesArith(left, o, right);
    case Negative => AssemblesMove(left, op, right);
    case Equal => AssemblesMove(left, op, right);
  }

  lemma AssemblesArith(left: Obj, o: AluOp, right: Obj)
    requires AssignInstr(left, OpTo(o), right).Some?
    ensures CanEncode(left, OpTo(o), right)
    ensures AssignLine(left, OpTo(o), right) == Encode(AssignInstr(left, OpTo(o), right).value)
  {
    hide Decode, AluOp.Code;
  }

  lemma AssemblesMove(left: Obj, op: AssignOp, right: Obj)
    requires AssignInstr(left, op, right).Some? && !op.OpTo?
    ensures CanEncode(left, op, right)
    ensures AssignLine(left, op, right) == Encode(AssignInstr(left, op, right).value)
  {
    hide Decode, AluOp.Code;
  }

  lemma AssemblesReturn(r: RetObj, v: Verdict)
    requires InstrOf(Return(r, v)).Some?
    ensures ReturnLine(r) == Encode(InstrOf(Return(r, v)).value)
  {
    hide Decode, Or32;
    match r
    case RetAction(a, d) => ActionWithData(a, d);
    case _ =>
  }

  lemma AssemblesJump(j: Body)
    requires j.Jump? && InstrOf(j).Some?
    ensures JumpLine(j) == Encode(InstrOf(j).value)
  {
    hide Decode, CmpOp.Code, Operand.Src, Operand.Imm;
  }

  /** The word of every statement the machine has an instruction for is that instruction. */
  lemma AssemblesInstr(b: Body)
    requires InstrOf(b).Some?
    ensures CanAssemble(b)
    ensures AsmBody(b) == Encode(InstrOf(b).value)
    ensures Decode(AsmBody(b)) == InstrOf(b).value
  {
    hide Decode, Encode, ReturnLine, JumpLine, AssignLine, AssignInstr, CanEncode;
    DecodeEncode(InstrOf(b).value);
    match b
    case Return(r, v) => AssemblesReturn(r, v);
    case Assign(left, op, right) => AssemblesAssign(left, op, right);
    case Jump(_, _, _, _, _, _) => AssemblesJump(b);
  }

  /** asm_statement: exchanges the arms of a jump in the statement itself. */
  method AsmStatement(text: array<Statement>, i: nat) returns (f: Filter)
    requires i < text.Length && CanAssemble(text[i].body)
    modifies text
    ensures f == old(AsmBody(text[i].body))
    ensures text[..] == old(text[..])[i := text[i]]
    ensures text[i] == if old(text[i].body.Jump?) then old(text[i].(body := Reversed(text[i].body))) else old(text[i])
  {
    hide CmpOp.Code, Operand.Src, Operand.Imm, AssignLine, ReturnLine, CanEncode;
    var b := text[i].body;
    match b
    case Return(r, _) => f := ReturnLine(r);
    case Assign(left, op, right) => f := AssignLine(left, op, right);
    case Jump(bang, conditional, cmp, obj, jt, jf) =>
      if !conditional {
        f := Stmt(JMP_JA, jt.codeNr);
        return;
      }
      if IsReverse(cmp) != bang {
        text[i] := text[i].(body := b.(jt := jf, jf := jt));
      }
      var r := text[i].body;
      f := Filter(JMP | Comparison(cmp).Code() | obj.Src(), r.jt.codeNr % 0x100, r.jf.codeNr % 0x100, obj.Imm());
  }

  /** The statements that `code` points to, from its second element on, can be assembled. */
  predicate CanAssembleAll(text: seq<Statement>, code: seq<nat>) {
    forall c :: 1 <= c < |code| ==> code[c] < |text| && CanAssemble(text[code[c]].body)
  }

  /** The words of the statements that `code` points to. */
  function Words(text: seq<Statement>, code: seq<nat>): (w: seq<Filter>)
    requires |code| >= 1 && CanAssembleAll(text, code)
  {
    seq(|code| - 1, c requires 0 <= c < |code| - 1 => AsmBody(text[code[c + 1]].body))
  }

  /** assemble: the words in the order of the statements. */
  method Assemble(text: array<Statement>, code: seq<nat>) returns (out: seq<Filter>)
    requires |code| >= 1 && CanAssembleAll(text[..], code) && Increasing(code)
    modifies text
    ensures out == old(Words(text[..], code))
  {
    out := [];
    for i := 1 to |code|
      invariant |out| == i - 1 && out == old(Words(text[..], code))[..i - 1]
      invariant forall c :: i <= c < |code| ==> text[code[c]] == old(text[code[c]])
    {
      assert text[..][code[i]] == text[code[i]];
      var f := AsmStatement(text, code[i]);
      out := out + [f];
    }
  }
}
