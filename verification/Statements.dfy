/** Statements of the filter language as the parser leaves them, and the instruction of the
    classic machine that each of them stands for. */
module Statements {
  import opened Word
  import opened Bpf

  const BPF_MAXINSNS := 4096
  const SECCOMP_RET_DATA := 0xffff

  /** What an assignment reads or writes. */
  datatype Obj =
    | VarA
    | VarX
    | MemWord(k: u32)
    | Number(k: u32)
    | DataLen
    | SyscallNr
    | ArchNr
    | LowPc
    | HighPc
    | LowArg(k: u32)
    | HighArg(k: u32)

  datatype AssignOp = OpTo(op: AluOp) | Equal | Negative

  datatype Comparator = EqualEqual | BangEqual | GreaterEqual | GreaterThan | LessEqual | LessThan | AndBits

  /** A label and the distance the resolver finds for it; an arm left out has no key. */
  datatype Label = Label(key: string, codeNr: u16)

  /** An arm left out. */
  const NO_LABEL := Label("", 0)

  datatype Action = KillProc | Kill | Allow | Notify | Log | Trace | Trap | Errno {
    predicate HasData() {
      Trace? || Trap? || Errno?
    }

    function Code(): u32 {
      match this
      case KillProc => 0x8000_0000
      case Kill => 0
      case Allow => 0x7fff_0000
      case Notify => 0x7fc0_0000
      case Log => 0x7ffc_0000
      case Trace => 0x7ff0_0000
      case Trap => 0x0003_0000
      case Errno => 0x0005_0000
    }
  }

  datatype RetObj = RetA | RetNumber(k: u32) | RetAction(action: Action, data: u32)

  /** The action a run ends with, as a statement keeps it for the printer. */
  datatype Verdict = Verdict(action: Action, data: u32) {
    /** What the printer shows of it: data only for the actions that carry data. */
    function Visible(): Verdict {
      if action.HasData() then this else Verdict(action, 0)
    }
  }

  datatype Body =
    | Assign(left: Obj, op: AssignOp, right: Obj)
    | Jump(bang: bool, conditional: bool, cmp: Comparator, cmpobj: Operand, jt: Label, jf: Label)
    | Return(ret: RetObj, verdict: Verdict)
    | Empty
    | Bad

  datatype Statement = Statement(labelDecl: string, textNr: u16, codeNr: u16, body: Body)

  /** What the grammar guarantees of a parsed line. */
  predicate Grammatical(b: Body) {
    match b
    case Assign(left, _, _) => left.VarA? || left.VarX? || left.MemWord?
    case Jump(_, _, _, _, jt, _) => jt.key != ""
    case Return(RetAction(a, d), _) => a.HasData() || d == 0
    case _ => true
  }

  /** The comparison the machine has for a comparator, or has the opposite of. */
  function Comparison(c: Comparator): CmpOp {
    match c
    case EqualEqual => Jeq
    case BangEqual => Jeq
    case GreaterEqual => Jge
    case LessThan => Jge
    case GreaterThan => Jgt
    case LessEqual => Jgt
    case AndBits => Jset
  }

  predicate IsReverse(c: Comparator) {
    c.BangEqual? || c.LessEqual? || c.LessThan?
  }

  function LoadA(right: Obj): Option<Instr> {
    match right
    case VarA => None
    case VarX => Some(Txa)
    case MemWord(k) => Some(LoadMem(A, k))
    case Number(k) => Some(LoadImm(A, k))
    case DataLen => Some(LoadLen(A))
    case SyscallNr => Some(LoadAbs(0))
    case ArchNr => Some(LoadAbs(4))
    case LowPc => Some(LoadAbs(8))
    case HighPc => Some(LoadAbs(12))
    case LowArg(k) => if k < 6 then Some(LoadAbs(16 + 8 * k)) else None
    case HighArg(k) => if k < 6 then Some(LoadAbs(20 + 8 * k)) else None
  }

  function LoadX(right: Obj): Option<Instr> {
    match right
    case VarA => Some(Tax)
    case MemWord(k) => Some(LoadMem(X, k))
    case Number(k) => Some(LoadImm(X, k))
    case DataLen => Some(LoadLen(X))
    case _ => None
  }

  function AssignInstr(left: Obj, op: AssignOp, right: Obj): Option<Instr> {
    match (op, left)
    case (OpTo(o), VarA) =>
      if right.VarX? then Some(Arith(o, Operand.RegX))
      else if right.Number? then Some(Arith(o, K(right.k)))
      else None
    case (Negative, VarA) => if right.VarA? then Some(Neg) else None
    case (Equal, VarA) => LoadA(right)
    case (Equal, VarX) => LoadX(right)
    case (Equal, MemWord(k)) =>
      if right.VarA? then Some(Store(A, k)) else if right.VarX? then Some(Store(X, k)) else None
    case _ => None
  }

  /** The arm taken when the machine's own comparison holds, and the other one. */
  function HoldsArm(j: Body): Label
    requires j.Jump?
  {
    if IsReverse(j.cmp) != j.bang then j.jf else j.jt
  }

  function FailsArm(j: Body): Label
    requires j.Jump?
  {
    if IsReverse(j.cmp) != j.bang then j.jt else j.jf
  }

  /** The instruction a statement means, if the machine has one; jumps use the distances the
      resolver has filled in. */
  function InstrOf(b: Body): Option<Instr> {
    match b
    case Assign(left, op, right) => AssignInstr(left, op, right)
    case Jump(_, conditional, cmp, obj, jt, jf) =>
      if !conditional then Some(Goto(jt.codeNr))
      else if jt.codeNr > 0xff || jf.codeNr > 0xff then None
      else Some(Branch(Comparison(cmp), obj, HoldsArm(b).codeNr, FailsArm(b).codeNr))
    case Return(RetA, _) => Some(ReturnA)
    case Return(RetNumber(k), _) => Some(ReturnK(k))
    case Return(RetAction(a, d), _) => if d <= SECCOMP_RET_DATA then Some(ReturnK(a.Code() + d)) else None
    case _ => None
  }

  predicate ReadsMem(b: Body, k: nat) {
    b.Assign? && b.op.Equal? && !b.left.MemWord? && b.right.MemWord? && b.right.k == k
  }

  predicate WritesMem(b: Body, k: nat) {
    b.Assign? && b.left.MemWord? && b.left.k == k
  }

  /** decode_return_k: a return value as the language writes it. */
  function ReturnObj(k: u32): RetObj {
    var high := k - k % 0x1_0000;
    if high == KillProc.Code() then RetAction(KillProc, 0)
    else if high == Kill.Code() then RetAction(Kill, 0)
    else if high == Allow.Code() then RetAction(Allow, 0)
    else if high == Log.Code() then RetAction(Log, 0)
    else if high == Notify.Code() then RetAction(Notify, 0)
    else if high == Action.Trace.Code() then RetAction(Action.Trace, k % 0x1_0000)
    else if high == Trap.Code() then RetAction(Trap, k % 0x1_0000)
    else if high == Errno.Code() then RetAction(Errno, k % 0x1_0000)
    else RetNumber(k)
  }

  /** Statements that a line can be printed for and read back from. */
  predicate Writable(b: Body) {
    match b
    case Assign(left, op, right) => (left.VarA? || left.VarX? || left.MemWord?) && (op.Negative? ==> right.VarA?)
    case Jump(_, _, _, _, jt, jf) => jt.key == "" && jf.key == ""
    case Return(RetAction(a, d), _) => a.HasData() || d == 0
    case Return(_, _) => true
    case _ => false
  }
}
