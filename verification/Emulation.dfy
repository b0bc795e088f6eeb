/** What the emulator computes over the lines of an accepted program, and that it is what the
    machine computes over the assembled words. */
module Emulation {
  import opened Word
  import opened Bpf
  import opened Statements

  /** The value of an operand; a scratch word or argument out of range has none in an accepted
      program. */
  function Value(o: Obj, s: State, d: Data): u32 {
    match o
    case VarA => s.a
    case VarX => s.x
    case MemWord(k) => if k < MEMWORDS then s.mem[k] else 0
    case Number(k) => k
    case DataLen => DATA_LEN
    case SyscallNr => d[0]
    case ArchNr => d[1]
    case LowPc => d[2]
    case HighPc => d[3]
    case LowArg(k) => if k < 6 then d[4 + 2 * k] else 0
    case HighArg(k) => if k < 6 then d[5 + 2 * k] else 0
  }

  function Put(o: Obj, v: u32, s: State): State {
    match o
    case VarA => s.(a := v)
    case VarX => s.(x := v)
    case MemWord(k) => if k < MEMWORDS then s.(mem := s.mem[k := v]) else s
    case _ => s
  }

  predicate IsShift(op: AssignOp) {
    op.OpTo? && (op.op.Lsh? || op.op.Rsh?)
  }

  /** An assignment; nothing when it divides by zero. A shift masks its count in place. */
  function Assigned(left: Obj, op: AssignOp, right: Obj, s: State, d: Data): Option<State> {
    var v := Value(right, s, d);
    match op
    case Equal => Some(Put(left, v, s))
    case Negative => Some(Put(left, Neg32(v), s))
    case OpTo(o) =>
      if o.Div? && v == 0 then None
      else if IsShift(op) then
        var masked := Put(right, v % 32, s);
        Some(Put(left, Compute(o, Value(left, masked, d), v % 32), masked))
      else Some(Put(left, Compute(o, Value(left, s, d), v), s))
  }

  predicate Holds(cmp: Comparator, a: u32, v: u32) {
    match cmp
    case EqualEqual => a == v
    case BangEqual => a != v
    case GreaterEqual => a >= v
    case GreaterThan => a > v
    case LessEqual => a <= v
    case LessThan => a < v
    case AndBits => And32(a, v) != 0
  }

  /** The label a jump takes. */
  function Taken(j: Body, s: State): Label
    requires j.Jump?
  {
    if !j.conditional then j.jt
    else if Holds(j.cmp, s.a, j.cmpobj.In(s)) != j.bang then j.jt
    else j.jf
  }

  /** The last line up to `from` and after `cur` that declares the label. */
  function Search(text: seq<Statement>, key: string, from: nat, cur: nat): Option<nat>
    requires from < |text|
    decreases from
  {
    if from <= cur then None
    else if text[from].labelDecl == key then Some(from)
    else Search(text, key, from - 1, cur)
  }

  /** The line a jump at line `t` goes to. */
  function TargetLine(text: seq<Statement>, code: seq<nat>, t: nat, l: Label): (r: Option<nat>)
    requires t < |text|
  {
    if l.key == "" then Some(t + 1)
    else
      var c := text[t].codeNr + l.codeNr + 1;
      if c < |code| && code[c] < |text| && text[code[c]].textNr < |text|
      then Search(text, l.key, text[code[c]].textNr, t)
      else None
  }

  lemma {:induction false} SearchIsAfter(text: seq<Statement>, key: string, from: nat, cur: nat)
    requires from < |text|
    ensures Search(text, key, from, cur).Some? ==> cur < Search(text, key, from, cur).value <= from
    decreases from
  {
    if from > cur && text[from].labelDecl != key {
      SearchIsAfter(text, key, from - 1, cur);
    }
  }

  /** What executing a line does: it goes on, it ends the run, or an assertion fails. */
  datatype LineStep = Goes(line: nat, s: State) | Ends | Lost

  function StepLine(text: seq<Statement>, code: seq<nat>, t: nat, s: State, d: Data): (r: LineStep)
    requires t < |text|
    ensures r.Goes? ==> r.line > t
  {
    match text[t].body
    case Assign(left, op, right) =>
      var r := Assigned(left, op, right, s, d);
      if r.Some? then Goes(t + 1, r.value) else Ends
    case Jump(_, _, _, _, _, _) =>
      var l := Taken(text[t].body, s);
      var line := TargetLine(text, code, t, l);
      if line.None? then Lost
      else
        assert line.value > t by {
          if l.key != "" {
            SearchIsAfter(text, l.key, text[code[text[t].codeNr + l.codeNr + 1]].textNr, t);
          }
        }
        Goes(line.value, s)
    case Return(_, _) => Ends
    case Empty => Goes(t + 1, s)
    case Bad => Lost
  }

  /** The action encoded in a return value; an unknown one kills the process. */
  function DecodeReturnK(k: u32): Verdict {
    match ReturnObj(k)
    case RetAction(a, data) => Verdict(a, data)
    case _ => Verdict(KillProc, 0)
  }

  /** The action the emulator shows for the statement a run ends with. */
  function VerdictOf(b: Body, s: State): Verdict {
    match b
    case Return(RetA, _) => DecodeReturnK(s.a)
    case Return(RetNumber(k), _) => DecodeReturnK(k)
    case Return(RetAction(a, data), _) => Verdict(a, data).Visible()
    case _ => Verdict(Kill, 0)
  }

  /** A run over lines: the line it ends with and what it shows. */
  datatype Ending = Ending(line: nat, verdict: Verdict)

  function RunLines(text: seq<Statement>, code: seq<nat>, t: nat, s: State, d: Data): Option<Ending>
    decreases |text| - t
  {
    if t >= |text| then None
    else
      match StepLine(text, code, t, s, d)
      case Goes(t', s') => RunLines(text, code, t', s', d)
      case Ends => Some(Ending(t, VerdictOf(text[t].body, s)))
      case Lost => None
  }
}
