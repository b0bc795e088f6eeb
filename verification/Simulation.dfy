/** The emulator over the lines of an accepted program simulates the machine over the words
    assembled from it. */
module Simulation {
  import opened Word
  import opened Bpf
  import opened Parser
  import opened Statements
  import opened Acceptance
  import opened Assembler
  import opened Resolver
  import opened Machine
  import opened Emulation

  /** The same statement, except for the action a previous run left in a return. */
  predicate SameCommand(b: Body, e: Body) {
    b == e || (b.Return? && e.Return? && b.ret == e.ret)
  }

  /** The body of line `t` once the arms are resolved. */
  function Expected(src: Source, t: nat): Body
    requires src.Accepted() && t < |src.text|
  {
    var c := src.text[t].codeNr;
    if 0 < c < |src.code| && src.code[c] == t then assert src.Fine(c); src.Resolved(c) else src.text[t].body
  }

  predicate LoadedAt(src: Source, text: seq<Statement>, t: nat)
    requires src.Accepted() && t < |src.text| == |text|
  {
    && text[t] == src.text[t].(body := text[t].body)
    && SameCommand(text[t].body, Expected(src, t))
  }

  /** The text of an accepted program, ready to be emulated for the first or a later time. */
  ghost predicate Loaded(src: Source, text: seq<Statement>) {
    && src.WellFormed() && src.Accepted() && |text| == |src.text|
    && forall t :: 0 <= t < |text| ==> LoadedAt(src, text, t)
  }

  lemma ResolvedIsLoaded(src: Source, text: seq<Statement>)
    requires src.WellFormed() && src.Accepted() && ResolvedText(src, text, |src.code|)
    ensures Loaded(src, text)
  {
    forall t | 0 <= t < |text|
      ensures LoadedAt(src, text, t)
    {
      assert ResolvedLine(src, text, |src.code|, t);
    }
  }

  /** The instruction of statement `c`. */
  function InstrAt(src: Source, c: nat): Instr
    requires src.Accepted() && 0 < c < |src.code|
  {
    assert src.Fine(c);
    EncodableInstr(src, c);
    InstrOf(src.Resolved(c)).value
  }

  lemma EncodableInstr(src: Source, c: nat)
    requires |src.code| >= 1 && 0 < c < |src.code| && src.Encodable(c)
    ensures InstrOf(src.Resolved(c)).Some?
    ensures ValidInstr(InstrOf(src.Resolved(c)).value, c - 1, src.Len())
  {
    var b := src.At(c);
    match b
    case Assign(left, op, right) =>
    case Jump(_, conditional, cmp, obj, jt, jf) =>
    case Return(r, v) =>
  }

  /** The words of an accepted program. */
  function Program(src: Source): (p: seq<Filter>)
    requires src.Accepted()
    ensures |p| == src.Len()
  {
    seq(src.Len(), pc requires 0 <= pc < src.Len() => Encode(InstrAt(src, pc + 1)))
  }

  lemma ProgramAt(src: Source, c: nat)
    requires src.Accepted() && 0 < c < |src.code|
    ensures Decode(Program(src)[c - 1]) == InstrAt(src, c)
  {
    DecodeEncode(InstrAt(src, c));
  }

  /** The kernel accepts what the resolver accepts. */
  lemma AcceptedIsValid(src: Source)
    requires src.Accepted()
    ensures ValidProgram(Program(src))
  {
    hide InstrAt, Decode, Encode, Source.Fine, InstrOf;
    var p := Program(src);
    forall i | 0 <= i < |p|
      ensures ValidAt(p, i)
    {
      ProgramAt(src, i + 1);
      InstrAtValid(src, i + 1);
    }
    ProgramAt(src, src.Len());
    LastReturns(src);
  }

  lemma InstrAtValid(src: Source, c: nat)
    requires src.Accepted() && 0 < c < |src.code|
    ensures src.Encodable(c)
    ensures InstrOf(src.Resolved(c)) == Some(InstrAt(src, c)) && ValidInstr(InstrAt(src, c), c - 1, src.Len())
  {
    assert src.Fine(c);
    EncodableInstr(src, c);
  }

  lemma LastReturns(src: Source)
    requires src.Accepted()
    ensures InstrAt(src, src.Len()).ReturnK? || InstrAt(src, src.Len()).ReturnA?
  {
    assert src.Fine(src.Len());
  }

  /** The assembler's words for the loaded text are the program. */
  lemma WordsAreProgram(src: Source, text: seq<Statement>)
    requires Loaded(src, text)
    ensures CanAssembleAll(text, src.code)
    ensures Words(text, src.code) == Program(src)
  {
    hide AsmBody, Encode, InstrAt, CanAssemble;
    forall c | 0 < c < |src.code|
      ensures src.code[c] < |text| && CanAssemble(text[src.code[c]].body)
      ensures AsmBody(text[src.code[c]].body) == Encode(InstrAt(src, c))
    {
      CommandAt(src, text, c);
      SameInstr(text[src.code[c]].body, src.Resolved(c));
      InstrAtValid(src, c);
      AssemblesInstr(text[src.code[c]].body);
    }
  }

  lemma SameInstr(b: Body, e: Body)
    requires SameCommand(b, e)
    ensures InstrOf(b) == InstrOf(e)
  {
  }

  lemma CommandAt(src: Source, text: seq<Statement>, c: nat)
    requires Loaded(src, text) && 0 < c < |src.code|
    ensures 0 < src.code[c] < |text|
    ensures text[src.code[c]].codeNr == c && text[src.code[c]].textNr == src.code[c]
    ensures src.Encodable(c) && SameCommand(text[src.code[c]].body, src.Resolved(c))
  {
    AtStatement(src, c);
    assert src.Fine(c);
    assert LoadedAt(src, text, src.code[c]);
  }

  /** Line `t` lies after the statement before `c` and at or before statement `c`. */
  predicate Before(src: Source, t: nat, c: nat) {
    0 < c < |src.code| && src.code[c - 1] < t <= src.code[c]
  }

  /** Such a line, unless it is the statement's own, is empty. */
  lemma EmptyBefore(src: Source, text: seq<Statement>, t: nat, c: nat)
    requires Loaded(src, text) && Before(src, t, c) && t < src.code[c]
    ensures t < |text| && text[t].body.Empty? && Before(src, t + 1, c)
  {
    AtStatement(src, c);
    var n := src.text[t].codeNr as nat;
    assert LineAt(src.text, src.code, t);
    assert n == c;
    assert LoadedAt(src, text, t);
  }

  lemma {:induction false} SearchFinds(text: seq<Statement>, key: string, from: nat, cur: nat, t: nat)
    requires cur < t <= from < |text| && text[t].labelDecl == key
    ensures Search(text, key, from, cur).Some? && t <= Search(text, key, from, cur).value
    decreases from
  {
    if text[from].labelDecl != key {
      SearchFinds(text, key, from - 1, cur, t);
    }
  }

  /** A jump finds its label: the line is after the jump and at or before the statement it
      names, with only empty lines between. */
  lemma FindsLabel(src: Source, text: seq<Statement>, c: nat, l: Label)
    requires Loaded(src, text) && 0 < c < |src.code|
    requires src.Near(src.Dest(l, c), c, false) && l.codeNr == src.Dest(l, c) - c - 1
    ensures src.code[c] < |text|
    ensures var line := TargetLine(text, src.code, src.code[c], l);
            line.Some? && Before(src, line.value, src.Dest(l, c))
  {
    CommandAt(src, text, c);
    var n := src.Dest(l, c);
    CommandAt(src, text, n);
    if l.key != "" {
      CodeFits(src.text, src.code, src.Len());
      assert l.key in src.table && DeclaredOn(src.text, l.key, n);
      var t :| 0 < t < |src.text| && src.text[t].labelDecl == l.key && src.text[t].codeNr == n;
      assert LineAt(src.text, src.code, t);
      assert src.code[c] <= src.code[n - 1];
      assert LoadedAt(src, text, t);
      SearchFinds(text, l.key, src.code[n], src.code[c], t);
      SearchIsAfter(text, l.key, src.code[n], src.code[c]);
    }
  }

  /** Comparing as written, then negating, is the machine's comparison with its arms. */
  lemma TakesArm(j: Body, s: State)
    requires j.Jump? && j.conditional
    ensures Taken(j, s) == if Compare(Comparison(j.cmp), s.a, j.cmpobj.In(s)) then HoldsArm(j) else FailsArm(j)
  {
  }

  lemma AssignSimulates(left: Obj, op: AssignOp, right: Obj, pc: nat, s: State, d: Data)
    requires ValidAssign(left, op, right)
    ensures var r := Assigned(left, op, right, s, d);
            ExecOn(Emulated, AssignInstr(left, op, right).value, pc, s, d) == if r.Some? then Next(pc + 1, r.value) else Done(0)
  {
    match op
    case OpTo(o) => ComputeSimulates(left, o, right, pc, s, d);
    case _ => MoveSimulates(left, op, right, pc, s, d);
  }

  lemma ComputeSimulates(left: Obj, o: AluOp, right: Obj, pc: nat, s: State, d: Data)
    requires ValidAssign(left, OpTo(o), right)
    ensures var r := Assigned(left, OpTo(o), right, s, d);
            ExecOn(Emulated, AssignInstr(left, OpTo(o), right).value, pc, s, d)
            == if r.Some? then Next(pc + 1, r.value) else Done(0)
  {
    hide Compute, Neg32;
    ShiftCountMasked(o, s.a, Value(right, s, d));
  }

  lemma MoveSimulates(left: Obj, op: AssignOp, right: Obj, pc: nat, s: State, d: Data)
    requires ValidAssign(left, op, right) && !op.OpTo?
    ensures Assigned(left, op, right, s, d).Some?
    ensures ExecOn(Emulated, AssignInstr(left, op, right).value, pc, s, d) == Next(pc + 1, Assigned(left, op, right, s, d).value)
  {
    hide Compute, Neg32;
  }

  lemma ShiftCountMasked(o: AluOp, a: u32, v: u32)
    ensures o.Lsh? || o.Rsh? ==> Compute(o, a, v % 32) == Compute(o, a, v)
  {
  }

  /** Encoding an action and decoding the return value shows the same action. */
  lemma ActionShown(a: Action, data: u32)
    requires data <= SECCOMP_RET_DATA
    ensures DecodeReturnK(a.Code() + data) == Verdict(a, data).Visible()
  {
    assert (a.Code() + data) % 0x1_0000 == data;
  }

  /** What a line ends a run with is what the machine returns there. */
  lemma EndShown(src: Source, b: Body, c: nat, s: State, d: Data)
    requires src.Accepted() && 0 < c < |src.code| && !src.At(c).Jump?
    requires src.Encodable(c) && SameCommand(b, src.Resolved(c))
    ensures var r := ExecOn(Emulated, InstrAt(src, c), c - 1, s, d);
            r.Done? ==> VerdictOf(b, s) == DecodeReturnK(r.ret)
  {
    hide DecodeReturnK, Compute, Neg32;
    match b
    case Return(RetAction(a, data), _) => ActionShown(a, data);
    case Return(_, _) =>
    case Assign(left, op, right) =>
      AssignSimulates(left, op, right, c - 1, s, d);
      ActionShown(Kill, 0);
    case _ =>
  }

  /** One statement: the line does what the instruction does, and goes on at a line before the
      statement of the next instruction. */
  predicate Simulates(src: Source, text: seq<Statement>, c: nat, s: State, d: Data)
    requires src.Accepted() && 0 < c < |src.code| && src.code[c] < |text|
  {
    match ExecOn(Emulated, InstrAt(src, c), c - 1, s, d)
    case Next(pc, s') =>
      var e := StepLine(text, src.code, src.code[c], s, d);
      e.Goes? && e.s == s' && Before(src, e.line, pc + 1)
    case Done(v) =>
      StepLine(text, src.code, src.code[c], s, d).Ends? && VerdictOf(text[src.code[c]].body, s) == DecodeReturnK(v)
    case Stuck => false
  }

  lemma JumpSimulates(src: Source, text: seq<Statement>, c: nat, s: State, d: Data)
    requires Loaded(src, text) && 0 < c < |src.code| && src.At(c).Jump?
    ensures src.code[c] < |text| && Simulates(src, text, c, s, d)
  {
    hide Loaded, LoadedAt, Source.Accepted, TargetLine, Before, Compare, Holds;
    CommandAt(src, text, c);
    LoadedAccepted(src, text);
    var b := text[src.code[c]].body;
    var l := Taken(b, s);
    if b.conditional {
      TakesArm(b, s);
    }
    FindsLabel(src, text, c, l);
  }

  lemma LoadedAccepted(src: Source, text: seq<Statement>)
    requires Loaded(src, text)
    ensures src.WellFormed() && src.Accepted() && |text| == |src.text|
  {
  }

  lemma OtherSimulates(src: Source, text: seq<Statement>, c: nat, s: State, d: Data)
    requires Loaded(src, text) && 0 < c < |src.code| && !src.At(c).Jump?
    ensures src.code[c] < |text| && Simulates(src, text, c, s, d)
  {
    hide Loaded, LoadedAt, Source.Accepted, DecodeReturnK, Compute, Assigned, AssignInstr;
    CommandAt(src, text, c);
    LoadedAccepted(src, text);
    var b := text[src.code[c]].body;
    EndShown(src, b, c, s, d);
    if b.Assign? {
      AssignSimulates(b.left, b.op, b.right, c - 1, s, d);
      NextLine(src, c);
    }
  }

  /** An assignment is not last, and the line after it is before the next statement. */
  lemma NextLine(src: Source, c: nat)
    requires src.WellFormed() && src.Accepted() && 0 < c < |src.code| && src.At(c).Assign?
    ensures Before(src, src.code[c] + 1, c + 1)
  {
  }

  lemma StepSimulates(src: Source, text: seq<Statement>, c: nat, s: State, d: Data)
    requires Loaded(src, text) && 0 < c < |src.code|
    ensures src.code[c] < |text| && src.Accepted() && Simulates(src, text, c, s, d)
  {
    if src.At(c).Jump? {
      JumpSimulates(src, text, c, s, d);
    } else {
      OtherSimulates(src, text, c, s, d);
    }
  }

  lemma EmptyGoesOn(text: seq<Statement>, code: seq<nat>, t: nat, s: State, d: Data)
    requires t < |text| && text[t].body.Empty?
    ensures StepLine(text, code, t, s, d) == Goes(t + 1, s)
  {
  }

  /** From any line before statement `c`, the emulator ends and shows the action that the
      machine returns from that statement on. */
  lemma {:induction false} RunSimulates(src: Source, text: seq<Statement>, t: nat, c: nat, s: State, d: Data)
    requires Loaded(src, text) && Before(src, t, c)
    ensures var e, r := RunLines(text, src.code, t, s, d), RunOn(Emulated, Program(src), c - 1, s, d);
            e.Some? && r.Some? && e.value.verdict == DecodeReturnK(r.value)
    decreases |text| - t
  {
    hide Loaded, LoadedAt, Source.Accepted, Program, Decode, ExecOn, StepLine, InstrAt, VerdictOf, DecodeReturnK;
    LoadedAccepted(src, text);
    CommandAt(src, text, c);
    if t < src.code[c] {
      EmptyBefore(src, text, t, c);
      EmptyGoesOn(text, src.code, t, s, d);
      RunSimulates(src, text, t + 1, c, s, d);
    } else {
      StepSimulates(src, text, c, s, d);
      ProgramAt(src, c);
      ProgramLen(src);
      var r := ExecOn(Emulated, InstrAt(src, c), c - 1, s, d);
      if r.Next? {
        var e := StepLine(text, src.code, src.code[c], s, d);
        RunSimulates(src, text, e.line, r.pc + 1, r.s, d);
      }
    }
  }

  lemma ProgramLen(src: Source)
    requires src.Accepted()
    ensures |Program(src)| == |src.code| - 1
  {
  }
}
