/** The classic machine as the kernel runs it and as the emulator imitates it, which also
    writes a masked shift count back into the index register. */
module Machine {
  import opened Word
  import opened Bpf

  datatype Machine = Kernel | Emulated

  predicate ShiftsByX(i: Instr) {
    i.Arith? && (i.op.Lsh? || i.op.Rsh?) && i.operand.RegX?
  }

  function ExecOn(m: Machine, i: Instr, pc: nat, s: State, data: Data): (r: Step)
    ensures r.Next? ==> r.pc > pc
  {
    if m.Emulated? && ShiftsByX(i)
    then Next(pc + 1, State(Compute(i.op, s.a, s.x), s.x % 32, s.mem))
    else Exec(i, pc, s, data)
  }

  function RunOn(m: Machine, p: seq<Filter>, pc: nat, s: State, data: Data): Option<u32>
    decreases |p| - pc
  {
    if pc >= |p| then None
    else
      match ExecOn(m, Decode(p[pc]), pc, s, data)
      case Done(v) => Some(v)
      case Next(pc', s') => RunOn(m, p, pc', s', data)
      case Stuck => None
  }

  lemma {:induction false} KernelRuns(p: seq<Filter>, pc: nat, s: State, data: Data)
    ensures RunOn(Kernel, p, pc, s, data) == Run(p, pc, s, data)
    decreases |p| - pc
  {
    if pc < |p| {
      var r := Exec(Decode(p[pc]), pc, s, data);
      if r.Next? {
        KernelRuns(p, r.pc, r.s, data);
      }
    }
  }

  /** Where a run is and what it holds before every instruction it executes, and at its end. */
  function Trace(m: Machine, p: seq<Filter>, pc: nat, s: State, data: Data): (t: seq<(nat, State)>)
    ensures |t| >= 1 && t[0] == (pc, s)
    decreases |p| - pc
  {
    if pc >= |p| then [(pc, s)]
    else
      match ExecOn(m, Decode(p[pc]), pc, s, data)
      case Next(pc', s') => [(pc, s)] + Trace(m, p, pc', s', data)
      case _ => [(pc, s)]
  }

  /** Every shift by the index register that the kernel's run executes finds less than 32 in it. */
  predicate SmallShifts(p: seq<Filter>, pc: nat, s: State, data: Data)
    decreases |p| - pc
  {
    pc < |p| ==>
      && (ShiftsByX(Decode(p[pc])) ==> s.x < 32)
      && match Exec(Decode(p[pc]), pc, s, data)
         case Next(pc', s') => SmallShifts(p, pc', s', data)
         case _ => true
  }

  /** One instruction has the same effect on both exactly when it does not shift by a large
      index register. */
  lemma SameStep(i: Instr, pc: nat, s: State, data: Data)
    ensures ExecOn(Emulated, i, pc, s, data) == Exec(i, pc, s, data) <==> (ShiftsByX(i) ==> s.x < 32)
  {
    hide Compute;
  }

  /** The emulator and the kernel go through the same states exactly when no executed shift
      has a large count in the index register. */
  lemma {:induction false} LockstepExactly(p: seq<Filter>, pc: nat, s: State, data: Data)
    ensures Trace(Emulated, p, pc, s, data) == Trace(Kernel, p, pc, s, data) <==> SmallShifts(p, pc, s, data)
    decreases |p| - pc
  {
    hide Compute, Decode;
    if pc < |p| {
      var i := Decode(p[pc]);
      SameStep(i, pc, s, data);
      var k := Exec(i, pc, s, data);
      var e := ExecOn(Emulated, i, pc, s, data);
      if k.Next? {
        assert e.Next?;
        assert Trace(Kernel, p, pc, s, data)[1..] == Trace(Kernel, p, k.pc, k.s, data);
        assert Trace(Emulated, p, pc, s, data)[1..] == Trace(Emulated, p, e.pc, e.s, data);
        LockstepExactly(p, k.pc, k.s, data);
      }
    }
  }

  /** On such runs the results agree as well. */
  lemma {:induction false} SameResult(p: seq<Filter>, pc: nat, s: State, data: Data)
    requires SmallShifts(p, pc, s, data)
    ensures RunOn(Emulated, p, pc, s, data) == Run(p, pc, s, data)
    decreases |p| - pc
  {
    hide Compute, Decode;
    if pc < |p| {
      var i := Decode(p[pc]);
      SameStep(i, pc, s, data);
      var k := Exec(i, pc, s, data);
      if k.Next? {
        SameResult(p, k.pc, k.s, data);
      }
    }
  }

  /** A program without shifts by the index register never shifts by a large one. */
  lemma {:induction false} NoShiftsByX(p: seq<Filter>, pc: nat, s: State, data: Data)
    requires forall i :: 0 <= i < |p| ==> !ShiftsByX(Decode(p[i]))
    ensures SmallShifts(p, pc, s, data)
    decreases |p| - pc
  {
    hide Compute, Decode;
    if pc < |p| {
      var k := Exec(Decode(p[pc]), pc, s, data);
      if k.Next? {
        NoShiftsByX(p, k.pc, k.s, data);
      }
    }
  }

  /** A program on which they differ: it shifts by 33 and returns the index register. */
  const LARGE_SHIFT: seq<Filter> := [
    Encode(LoadImm(X, 33)),
    Encode(Arith(Lsh, RegX)),
    Encode(Txa),
    Encode(ReturnA)
  ]

  lemma LargeShiftDecodes()
    ensures var p := LARGE_SHIFT;
            |p| == 4 && Decode(p[0]) == LoadImm(X, 33) && Decode(p[1]) == Arith(Lsh, RegX)
            && Decode(p[2]) == Txa && Decode(p[3]) == ReturnA
  {
    hide Decode, Encode;
    DecodeEncode(LoadImm(X, 33));
    DecodeEncode(Arith(Lsh, RegX));
    DecodeEncode(Txa);
    DecodeEncode(ReturnA);
  }

  /** Either machine on it, step by step. */
  lemma {:induction false} LargeShiftRuns(m: Machine, mem: Mem, data: Data)
    ensures RunOn(m, LARGE_SHIFT, 0, State(0, 0, mem), data) == Some(if m.Kernel? then 33 else 1)
  {
    hide Compute, Decode, Encode;
    LargeShiftDecodes();
    var p, v, x := LARGE_SHIFT, Compute(Lsh, 0, 33), if m.Kernel? then 33 else 1;
    assert RunOn(m, p, 3, State(x, x, mem), data) == Some(x);
    assert RunOn(m, p, 2, State(v, x, mem), data) == Some(x);
    assert RunOn(m, p, 1, State(0, 33, mem), data) == Some(x);
  }

  lemma {:induction false} LargeShiftDiffers(mem: Mem, data: Data)
    ensures ValidProgram(LARGE_SHIFT)
    ensures RunOn(Emulated, LARGE_SHIFT, 0, State(0, 0, mem), data) == Some(1)
    ensures Result(LARGE_SHIFT, mem, data) == Some(33)
  {
    hide Decode, Encode;
    LargeShiftDecodes();
    LargeShiftRuns(Kernel, mem, data);
    LargeShiftRuns(Emulated, mem, data);
    KernelRuns(LARGE_SHIFT, 0, State(0, 0, mem), data);
  }
}
