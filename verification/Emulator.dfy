/** The emulator: registers, scratch memory and attributes that live from one emulation to the
    next, and a loop over the lines of the text. */
module Emulator {
  import opened Word
  import opened Bpf
  import opened Parser
  import opened Statements
  import opened Acceptance
  import opened Machine
  import opened Emulation
  import opened Simulation
  import opened Scratch

  /** What a run is asked about: a system call by number and architecture, where it was made and
      its six arguments. */
  datatype EmuArg = EmuArg(nr: u32, arch: u32, ip: u64, args: SixArgs)
  type SixArgs = a: seq<u64> | |a| == 6 witness seq(6, _ => 0)

  /** Attributes in the order of struct seccomp_data, whose arguments are 64-bit words with
      their low halves first. */
  function AttrWords(nr: u32, arch: u32, lowPc: u32, highPc: u32, low: seq<u32>, high: seq<u32>): Data
    requires |low| == 6 && |high| == 6
  {
    [nr, arch, lowPc, highPc] + seq(12, i requires 0 <= i < 12 => if i % 2 == 0 then low[i / 2] else high[i / 2])
  }

  /** The same as the words of struct seccomp_data. */
  function DataOf(arg: EmuArg): Data {
    AttrWords(arg.nr, arg.arch, Low(arg.ip), High(arg.ip),
              seq(6, i requires 0 <= i < 6 => Low(arg.args[i])), seq(6, i requires 0 <= i < 6 => High(arg.args[i])))
  }

  /** The words hold the number, the architecture, and the halves of the other fields, low half
      first. */
  lemma DataIs(arg: EmuArg)
    ensures var d := DataOf(arg);
            && d[0] == arg.nr && d[1] == arg.arch && d[2] as int + 0x1_0000_0000 * d[3] as int == arg.ip
            && forall k :: 0 <= k < 6 ==> d[4 + 2 * k] as int + 0x1_0000_0000 * d[5 + 2 * k] as int == arg.args[k]
  {
    var d := DataOf(arg);
    HalvesOf(arg.ip);
    forall k | 0 <= k < 6
      ensures d[4 + 2 * k] as int + 0x1_0000_0000 * d[5 + 2 * k] as int == arg.args[k]
    {
      HalvesOf(arg.args[k]);
    }
  }

  lemma HalvesOf(v: u64)
    ensures Low(v) as int + 0x1_0000_0000 * High(v) as int == v
  {
  }

  /** What the operands of the language stand for in an emulation. */
  lemma OperandsAre(arg: EmuArg, s: State)
    ensures var d := DataOf(arg);
            && Value(SyscallNr, s, d) == arg.nr && Value(ArchNr, s, d) == arg.arch
            && Value(LowPc, s, d) as int + 0x1_0000_0000 * Value(HighPc, s, d) as int == arg.ip
            && (forall k: u32 :: k < 6 ==> Value(LowArg(k), s, d) as int + 0x1_0000_0000 * Value(HighArg(k), s, d) as int == arg.args[k])
            && Value(DataLen, s, d) == 64 && Value(VarA, s, d) == s.a && Value(VarX, s, d) == s.x
            && (forall k: u32 :: Value(Number(k), s, d) == k && (k < 16 ==> Value(MemWord(k), s, d) == s.mem[k]))
  {
    DataIs(arg);
    hide DataOf;
  }

  function Cleared(): Mem {
    seq(MEMWORDS, _ => 0)
  }

  /** What emulating an accepted program shows: the action of the value that its words return
      on the emulated machine, starting from cleared memory. */
  function Shows(src: Source, arg: EmuArg): Verdict
    requires src.Accepted()
  {
    var r := RunOn(Emulated, Program(src), 0, State(0, 0, Cleared()), DataOf(arg));
    if r.Some? then DecodeReturnK(r.value) else Verdict(Kill, 0)
  }

  /** How the action and data of a return value are noted: data only where there is some. */
  function DecodeInto(before: Verdict, k: u32): Verdict {
    match ReturnObj(k)
    case RetAction(a, data) => Verdict(a, if a.HasData() then data else before.data)
    case _ => Verdict(KillProc, k)
  }

  /** The data left over from an earlier run is never shown. */
  lemma LeftoverDataHidden(before: Verdict, k: u32)
    ensures DecodeInto(before, k).Visible() == DecodeReturnK(k)
  {
  }

  class Emulator {
    var aReg: u32
    var xReg: u32
    const mem: array<u32>
    var syscallNr: u32
    var scmpArch: u32
    var lowPc: u32
    var highPc: u32
    const lowArgs: array<u32>
    const highArgs: array<u32>

    ghost predicate Valid() {
      mem.Length == MEMWORDS && lowArgs.Length == 6 && highArgs.Length == 6
      && mem != lowArgs && mem != highArgs && lowArgs != highArgs
    }

    function Regs(): State
      requires Valid()
      reads this, mem
    {
      State(aReg, xReg, mem[..])
    }

    function Attrs(): Data
      requires Valid()
      reads this, lowArgs, highArgs
    {
      AttrWords(syscallNr, scmpArch, lowPc, highPc, lowArgs[..], highArgs[..])
    }

    constructor ()
      ensures Valid() && fresh(mem) && fresh(lowArgs) && fresh(highArgs)
      ensures Regs() == State(0, 0, Cleared())
    {
      aReg, xReg, syscallNr, scmpArch, lowPc, highPc := 0, 0, 0, 0, 0, 0;
      mem := new u32[MEMWORDS](_ => 0);
      lowArgs := new u32[6](_ => 0);
      highArgs := new u32[6](_ => 0);
      new;
      assert mem[..] == Cleared();
    }

    /** What the pointer to an operand points at. */
    method Fetch(o: Obj) returns (v: u32)
      requires Valid()
      requires (o.MemWord? ==> o.k < MEMWORDS) && (o.LowArg? || o.HighArg? ==> o.k < 6)
      ensures v == Value(o, Regs(), Attrs())
    {
      match o
      case VarA => v := aReg;
      case VarX => v := xReg;
      case MemWord(k) => v := mem[k];
      case Number(k) => v := k;
      case DataLen => v := DATA_LEN;
      case SyscallNr => v := syscallNr;
      case ArchNr => v := scmpArch;
      case LowPc => v := lowPc;
      case HighPc => v := highPc;
      case LowArg(k) => v := lowArgs[k];
      case HighArg(k) => v := highArgs[k];
    }

    method Write(o: Obj, v: u32)
      requires Valid() && (o.VarA? || o.VarX? || (o.MemWord? && o.k < MEMWORDS))
      modifies this`aReg, this`xReg, mem
      ensures Regs() == Put(o, v, old(Regs()))
      ensures Attrs() == old(Attrs())
    {
      match o
      case VarA => aReg := v;
      case VarX => xReg := v;
      case MemWord(k) => mem[k] := v;
    }

    /** assign_line: true when the run is interrupted by a division by zero. */
    method AssignLine(text: array<Statement>, t: nat) returns (fpe: bool)
      requires Valid() && t < text.Length && text[t].body.Assign?
      requires ValidAssign(text[t].body.left, text[t].body.op, text[t].body.right)
      modifies this`aReg, this`xReg, mem, text
      ensures text[..] == old(text[..]) && Attrs() == old(Attrs())
      ensures Assigned(text[t].body.left, text[t].body.op, text[t].body.right, old(Regs()), old(Attrs()))
              == if fpe then None else Some(Regs())
      ensures fpe ==> Regs() == old(Regs())
    {
      hide Compute, Neg32, AttrWords;
      var b := text[t].body;
      var v := Fetch(b.right);
      fpe := false;
      match b.op
      case Equal =>
        Write(b.left, v);
      case Negative =>
        Write(b.left, Neg32(v));
      case OpTo(o) =>
        if o.Div? && v == 0 {
          fpe := true;
          return;
        }
        if o.Lsh? || o.Rsh? {
          v := v % 32;
          if b.right.Number? {
            text[t] := text[t].(body := Assign(b.left, b.op, Number(v)));
          } else {
            Write(b.right, v);
          }
        }
        Write(b.left, Compute(o, aReg, v));
    }

    /** jump_line: the label to go to. */
    method JumpLine(j: Body) returns (l: Label)
      requires Valid() && j.Jump?
      ensures l == Taken(j, Regs())
    {
      if !j.conditional {
        return j.jt;
      }
      var right := if j.cmpobj.RegX? then xReg else j.cmpobj.k;
      var holds :=
        match j.cmp
        case EqualEqual => aReg == right
        case BangEqual => aReg != right
        case GreaterEqual => aReg >= right
        case GreaterThan => aReg > right
        case LessEqual => aReg <= right
        case LessThan => aReg < right
        case AndBits => And32(aReg, right) != 0;
      l := if j.bang != holds then j.jt else j.jf;
    }

    /** code_nr_to_text_nr: looks backwards from the statement a label resolves to. */
    method CodeNrToTextNr(text: array<Statement>, code: seq<nat>, t: nat, l: Label) returns (textNr: nat)
      requires t < text.Length && text[t].textNr == t && TargetLine(text[..], code, t, l).Some?
      ensures TargetLine(text[..], code, t, l) == Some(textNr)
    {
      if l.key == "" {
        return text[t].textNr + 1;
      }
      ghost var lines := text[..];
      var target := text[code[text[t].codeNr + l.codeNr + 1]];
      textNr := target.textNr;
      while textNr > t
        invariant textNr < text.Length
        invariant Search(lines, l.key, textNr, t) == TargetLine(lines, code, t, l)
        decreases textNr
      {
        assert lines[textNr] == text[textNr];
        if text[textNr].labelDecl == l.key {
          break;
        }
        textNr := textNr - 1;
      }
      assert Search(lines, l.key, textNr, t) == Some(textNr);
    }

    /** return_line: notes the action in the statement; stale data stays where there is none. */
    method ReturnLine(text: array<Statement>, t: nat)
      requires Valid() && t < text.Length && text[t].body.Return?
      modifies text
      ensures text[..] == old(text[..])[t := text[t]]
      ensures text[t] == old(text[t]).(body := text[t].body) && SameCommand(text[t].body, old(text[t].body))
      ensures text[t].body.verdict.Visible() == old(VerdictOf(text[t].body, Regs()))
    {
      var b := text[t].body;
      var v: Verdict;
      match b.ret {
      case RetA =>
        LeftoverDataHidden(b.verdict, aReg);
        v := DecodeInto(b.verdict, aReg);
        assert b == Return(RetA, b.verdict);
      case RetNumber(k) =>
        LeftoverDataHidden(b.verdict, k);
        v := DecodeInto(b.verdict, k);
        assert b == Return(RetNumber(k), b.verdict);
      case RetAction(action, data) =>
        v := Verdict(action, data);
      }
      text[t] := text[t].(body := Return(b.ret, v));
    }

    /** emulator: reads every line and executes those that control reaches. */
    method Run(ghost src: Source, text: array<Statement>, code: seq<nat>) returns (last: nat)
      requires Valid() && Loaded(src, text[..]) && code == src.code
      modifies this`aReg, this`xReg, mem, text
      ensures Loaded(src, text[..]) && last < text.Length
      ensures Some(Ending(last, if text[last].body.Return? then text[last].body.verdict.Visible() else Verdict(Kill, 0)))
              == RunLines(old(text[..]), code, 1, old(Regs()), old(Attrs()))
    {
      hide Loaded, RunLines, StepLine;
      ghost var lines, expected := text[..], RunLines(text[..], code, 1, Regs(), Attrs());
      ghost var attrs := Attrs();
      RunEnds(src, lines, Regs(), attrs);
      var readIdx, execIdx := 1, 1;
      while readIdx < text.Length
        invariant 1 <= readIdx <= execIdx
        invariant text[..] == lines && Attrs() == attrs
        invariant RunLines(lines, code, execIdx, Regs(), attrs) == expected
      {
        if readIdx < execIdx {
          readIdx := readIdx + 1;
          continue;
        }
        execIdx := execIdx + 1;
        last := readIdx;
        ghost var regs := Regs();
        LineStepped(src, lines, last, regs, attrs);
        var b := text[last].body;
        match b {
        case Assign(_, _, _) =>
          var fpe := AssignLine(text, last);
          if fpe {
            return;
          }
        case Jump(_, _, _, _, _, _) =>
          var l := JumpLine(b);
          execIdx := CodeNrToTextNr(text, code, last, l);
        case Return(_, _) =>
          ReturnLine(text, last);
          VerdictKeepsLoaded(src, lines, text[..], last);
          return;
        case Empty =>
        }
        readIdx := readIdx + 1;
      }
      EndsInside(lines, code, execIdx, Regs(), attrs);
    }

    /** init_attr: clears the registers and takes the attributes; scratch memory stays as it is. */
    method InitAttr(arg: EmuArg)
      requires Valid()
      modifies this`aReg, this`xReg, this`syscallNr, this`scmpArch, this`lowPc, this`highPc, lowArgs, highArgs
      ensures Regs() == State(0, 0, old(Regs()).mem) && Attrs() == DataOf(arg)
      ensures syscallNr == arg.nr && scmpArch == arg.arch && lowPc as int + 0x1_0000_0000 * highPc as int == arg.ip
      ensures forall k :: 0 <= k < 6 ==> lowArgs[k] as int + 0x1_0000_0000 * highArgs[k] as int == arg.args[k]
    {
      HalvesOf(arg.ip);
      aReg, xReg := 0, 0;
      syscallNr, scmpArch := arg.nr, arg.arch;
      lowPc, highPc := Low(arg.ip), High(arg.ip);
      for i := 0 to 6
        invariant forall j :: 0 <= j < i ==> lowArgs[j] == Low(arg.args[j]) && highArgs[j] == High(arg.args[j])
        invariant forall j :: 0 <= j < i ==> lowArgs[j] as int + 0x1_0000_0000 * highArgs[j] as int == arg.args[j]
        modifies lowArgs, highArgs
      {
        lowArgs[i], highArgs[i] := Low(arg.args[i]), High(arg.args[i]);
        HalvesOf(arg.args[i]);
      }
      assert lowArgs[..] == seq(6, i requires 0 <= i < 6 => Low(arg.args[i]));
      assert highArgs[..] == seq(6, i requires 0 <= i < 6 => High(arg.args[i]));
    }

    /** emulate_v, quietly: shows the action for one system call. What earlier emulations left
        in scratch memory and in the text makes no difference to it. */
    method EmulateV(ghost src: Source, text: array<Statement>, code: seq<nat>, arg: EmuArg) returns (shown: Verdict)
      requires Valid() && Loaded(src, text[..]) && code == src.code
      modifies this, mem, lowArgs, highArgs, text
      ensures Loaded(src, text[..]) && src.Accepted()
      ensures shown == Shows(src, arg)
    {
      LoadedAccepted(src, text[..]);
      InitAttr(arg);
      ShowsRun(src, text[..], Regs().mem, arg);
      var last := Run(src, text, code);
      shown := if text[last].body.Return? then text[last].body.verdict.Visible() else Verdict(Kill, 0);
    }

    /** Several emulations of one text, as probing does: each shows what it would show alone. */
    method Probe(ghost src: Source, text: array<Statement>, code: seq<nat>, probes: seq<EmuArg>) returns (shown: seq<Verdict>)
      requires Valid() && Loaded(src, text[..]) && code == src.code && src.Accepted()
      modifies this, mem, lowArgs, highArgs, text
      ensures Loaded(src, text[..])
      ensures |shown| == |probes| && forall i :: 0 <= i < |probes| ==> shown[i] == Shows(src, probes[i])
    {
      shown := [];
      for i := 0 to |probes|
        invariant Loaded(src, text[..])
        invariant |shown| == i && forall j :: 0 <= j < i ==> shown[j] == Shows(src, probes[j])
      {
        hide Loaded, Shows;
        var v := EmulateV(src, text, code, probes[i]);
        shown := shown + [v];
      }
    }
  }

  /** From any scratch memory, the lines show what the words return from cleared memory. */
  lemma {:induction false} ShowsRun(src: Source, text: seq<Statement>, mem: Mem, arg: EmuArg)
    requires Loaded(src, text) && src.Accepted()
    ensures var e := RunLines(text, src.code, 1, State(0, 0, mem), DataOf(arg));
            e.Some? && e.value.verdict == Shows(src, arg)
  {
    hide Program, RunOn, RunLines, DecodeReturnK, Source.Accepted, Loaded, LoadedAt;
    LoadedAccepted(src, text);
    FirstLine(src);
    RunSimulates(src, text, 1, 1, State(0, 0, mem), DataOf(arg));
    AcceptedForgetsScratch(Emulated, src, mem, Cleared(), DataOf(arg));
  }

  lemma FirstLine(src: Source)
    requires src.WellFormed() && src.Accepted()
    ensures Before(src, 1, 1)
  {
  }

  lemma {:induction false} RunEnds(src: Source, text: seq<Statement>, s: State, d: Data)
    requires Loaded(src, text)
    ensures RunLines(text, src.code, 1, s, d).Some?
  {
    LoadedAccepted(src, text);
    assert src.code[0] < 1 <= src.code[1];
    RunSimulates(src, text, 1, 1, s, d);
  }

  lemma {:induction false} EndsInside(text: seq<Statement>, code: seq<nat>, t: nat, s: State, d: Data)
    requires RunLines(text, code, t, s, d).Some?
    ensures t < |text|
  {
  }

  /** What the run from a line on owes to executing that line. */
  lemma LineStepped(src: Source, text: seq<Statement>, t: nat, s: State, d: Data)
    requires Loaded(src, text) && 0 < t < |text| && RunLines(text, src.code, t, s, d).Some?
    ensures text[t].textNr == t
    ensures var b := text[t].body;
      match b
      case Assign(left, op, right) =>
        ValidAssign(left, op, right)
        && RunLines(text, src.code, t, s, d)
           == (match Assigned(left, op, right, s, d)
               case Some(s') => RunLines(text, src.code, t + 1, s', d)
               case None => Some(Ending(t, Verdict(Kill, 0))))
      case Jump(_, _, _, _, _, _) =>
        var line := TargetLine(text, src.code, t, Taken(b, s));
        line.Some? && t < line.value && RunLines(text, src.code, t, s, d) == RunLines(text, src.code, line.value, s, d)
      case Return(_, _) => RunLines(text, src.code, t, s, d) == Some(Ending(t, VerdictOf(b, s)))
      case Empty => RunLines(text, src.code, t, s, d) == RunLines(text, src.code, t + 1, s, d)
      case Bad => false
  {
    hide Assigned, DecodeReturnK, TargetLine, ValidAssign;
    assert LoadedAt(src, text, t);
    assert LineAt(src.text, src.code, t);
    var step := StepLine(text, src.code, t, s, d);
    var c := src.text[t].codeNr;
    if 0 < c < |src.code| && src.code[c] == t {
      assert src.Fine(c);
    }
  }

  /** Noting an action in a return leaves the text ready to be emulated again. */
  lemma VerdictKeepsLoaded(src: Source, before: seq<Statement>, after: seq<Statement>, t: nat)
    requires Loaded(src, before) && t < |before| == |after| && after == before[t := after[t]]
    requires after[t] == before[t].(body := after[t].body) && SameCommand(after[t].body, before[t].body)
    ensures Loaded(src, after)
  {
    forall u | 0 <= u < |after|
      ensures LoadedAt(src, after, u)
    {
      assert LoadedAt(src, before, u);
    }
  }
}
