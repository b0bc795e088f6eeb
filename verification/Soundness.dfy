/** The recovered program returns what the migrated program, and the classic program it was
    migrated from, return. */
module Soundness {
  import opened Word
  import opened Bpf
  import opened Ebpf
  import opened Migration
  import opened Recovery
  import opened Folding
  import opened Relocation

  // ----- compression -----

  lemma {:induction false} CompressAt(c: seq<Filter>, holes: set<nat>, i: nat, len: nat, x: nat)
    requires len <= |c| && i <= x < len && x !in holes
    ensures var out, r := Compress(c, holes, i, len), x - i - Count(holes, i, x);
            0 <= r < |out| && out[r] == c[x]
    decreases len - i
  {
    if i < x {
      CompressAt(c, holes, i + 1, len, x);
      CountSplit(holes, i, i + 1, x);
      assert Count(holes, i, i + 1) == Count(holes, i, i) + (if i in holes then 1 else 0);
    }
  }

  lemma {:induction false} CompressLength(c: seq<Filter>, holes: set<nat>, i: nat, len: nat)
    requires i <= len <= |c|
    ensures |Compress(c, holes, i, len)| == len - i - Count(holes, i, len)
    decreases len - i
  {
    if i < len {
      CompressLength(c, holes, i + 1, len);
      CountSplit(holes, i, i + 1, len);
      assert Count(holes, i, i + 1) == Count(holes, i, i) + (if i in holes then 1 else 0);
    }
  }

  /** The place of a live group in the compressed program. */
  function Rank(addr: seq<nat>, holes: set<nat>, g: nat): nat
    requires g <= |addr|
  {
    LiveCount(addr, holes, 0, g)
  }

  lemma {:induction false} LiveSplit(addr: seq<nat>, holes: set<nat>, lo: nat, mid: nat, hi: nat)
    requires lo <= mid <= hi <= |addr|
    ensures LiveCount(addr, holes, lo, hi) == LiveCount(addr, holes, lo, mid) + LiveCount(addr, holes, mid, hi)
    decreases hi
  {
    if mid < hi {
      LiveSplit(addr, holes, lo, mid, hi - 1);
    }
  }

  /** A jump over the live slots in between lands on the place of its target. */
  lemma JumpsToRank(addr: seq<nat>, holes: set<nat>, g: nat, t: nat)
    requires g < t <= |addr| && addr[g] !in holes
    ensures Rank(addr, holes, t) == Rank(addr, holes, g) + 1 + Distance(addr, holes, g, t)
  {
    LiveSplit(addr, holes, 0, g, t);
    LiveFirst(addr, holes, g, t);
  }

  lemma {:induction false} CompressGroup(p: seq<Filter>, addr: seq<nat>, e: seq<Insn>, b: Buffers, g: nat)
    requires RelocatedAbove(p, addr, e, b, PROLOGUE - 1) && g < |p| && addr[g] !in b.holes
    ensures var out, r := Compress(b.c, b.holes, PROLOGUE, |e|), Rank(addr, b.holes, g);
            r < |out| && out[r] == b.c[addr[g]]
  {
    hide IsMigration, Stage, LiveCount, Count, Compress;
    LastAddr(p, addr, e);
    CompressAt(b.c, b.holes, PROLOGUE, |e|, addr[g]);
    RankCounts(addr, b.holes, g);
  }

  lemma {:induction false} RankCounts(addr: seq<nat>, holes: set<nat>, g: nat)
    requires Increasing(addr) && OnlyStarts(addr, holes) && g < |addr|
    ensures addr[g] - addr[0] - Count(holes, addr[0], addr[g]) == Rank(addr, holes, g)
  {
    if g > 0 {
      CountGroups(addr, holes, 0, addr[0] + 1, g);
      CountSplit(holes, addr[0], addr[0] + 1, addr[g]);
      assert Count(holes, addr[0], addr[0] + 1) == Count(holes, addr[0], addr[0]) + (if addr[0] in holes then 1 else 0);
      LiveFirst(addr, holes, 0, g);
    }
  }

  // ----- the recovered program simulates the original one -----

  /** Which groups a run can come to: heads, and what is not merged after all. */
  predicate Live(addr: seq<nat>, holes: set<nat>, g: nat) {
    g < |addr| && addr[g] !in holes
  }

  /** The compressed program `out` of the buffers `b`. */
  predicate IsRecovered(p: seq<Filter>, addr: seq<nat>, holes: set<nat>, out: seq<Filter>) {
    && ValidProgram(p) && |addr| == |p| + 1
    && forall g :: 0 <= g < |p| ==> RecoveredAt(p, addr, holes, out, g)
  }

  predicate RecoveredAt(p: seq<Filter>, addr: seq<nat>, holes: set<nat>, out: seq<Filter>, g: nat)
    requires g < |p| && |addr| == |p| + 1
  {
    && (IsHead(p, g) ==> Live(addr, holes, g))
    && (Live(addr, holes, g) ==>
          Rank(addr, holes, g) < |out| && Relocated(p, addr, holes, g, out[Rank(addr, holes, g)]))
  }

  lemma {:induction false} TargetsGrow(p: seq<Filter>, g: nat, h: nat)
    requires g <= h <= |p|
    ensures Targets(p, g) <= Targets(p, h)
    decreases h
  {
    hide MarksOf, Decode;
    if g < h {
      TargetsGrow(p, g, h - 1);
    }
  }

  /** What an eBPF jump leads to is a head: nothing that is jumped to was merged. */
  lemma TargetIsLive(p: seq<Filter>, addr: seq<nat>, holes: set<nat>, out: seq<Filter>, g: nat, t: nat)
    requires IsRecovered(p, addr, holes, out) && g < t < |p| && t in MarksOf(Decode(p[g]), g)
    ensures Live(addr, holes, t)
  {
    hide Decode, MarksOf;
    NextTargets(p, g);
    TargetsGrow(p, g + 1, t);
    assert RecoveredAt(p, addr, holes, out, t);
  }

  lemma NotMergedIsLive(p: seq<Filter>, addr: seq<nat>, holes: set<nat>, out: seq<Filter>, t: nat)
    requires IsRecovered(p, addr, holes, out) && t < |p| && !Merged(p, t)
    ensures Live(addr, holes, t)
  {
    assert RecoveredAt(p, addr, holes, out, t);
  }

  /** One step of `p` at live group `g`, or two when a JA is folded into a branch, and the
      one step of `out` for them: the same value, or equal states at corresponding places. */
  predicate Corresponds(p: seq<Filter>, addr: seq<nat>, holes: set<nat>, out: seq<Filter>, g: nat, s: State, data: Data, h: nat, s': State)
    requires g < |p| && |addr| == |p| + 1 && Rank(addr, holes, g) < |out|
  {
    var r := Rank(addr, holes, g);
    match Exec(Decode(out[r]), r, s, data)
    case Done(v) => Run(p, g, s, data) == Some(v)
    case Next(pc, s1) =>
      && g < h < |p| && Live(addr, holes, h) && pc == Rank(addr, holes, h) && s1 == s'
      && Run(p, g, s, data) == Run(p, h, s', data)
    case Stuck => false
  }

  lemma {:induction false} RunStep(p: seq<Filter>, pc: nat, s: State, data: Data)
    requires pc < |p|
    ensures match Exec(Decode(p[pc]), pc, s, data)
            case Done(v) => Run(p, pc, s, data) == Some(v)
            case Next(pc', s') => Run(p, pc, s, data) == Run(p, pc', s', data)
            case Stuck => Run(p, pc, s, data) == None
  {
  }

  lemma SimulatesGoto(p: seq<Filter>, addr: seq<nat>, holes: set<nat>, out: seq<Filter>, g: nat, s: State, data: Data)
    returns (h: nat, s': State)
    requires IsRecovered(p, addr, holes, out) && g < |p| && Live(addr, holes, g) && Decode(p[g]).Goto?
    ensures Rank(addr, holes, g) < |out| && Corresponds(p, addr, holes, out, g, s, data, h, s')
  {
    hide Run, Decode, ValidProgram, LiveCount;
    assert RecoveredAt(p, addr, holes, out, g);
    h, s' := g + 1 + Decode(p[g]).k, s;
    TargetIsLive(p, addr, holes, out, g, h);
    JumpsToRank(addr, holes, g, h);
    RunStep(p, g, s, data);
  }

  lemma BranchLive(p: seq<Filter>, addr: seq<nat>, holes: set<nat>, out: seq<Filter>, g: nat)
    requires IsRecovered(p, addr, holes, out) && g < |p| && Live(addr, holes, g) && Decode(p[g]).Branch?
    ensures g < FalseTo(p, addr, holes, g) < |p| && Live(addr, holes, FalseTo(p, addr, holes, g))
    ensures g + 1 + Decode(p[g]).jt < |p| && Live(addr, holes, g + 1 + Decode(p[g]).jt)
  {
    hide Decode, ValidProgram, LiveCount;
    assert RecoveredAt(p, addr, holes, out, g);
    var i, f := Decode(p[g]), FalseTo(p, addr, holes, g);
    if ArmsOf(i.cmp, i.jt, i.jf).FalseArm? {
      NotMergedIsLive(p, addr, holes, out, g + 1);
    } else {
      TargetIsLive(p, addr, holes, out, g, g + 1 + i.jt);
    }
    if i.jf != 0 {
      TargetIsLive(p, addr, holes, out, g, f);
    } else if !Merged(p, g + 1) {
      NotMergedIsLive(p, addr, holes, out, f);
    } else if addr[g + 1] in holes {
      TargetIsLive(p, addr, holes, out, g + 1, f);
    }
  }

  lemma SimulatesBranch(p: seq<Filter>, addr: seq<nat>, holes: set<nat>, out: seq<Filter>, g: nat, s: State, data: Data)
    returns (h: nat, s': State)
    requires IsRecovered(p, addr, holes, out) && g < |p| && Live(addr, holes, g) && Decode(p[g]).Branch?
    ensures Rank(addr, holes, g) < |out| && Corresponds(p, addr, holes, out, g, s, data, h, s')
  {
    hide Run, Decode, ValidProgram, LiveCount, Compare;
    assert RecoveredAt(p, addr, holes, out, g);
    var i := Decode(p[g]);
    var taken := Compare(i.cmp, s.a, i.operand.In(s));
    s' := s;
    RunStep(p, g, s, data);
    BranchLive(p, addr, holes, out, g);
    h := if taken then g + 1 + i.jt else FalseTo(p, addr, holes, g);
    if !taken && Merged(p, g + 1) && addr[g + 1] in holes {
      RunStep(p, g + 1, s, data);
    }
    JumpsToRank(addr, holes, g, h);
  }

  /** Everything that goes on with the next instruction, and returns. */
  lemma SimulatesPlain(p: seq<Filter>, addr: seq<nat>, holes: set<nat>, out: seq<Filter>, g: nat, s: State, data: Data)
    returns (h: nat, s': State)
    requires IsRecovered(p, addr, holes, out) && g < |p| && Live(addr, holes, g)
    requires !Decode(p[g]).Goto? && !Decode(p[g]).Branch?
    ensures Rank(addr, holes, g) < |out| && Corresponds(p, addr, holes, out, g, s, data, h, s')
  {
    hide Run, Decode, LiveCount, Compute;
    assert RecoveredAt(p, addr, holes, out, g) && ValidAt(p, g);
    var i := Decode(p[g]);
    RunStep(p, g, s, data);
    h, s' := g + 1, s;
    if g + 1 < |p| {
      if Merged(p, g + 1) {
        assert Exec(i, g, s, data) == Next(g + 1, s.Set(A, LoadedK(i)));
        RunStep(p, g + 1, s.Set(A, LoadedK(i)), data);
      } else {
        NotMergedIsLive(p, addr, holes, out, g + 1);
        JumpsToRank(addr, holes, g, g + 1);
        assert Distance(addr, holes, g, g + 1) == 0;
        var r := Exec(i, g, s, data);
        if r.Next? {
          s' := r.s;
        }
      }
    }
  }

  lemma {:induction false} RecoveredRun(
      p: seq<Filter>, addr: seq<nat>, holes: set<nat>, out: seq<Filter>, g: nat, s: State, data: Data)
    requires IsRecovered(p, addr, holes, out) && g < |p| && Live(addr, holes, g)
    ensures Run(out, Rank(addr, holes, g), s, data) == Run(p, g, s, data)
    decreases |p| - g
  {
    hide Decode, LiveCount, IsRecovered, Run;
    var h, s';
    if Decode(p[g]).Goto? {
      h, s' := SimulatesGoto(p, addr, holes, out, g, s, data);
    } else if Decode(p[g]).Branch? {
      h, s' := SimulatesBranch(p, addr, holes, out, g, s, data);
    } else {
      h, s' := SimulatesPlain(p, addr, holes, out, g, s, data);
    }
    var r := Rank(addr, holes, g);
    RunStep(out, r, s, data);
    if Exec(Decode(out[r]), r, s, data).Next? {
      RecoveredRun(p, addr, holes, out, h, s', data);
    }
  }

  // ----- a migration passes the checks, and the passes recover it -----

  /** A jump at `x` that stays below `end`. */
  predicate Bounded(e: seq<Insn>, x: nat, end: nat) {
    x < |e| && (IsJumpClass(e[x].code) ==> e[x].off >= 0 && x + 1 + e[x].off < end)
  }

  lemma BlindingBounded(e: seq<Insn>, lo: nat, cls: bv16, k: u32, end: nat)
    requires Blinding(e, lo, cls, k) && (cls == ALU || cls == ALU64)
    ensures Bounded(e, lo, end) && Bounded(e, lo + 1, end)
  {
  }

  lemma MovesBounded(e: seq<Insn>, lo: nat, hi: nat, reg: nat, k: u32, x: nat, end: nat)
    requires MovesK(e, lo, hi, reg, k) && lo <= x < hi
    ensures Bounded(e, x, end)
  {
    if hi == lo + 3 {
      BlindingBounded(e, lo, ALU, k, end);
    }
  }

  lemma ComputesBounded(op: AluOp, k: u32, e: seq<Insn>, lo: nat, hi: nat, x: nat, end: nat)
    requires ComputesK(op, k, e, lo, hi) && lo <= x < hi
    ensures Bounded(e, x, end)
  {
    ArithBits(op);
    hide AluOp.Code;
    if hi == lo + 3 {
      BlindingBounded(e, lo, ALU, k, end);
    }
  }

  lemma DividesBounded(e: seq<Insn>, lo: nat, hi: nat, x: nat, end: nat)
    requires DividesX(e, lo, hi) && lo <= x < hi <= end
    ensures Bounded(e, x, end)
  {
    if hi == lo + 7 {
      BlindingBounded(e, lo + 1, ALU64, 0, end);
    }
  }

  lemma ComparesBounded(op: CmpOp, negated: bool, b: Operand, e: seq<Insn>, lo: nat, x: nat, end: nat)
    requires Compares(op, negated, b, e, lo) && lo <= x <= JumpAt(e, lo) < Target(e, JumpAt(e, lo)) < end
    ensures Bounded(e, x, end)
  {
    hide TestCode;
    if x < JumpAt(e, lo) {
      if b.K? && b.k >= NEGATIVE {
        MovesBounded(e, lo, JumpAt(e, lo), REG_TMP, b.k, x, end);
      } else {
        BlindingBounded(e, lo, ALU64, b.k, end);
      }
    }
  }

  lemma BranchBounded(p: seq<Filter>, addr: seq<nat>, e: seq<Insn>, g: nat, x: nat)
    requires IsMigration(p, addr, e) && Increasing(addr) && g < |p| && Decode(p[g]).Branch?
    requires |addr| == |p| + 1 && addr[g] <= x < addr[g + 1]
    ensures Bounded(e, x, |e|)
  {
    hide IsMigration, Decode, JumpAt;
    LastAddr(p, addr, e);
    BranchGroup(p, addr, e, g);
    BranchPlace(p, addr, e, g);
    var i := Decode(p[g]);
    if x <= JumpAt(e, addr[g]) {
      ComparesBounded(i.cmp, ArmsOf(i.cmp, i.jt, i.jf).FalseArm?, i.operand, e, addr[g], x, |e|);
    }
  }

  lemma OtherBounded(p: seq<Filter>, addr: seq<nat>, e: seq<Insn>, g: nat, x: nat)
    requires IsMigration(p, addr, e) && Increasing(addr) && g < |p| && !Decode(p[g]).Branch?
    requires |addr| == |p| + 1 && addr[g] <= x < addr[g + 1] <= |e|
    ensures Bounded(e, x, |e|)
  {
    assert GroupAt(p, addr, e, g);
    assert addr[|p|] == |e|;
    hide IsMigration, Decode, MovesK, ComputesK, DividesX, Bounded, One;
    var i, lo, hi := Decode(p[g]), addr[g], addr[g + 1];
    match i
    case LoadImm(r, k) => MovesBounded(e, lo, hi, RegOf(r), k, x, |e|);
    case LoadLen(r) => MovesBounded(e, lo, hi, RegOf(r), DATA_LEN, x, |e|);
    case ReturnK(k) =>
      if x < hi - 1 {
        MovesBounded(e, lo, hi - 1, REG_A, k, x, |e|);
      }
    case Arith(op, K(k)) => ComputesBounded(op, k, e, lo, hi, x, |e|);
    case Arith(op, RegX) =>
      if op == Div {
        DividesBounded(e, lo, hi, x, |e|);
      } else {
        OneBounded(i, g, addr, e, lo, hi, |e|);
      }
    case Illegal =>
    case Branch(_, _, _, _) =>
    case _ => OneBounded(i, g, addr, e, lo, hi, |e|);
  }

  /** A group of one instruction jumps inside the program, if it is a jump. */
  lemma OneBounded(i: Instr, g: nat, addr: seq<nat>, e: seq<Insn>, lo: nat, hi: nat, end: nat)
    requires |addr| > 0 && ValidInstr(i, g, |addr| - 1) && IsGroup(i, g, addr, e, lo, hi)
    requires IsMove(i) || i.Goto? || i.ReturnA? || (i.Arith? && i.operand.RegX? && i.op != Div)
    requires i.Goto? ==> lo < addr[g + 1 + i.k] < end
    ensures hi == lo + 1 && Bounded(e, lo, end)
  {
    hide AluOp.Code, StackOff;
    if i.Arith? {
      ArithBits(i.op);
    }
  }

  lemma {:induction false} GroupOf(addr: seq<nat>, x: nat, n: nat) returns (g: nat)
    requires n < |addr| && addr[0] <= x < addr[n]
    ensures g < n && addr[g] <= x < addr[g + 1]
  {
    if x >= addr[n - 1] {
      g := n - 1;
    } else {
      g := GroupOf(addr, x, n - 1);
    }
  }

  lemma MigrationChecks(p: seq<Filter>, addr: seq<nat>, e: seq<Insn>)
    requires IsMigration(p, addr, e)
    ensures JumpsInRange(e, |e|) && StartsOk(e)
  {
    MigrationIncreases(p, addr, e);
    LastAddr(p, addr, e);
    forall x | 0 <= x < |e| && IsJumpClass(e[x].code) ensures e[x].off >= 0 && x + 1 + e[x].off < |e| {
      hide GroupAt, Decode;
      assert x >= PROLOGUE;
      var g := GroupOf(addr, x, |p|);
      if Decode(p[g]).Branch? {
        BranchBounded(p, addr, e, g, x);
      } else {
        OtherBounded(p, addr, e, g, x);
      }
      assert Bounded(e, x, |e|);
    }
  }

  lemma StartsFolded(p: seq<Filter>, addr: seq<nat>, e: seq<Insn>, b: Buffers)
    requires IsMigration(p, addr, e) && Unfolded(e, b.e, 0) && |e| <= |b.c|
    requires b.flags == seq(|e| + FLAG_SLACK, _ => Flag(0, false)) && b.holes == Span(0, PROLOGUE)
    ensures ReachesGroup(p, addr, e, b, 0) && IsHead(p, 0)
  {
    MigrationIncreases(p, addr, e);
    LastAddr(p, addr, e);
    hide IsMigration, Decode;
    assert Targets(p, 0) == {};
  }

  lemma FoldedRelocates(p: seq<Filter>, addr: seq<nat>, e: seq<Insn>, b: Buffers)
    requires ReachesGroup(p, addr, e, b, |p|) && |e| < U32
    ensures RelocatedAbove(p, addr, e, b, |e| - 1)
  {
    LastAddr(p, addr, e);
    hide IsMigration, Decode, Merged, Targets, Relocated, FlagsFor, Holds;
    forall x | addr[0] <= x < addr[|addr| - 1] && x !in b.holes ensures IsStart(addr, x) {
      var h :| 0 <= h < |p| && IsHead(p, h) && addr[h] == x;
    }
    var i := |e| - 1;
    forall h | 0 <= h < |p| ensures Stage(p, addr, e, b, h, i) {
      assert addr[h] < addr[|p|];
      assert IsHead(p, h) || h > 0 by {
        FirstIsHead(p);
      }
    }
  }

  lemma FirstIsHead(p: seq<Filter>)
    ensures |p| > 0 ==> IsHead(p, 0)
  {
  }

  lemma {:induction false} RelocatedRecovers(p: seq<Filter>, addr: seq<nat>, e: seq<Insn>, b: Buffers)
    requires RelocatedAbove(p, addr, e, b, PROLOGUE - 1)
    ensures IsRecovered(p, addr, b.holes, Compress(b.c, b.holes, PROLOGUE, |e|))
  {
    LastAddr(p, addr, e);
    assert ValidProgram(p);
    hide IsMigration, Decode, Merged, Relocated, Holds, Compress, LiveCount, Placed;
    var out := Compress(b.c, b.holes, PROLOGUE, |e|);
    forall g | 0 <= g < |p| ensures RecoveredAt(p, addr, b.holes, out, g) {
      assert Stage(p, addr, e, b, g, PROLOGUE - 1);
      assert addr[g] >= addr[0];
      if addr[g] !in b.holes {
        CompressGroup(p, addr, e, b, g);
      }
    }
  }

  /** The recovery of a padded migration, with what shows how it was come by. */
  lemma Recovers(p: seq<Filter>, addr: seq<nat>, e: seq<Insn>, e': seq<Insn>, c: seq<Filter>)
    returns (out: seq<Filter>, holes: set<nat>)
    requires IsMigration(p, addr, e) && Unfolded(e, e', 0) && |e| <= |c| && |e| < U32
    ensures Recover(e', |e|, c) == Some(out) && IsRecovered(p, addr, holes, out)
    ensures Increasing(addr) && OnlyStarts(addr, holes) && |out| == LiveCount(addr, holes, 0, |p|)
  {
    hide IsMigration, Decode, FoldPass, RelocatePass, Compress, Count;
    LastAddr(p, addr, e);
    PaddedChecks(p, addr, e, e');
    var start := Buffers(e', seq(|e| + FLAG_SLACK, _ => Flag(0, false)), c, Span(0, PROLOGUE));
    StartsFolded(p, addr, e, start);
    var b := FoldPassRight(p, addr, e, start, 0);
    FoldedRelocates(p, addr, e, b);
    RelocatePassRight(p, addr, e, b, |e| - 1);
    var b' := RelocatePass(b, |e| - 1);
    RelocatedRecovers(p, addr, e, b');
    out, holes := Compress(b'.c, b'.holes, PROLOGUE, |e|), b'.holes;
    CompressLength(b'.c, holes, PROLOGUE, |e|);
    RankCounts(addr, holes, |p|);
  }

  lemma PaddedChecks(p: seq<Filter>, addr: seq<nat>, e: seq<Insn>, e': seq<Insn>)
    requires IsMigration(p, addr, e) && Unfolded(e, e', 0)
    ensures JumpsInRange(e', |e|) && StartsOk(e') && |e| >= PROLOGUE
  {
    MigrationChecks(p, addr, e);
    LastAddr(p, addr, e);
    assert addr[0] <= addr[|p|] by {
      MigrationIncreases(p, addr, e);
    }
    hide IsMigration;
    forall x | 0 <= x < |e| ensures e'[x] == e[x] {
    }
  }

  /** The recovered program returns what the classic program returns that was migrated. */
  lemma RecoveryPreservesMeaning(p: seq<Filter>, addr: seq<nat>, e: seq<Insn>, e': seq<Insn>, c: seq<Filter>, mem: Mem, data: Data)
    requires IsMigration(p, addr, e) && Unfolded(e, e', 0) && |e| <= |c| && |e| < U32
    ensures Recover(e', |e|, c).Some? && Result(Recover(e', |e|, c).value, mem, data) == Result(p, mem, data)
  {
    hide IsMigration, Recover, Run, Decode;
    LastAddr(p, addr, e);
    var out, holes := Recovers(p, addr, e, e', c);
    FirstIsHead(p);
    NotMergedIsLive(p, addr, holes, out, 0);
    RecoveredRun(p, addr, holes, out, 0, State(0, 0, mem), data);
    assert Rank(addr, holes, 0) == 0;
  }

  /** It returns what the migrated program returns, blinded or not, from any registers. */
  lemma {:induction false} RecoveryMatchesEbpf(p: seq<Filter>, addr: seq<nat>, e: seq<Insn>, e': seq<Insn>, c: seq<Filter>, es: EState, data: Data)
    requires IsMigration(p, addr, e) && Unfolded(e, e', 0) && |e| <= |c| && |e| < U32 && Entry(es)
    ensures Recover(e', |e|, c).Some?
    ensures RunE(e, 0, es, data).Some? && Result(Recover(e', |e|, c).value, es.stack, data) == RunE(e, 0, es, data)
  {
    hide Recover, Run, RunE, Decode;
    assert ValidProgram(p);
    RecoveryPreservesMeaning(p, addr, e, e', c, es.stack, data);
    MigrationComputes(p, addr, e, es, data);
    ValidProgramReturns(p, 0, State(0, 0, es.stack), data);
  }

  lemma {:induction false} Unrank(addr: seq<nat>, holes: set<nat>, n: nat, r: nat) returns (g: nat)
    requires n <= |addr| && r < LiveCount(addr, holes, 0, n)
    ensures g < n && addr[g] !in holes && Rank(addr, holes, g) == r
  {
    if addr[n - 1] !in holes && r == LiveCount(addr, holes, 0, n - 1) {
      g := n - 1;
    } else {
      g := Unrank(addr, holes, n - 1, r);
    }
  }

  /** The recovered program is no longer than the original one, and as valid. */
  lemma RecoveryIsValid(p: seq<Filter>, addr: seq<nat>, e: seq<Insn>, e': seq<Insn>, c: seq<Filter>)
    requires IsMigration(p, addr, e) && Unfolded(e, e', 0) && |e| <= |c| && |e| < U32
    ensures Recover(e', |e|, c).Some?
    ensures |Recover(e', |e|, c).value| <= |p| && ValidProgram(Recover(e', |e|, c).value)
  {
    hide IsMigration, Recover, Decode, LiveCount, IsRecovered;
    LastAddr(p, addr, e);
    var out, holes := Recovers(p, addr, e, e', c);
    RecoveredEnds(p, addr, holes, out);
    forall r | 0 <= r < |out| ensures ValidAt(out, r) {
      var g := Unrank(addr, holes, |p|, r);
      RecoveredValid(p, addr, holes, out, g);
    }
  }

  lemma RecoveredValid(p: seq<Filter>, addr: seq<nat>, holes: set<nat>, out: seq<Filter>, g: nat)
    requires IsRecovered(p, addr, holes, out) && g < |p| && Live(addr, holes, g)
    ensures Rank(addr, holes, g) < |out| && ValidAt(out, Rank(addr, holes, g))
  {
    assert RecoveredAt(p, addr, holes, out, g) && ValidAt(p, g);
    hide Decode, LiveCount, ValidProgram, IsRecovered;
    var i := Decode(p[g]);
    if i.Goto? {
      TargetIsLive(p, addr, holes, out, g, g + 1 + i.k);
      LandsInside(p, addr, holes, out, g, g + 1 + i.k);
    } else if i.Branch? {
      BranchLive(p, addr, holes, out, g);
      LandsInside(p, addr, holes, out, g, g + 1 + i.jt);
      LandsInside(p, addr, holes, out, g, FalseTo(p, addr, holes, g));
    }
  }

  lemma LandsInside(p: seq<Filter>, addr: seq<nat>, holes: set<nat>, out: seq<Filter>, g: nat, t: nat)
    requires IsRecovered(p, addr, holes, out) && g < t < |p| && Live(addr, holes, g) && Live(addr, holes, t)
    ensures Rank(addr, holes, g) + 1 + Distance(addr, holes, g, t) < |out|
  {
    JumpsToRank(addr, holes, g, t);
    assert RecoveredAt(p, addr, holes, out, t);
  }

  lemma {:induction false} RecoveredEnds(p: seq<Filter>, addr: seq<nat>, holes: set<nat>, out: seq<Filter>)
    requires IsRecovered(p, addr, holes, out) && |out| == LiveCount(addr, holes, 0, |p|)
    ensures |out| > 0 && (Decode(out[|out| - 1]).ReturnK? || Decode(out[|out| - 1]).ReturnA?)
  {
    var last := |p| - 1;
    FirstIsHead(p);
    assert RecoveredAt(p, addr, holes, out, last);
    hide Decode;
    if addr[last] in holes {
      assert Merged(p, last) && !Merged(p, last - 1);
      assert RecoveredAt(p, addr, holes, out, last - 1);
    }
  }
}
