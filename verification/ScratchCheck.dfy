/** The kernel's check that a filter reads no scratch word before writing it, and what the check
    is good for: whatever scratch memory held before a run never matters. */
module ScratchCheck {
  import opened Word
  import opened Bpf
  import opened Machine

  /** Control as the check follows it, where a return is followed by the next instruction. */
  predicate Leads(i: Instr, pc: nat, to: nat) {
    match i
    case Goto(k) => to == pc + 1 + k
    case Branch(_, _, jt, jf) => to == pc + 1 + jt || to == pc + 1 + jf
    case _ => to == pc + 1
  }

  predicate Stores(i: Instr, k: nat) {
    i.Store? && i.k == k
  }

  /** Word `k` has been written on every way from the first instruction to `pc`. */
  predicate Certain(p: seq<Filter>, pc: nat, k: nat)
    requires pc <= |p|
    decreases pc
  {
    pc > 0 && forall q :: 0 <= q < pc && Leads(Decode(p[q]), q, pc) ==> Stores(Decode(p[q]), k) || Certain(p, q, k)
  }

  predicate LoadsCertain(p: seq<Filter>, pc: nat)
    requires pc < |p|
  {
    var i := Decode(p[pc]);
    i.LoadMem? ==> Certain(p, pc, i.k)
  }

  /** Every scratch word an instruction loads is written on all ways to it. */
  predicate ScratchChecked(p: seq<Filter>) {
    forall pc :: 0 <= pc < |p| ==> LoadsCertain(p, pc)
  }

  /** A way from the first instruction that never writes word `k` before its last one. */
  predicate WayWithout(p: seq<Filter>, w: seq<nat>, k: nat)
    decreases |w|
  {
    && |w| > 0 && w[|w| - 1] <= |p|
    && if |w| == 1 then w[0] == 0
       else
         var q := w[|w| - 2];
         && q < |p| && q < w[|w| - 1] && WayWithout(p, w[..|w| - 1], k)
         && Leads(Decode(p[q]), q, w[|w| - 1]) && !Stores(Decode(p[q]), k)
  }

  /** A word is certain exactly when there is no way on which it is not written. */
  lemma {:induction false} CertainExactly(p: seq<Filter>, pc: nat, k: nat)
    requires pc <= |p|
    ensures Certain(p, pc, k) <==> !exists w :: WayWithout(p, w, k) && w[|w| - 1] == pc
  {
    hide Decode, Leads, Stores, Certain;
    if !Certain(p, pc, k) {
      var w := UnwrittenWay(p, pc, k);
      assert WayWithout(p, w, k) && w[|w| - 1] == pc;
    } else {
      forall w | WayWithout(p, w, k)
        ensures w[|w| - 1] != pc
      {
        WayNotCertain(p, w, k);
      }
    }
  }

  lemma {:induction false} UnwrittenWay(p: seq<Filter>, pc: nat, k: nat) returns (w: seq<nat>)
    requires pc <= |p| && !Certain(p, pc, k)
    ensures WayWithout(p, w, k) && |w| > 0 && w[|w| - 1] == pc
    decreases pc
  {
    hide Decode, Leads, Stores;
    if pc == 0 {
      w := [0];
    } else {
      var q :| 0 <= q < pc && Leads(Decode(p[q]), q, pc) && !Stores(Decode(p[q]), k) && !Certain(p, q, k);
      var before := UnwrittenWay(p, q, k);
      w := before + [pc];
      assert w[..|w| - 1] == before;
    }
  }

  lemma {:induction false} WayNotCertain(p: seq<Filter>, w: seq<nat>, k: nat)
    requires WayWithout(p, w, k)
    ensures |w| > 0 && w[|w| - 1] <= |p| && !Certain(p, w[|w| - 1], k)
    decreases |w|
  {
    hide Decode, Leads, Stores;
    if |w| > 1 {
      WayNotCertain(p, w[..|w| - 1], k);
      assert w[..|w| - 1][|w| - 2] == w[|w| - 2];
    }
  }

  /** Code behind a return is checked as if the return went on, code that is jumped over is not. */
  lemma DeadCode() returns (behind: seq<Filter>, over: seq<Filter>)
    ensures behind == [Encode(ReturnA), Encode(LoadMem(A, 0)), Encode(ReturnA)] && !ScratchChecked(behind)
    ensures over == [Encode(Goto(1)), Encode(LoadMem(A, 0)), Encode(ReturnA)] && ScratchChecked(over)
  {
    behind, over := [Encode(ReturnA), Encode(LoadMem(A, 0)), Encode(ReturnA)], [Encode(Goto(1)), Encode(LoadMem(A, 0)), Encode(ReturnA)];
    DecodeEncode(ReturnA);
    DecodeEncode(LoadMem(A, 0));
    DecodeEncode(Goto(1));
    hide Decode, Encode;
    assert !Certain(behind, 0, 0) && Leads(Decode(behind[0]), 0, 1);
    assert !Certain(behind, 1, 0);
    assert !LoadsCertain(behind, 1);
    assert Certain(over, 1, 0);
    forall pc | 0 <= pc < |over|
      ensures LoadsCertain(over, pc)
    {
    }
  }

  lemma {:induction false} CertainNext(p: seq<Filter>, pc: nat, to: nat, k: nat)
    requires pc < to <= |p| && Leads(Decode(p[pc]), pc, to) && Certain(p, to, k)
    ensures Stores(Decode(p[pc]), k) || Certain(p, pc, k)
  {
    hide Decode, Leads, Stores;
  }

  /** A run goes where the check follows it, and stays inside the program. */
  lemma NextLeads(m: Machine, p: seq<Filter>, pc: nat, s: State, d: Data)
    requires ValidProgram(p) && pc < |p|
    ensures var r := ExecOn(m, Decode(p[pc]), pc, s, d);
            r.Next? ==> pc < r.pc < |p| && Leads(Decode(p[pc]), pc, r.pc)
  {
    hide Decode, Compute, Neg32, Compare;
    assert ValidAt(p, pc);
  }

  /** A run reads a scratch word outside `w` that it has not written itself. */
  predicate ReadsUnwritten(m: Machine, p: seq<Filter>, pc: nat, s: State, d: Data, w: set<nat>)
    decreases |p| - pc
  {
    pc < |p| &&
    var i := Decode(p[pc]);
    || (i.LoadMem? && i.k !in w)
    || match ExecOn(m, i, pc, s, d)
       case Next(pc', s') => ReadsUnwritten(m, p, pc', s', d, if i.Store? then w + {i.k} else w)
       case _ => false
  }

  lemma {:induction false} NeverReadsUnwritten(m: Machine, p: seq<Filter>, pc: nat, s: State, d: Data, w: set<nat>)
    requires ValidProgram(p) && ScratchChecked(p) && pc < |p|
    requires forall k :: 0 <= k < MEMWORDS && Certain(p, pc, k) ==> k in w
    ensures !ReadsUnwritten(m, p, pc, s, d, w)
    decreases |p| - pc
  {
    hide Decode, ExecOn, Certain, Leads;
    assert ValidAt(p, pc) && LoadsCertain(p, pc);
    var i := Decode(p[pc]);
    var r := ExecOn(m, i, pc, s, d);
    NextLeads(m, p, pc, s, d);
    if r.Next? {
      var w' := if i.Store? then w + {i.k} else w;
      forall k | 0 <= k < MEMWORDS && Certain(p, r.pc, k)
        ensures k in w'
      {
        CertainNext(p, pc, r.pc, k);
      }
      NeverReadsUnwritten(m, p, r.pc, r.s, d, w');
    }
  }

  /** Two states that differ only in scratch words not certain to have been written. */
  predicate Agree(p: seq<Filter>, pc: nat, s: State, t: State)
    requires pc <= |p|
  {
    s.a == t.a && s.x == t.x && forall k :: 0 <= k < MEMWORDS && Certain(p, pc, k) ==> s.mem[k] == t.mem[k]
  }

  /** Equal registers, and an equal word if one is loaded, have equal effects. */
  lemma ExecAgrees(m: Machine, i: Instr, pc: nat, s: State, t: State, d: Data)
    requires s.a == t.a && s.x == t.x && (i.LoadMem? ==> i.k < MEMWORDS && s.mem[i.k] == t.mem[i.k])
    ensures var r, q := ExecOn(m, i, pc, s, d), ExecOn(m, i, pc, t, d);
            if r.Next? then
              && q.Next? && q.pc == r.pc && q.s.a == r.s.a && q.s.x == r.s.x
              && forall k :: 0 <= k < MEMWORDS && (Stores(i, k) || s.mem[k] == t.mem[k]) ==> r.s.mem[k] == q.s.mem[k]
            else q == r
  {
    hide Compute, Neg32, Compare;
  }

  lemma StepAgrees(m: Machine, p: seq<Filter>, pc: nat, s: State, t: State, d: Data)
    requires ValidProgram(p) && ScratchChecked(p) && pc < |p| && Agree(p, pc, s, t)
    ensures var r, q := ExecOn(m, Decode(p[pc]), pc, s, d), ExecOn(m, Decode(p[pc]), pc, t, d);
            if r.Next? then q.Next? && q.pc == r.pc && pc < r.pc < |p| && Agree(p, r.pc, r.s, q.s) else q == r
  {
    hide ExecOn, Decode, Certain, Leads, Stores;
    var i := Decode(p[pc]);
    assert ValidAt(p, pc) && LoadsCertain(p, pc);
    ExecAgrees(m, i, pc, s, t, d);
    NextLeads(m, p, pc, s, d);
    var r, q := ExecOn(m, i, pc, s, d), ExecOn(m, i, pc, t, d);
    if r.Next? {
      forall k | 0 <= k < MEMWORDS && Certain(p, r.pc, k)
        ensures r.s.mem[k] == q.s.mem[k]
      {
        CertainNext(p, pc, r.pc, k);
      }
    }
  }

  lemma {:induction false} RunsAgree(m: Machine, p: seq<Filter>, pc: nat, s: State, t: State, d: Data)
    requires ValidProgram(p) && ScratchChecked(p) && pc < |p| && Agree(p, pc, s, t)
    ensures RunOn(m, p, pc, s, d) == RunOn(m, p, pc, t, d)
    decreases |p| - pc
  {
    hide Decode, ExecOn, Agree, ScratchChecked, ValidProgram;
    StepAgrees(m, p, pc, s, t, d);
    var r, q := ExecOn(m, Decode(p[pc]), pc, s, d), ExecOn(m, Decode(p[pc]), pc, t, d);
    if r.Next? {
      RunsAgree(m, p, r.pc, r.s, q.s, d);
    }
  }

  /** Leftover scratch memory never changes what a checked program returns. */
  lemma {:induction false} LeftoversDoNotMatter(m: Machine, p: seq<Filter>, mem: Mem, mem': Mem, d: Data)
    requires ValidProgram(p) && ScratchChecked(p)
    ensures RunOn(m, p, 0, State(0, 0, mem), d) == RunOn(m, p, 0, State(0, 0, mem'), d)
  {
    RunsAgree(m, p, 0, State(0, 0, mem), State(0, 0, mem'), d);
  }
}
