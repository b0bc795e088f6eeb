/** The second and third passes on a folded migration: every arm ends up as the number of
    live slots between the jump and its target, so compression preserves all targets. */
module Relocation {
  import opened Word
  import opened Bpf
  import opened Ebpf
  import opened Migration
  import opened Recovery
  import opened Folding

  /** How many groups in `[from, to)` keep a slot. */
  function LiveCount(addr: seq<nat>, holes: set<nat>, from: nat, to: nat): (n: nat)
    requires to <= |addr|
    ensures from <= to ==> n <= to - from
    ensures to <= from ==> n == 0
  {
    if to <= from then 0
    else LiveCount(addr, holes, from, to - 1) + (if addr[to - 1] in holes then 0 else 1)
  }

  /** How many live slots lie strictly between groups `g` and `t`. */
  function Distance(addr: seq<nat>, holes: set<nat>, g: nat, t: nat): nat
    requires t <= |addr|
  {
    LiveCount(addr, holes, g + 1, t)
  }

  /** Only starts of groups keep their slots. */
  predicate OnlyStarts(addr: seq<nat>, holes: set<nat>) {
    forall x :: (|addr| > 0 && addr[0] <= x < addr[|addr| - 1] && x !in holes) ==> IsStart(addr, x)
  }

  predicate IsStart(addr: seq<nat>, x: nat) {
    exists g :: 0 <= g < |addr| && addr[g] == x
  }

  lemma {:induction false} CountSplit(holes: set<nat>, a: nat, m: nat, b: nat)
    requires a <= m <= b
    ensures Count(holes, a, b) == Count(holes, a, m) + Count(holes, m, b)
    decreases b - m
  {
    if m < b {
      CountSplit(holes, a, m, b - 1);
    }
  }

  lemma {:induction false} CountFull(holes: set<nat>, a: nat, b: nat)
    requires a <= b && forall x :: a <= x < b ==> x in holes
    ensures Count(holes, a, b) == b - a
    decreases b - a
  {
    if a < b {
      CountFull(holes, a, b - 1);
    }
  }

  lemma InsideGroup(addr: seq<nat>, holes: set<nat>, g: nat, x: nat)
    requires Increasing(addr) && OnlyStarts(addr, holes) && g + 1 < |addr| && addr[g] < x < addr[g + 1]
    ensures x in holes
  {
    assert addr[0] <= x < addr[|addr| - 1];
    forall h | 0 <= h < |addr| ensures addr[h] != x {
      assert h <= g || g + 1 <= h;
    }
  }

  /** From inside group `g` or the start of the next one to the start of `t`. */
  lemma {:induction false} CountGroups(addr: seq<nat>, holes: set<nat>, g: nat, a: nat, t: nat)
    requires Increasing(addr) && OnlyStarts(addr, holes)
    requires g < t < |addr| && addr[g] < a <= addr[g + 1]
    ensures a <= addr[t] && addr[t] - a - Count(holes, a, addr[t]) == Distance(addr, holes, g, t)
    decreases t
  {
    hide Count, LiveCount, Increasing, OnlyStarts;
    if t == g + 1 {
      CountInside(addr, holes, g, a);
      NoneBetween(addr, holes, g);
    } else {
      StartsIncrease(addr, t - 1);
      CountGroups(addr, holes, g, a, t - 1);
      CountSplit(holes, a, addr[t - 1], addr[t]);
      CountOne(holes, addr[t - 1], addr[t]);
      CountInside(addr, holes, t - 1, addr[t - 1] + 1);
      LiveLast(addr, holes, g, t);
    }
  }

  lemma StartsIncrease(addr: seq<nat>, g: nat)
    requires Increasing(addr) && g + 1 < |addr|
    ensures addr[g] < addr[g + 1]
  {
  }

  /** Behind its start a group has only holes. */
  lemma CountInside(addr: seq<nat>, holes: set<nat>, g: nat, a: nat)
    requires Increasing(addr) && OnlyStarts(addr, holes) && g + 1 < |addr| && addr[g] < a <= addr[g + 1]
    ensures Count(holes, a, addr[g + 1]) == addr[g + 1] - a
  {
    forall x | a <= x < addr[g + 1]
      ensures x in holes
    {
      InsideGroup(addr, holes, g, x);
    }
    CountFull(holes, a, addr[g + 1]);
  }

  lemma CountOne(holes: set<nat>, a: nat, to: nat)
    requires a < to
    ensures Count(holes, a, to) == (if a in holes then 1 else 0) + Count(holes, a + 1, to)
  {
    CountSplit(holes, a, a + 1, to);
    assert Count(holes, a, a + 1) == Count(holes, a, a) + (if a in holes then 1 else 0);
  }

  lemma {:induction false} NoneBetween(addr: seq<nat>, holes: set<nat>, g: nat)
    requires g + 1 < |addr|
    ensures Distance(addr, holes, g, g + 1) == 0
  {
  }

  lemma {:induction false} LiveLast(addr: seq<nat>, holes: set<nat>, g: nat, t: nat)
    requires g + 1 < t < |addr|
    ensures Distance(addr, holes, g, t) == Distance(addr, holes, g, t - 1) + (if addr[t - 1] in holes then 0 else 1)
  {
  }

  /** The same, from a live group itself. */
  lemma {:induction false} CountFromLive(addr: seq<nat>, holes: set<nat>, g: nat, t: nat)
    requires Increasing(addr) && OnlyStarts(addr, holes)
    requires g < t < |addr| && addr[g] !in holes
    ensures addr[t] - addr[g] - 1 - Count(holes, addr[g], addr[t]) == Distance(addr, holes, g, t)
  {
    CountGroups(addr, holes, g, addr[g] + 1, t);
    CountSplit(holes, addr[g], addr[g] + 1, addr[t]);
    assert Count(holes, addr[g], addr[g] + 1) == Count(holes, addr[g], addr[g]);
  }

  /** Distances only look at later groups. */
  lemma {:induction false} DistanceFrame(addr: seq<nat>, holes: set<nat>, holes': set<nat>, g: nat, t: nat)
    requires t <= |addr| && forall h :: g < h < t ==> (addr[h] in holes) == (addr[h] in holes')
    ensures Distance(addr, holes, g, t) == Distance(addr, holes', g, t)
    decreases t
  {
    if g + 1 < t {
      DistanceFrame(addr, holes, holes', g, t - 1);
    }
  }

  /** The false arm of a branch leads here; with the JA behind it folded in, where that leads. */
  function FalseTo(p: seq<Filter>, addr: seq<nat>, holes: set<nat>, g: nat): nat
    requires g < |p| && |addr| == |p| + 1 && Decode(p[g]).Branch?
  {
    if Merged(p, g + 1) && addr[g + 1] in holes then g + 2 + Decode(p[g + 1]).k else g + 1 + Decode(p[g]).jf
  }

  /** The word that group `g` must end up with: arms counted in live slots. */
  predicate Relocated(p: seq<Filter>, addr: seq<nat>, holes: set<nat>, g: nat, f: Filter)
    requires g < |p| && |addr| == |p| + 1
  {
    var i, r := Decode(p[g]), Decode(f);
    if i.Goto? then
      g + 1 + i.k < |p| && r.Goto? && r.k == Distance(addr, holes, g, g + 1 + i.k)
    else if i.Branch? then
      && g + 1 + i.jt < |p| && FalseTo(p, addr, holes, g) < |p|
      && r.Branch? && r == Branch(i.cmp, i.operand, r.jt, r.jf)
      && r.jt == Distance(addr, holes, g, g + 1 + i.jt)
      && r.jf == Distance(addr, holes, g, FalseTo(p, addr, holes, g))
    else r == FirstFold(p, g)
  }

  lemma JumpClass(f: Filter)
    ensures f.code & CLASS_MASK == JMP ==> Decode(f).Goto? || Decode(f).Branch? || Decode(f).Illegal?
    ensures Decode(f).Goto? || Decode(f).Branch? ==> f.code & CLASS_MASK == JMP
    ensures Decode(f).Branch? ==> Decode(f).jt == f.jt && Decode(f).jf == f.jf
  {
  }

  lemma GotoCode(f: Filter)
    requires Decode(f).Goto?
    ensures f.code == JMP_JA
  {
  }

  lemma DecodeArms(f: Filter, jt: u8, jf: u8)
    requires Decode(f).Branch?
    ensures Decode(f.(jt := jt, jf := jf)) == Decode(f).(jt := jt, jf := jf)
  {
  }

  lemma DecodeJump(f: Filter, k: u32)
    requires Decode(f).Goto?
    ensures Decode(f.(k := k)) == Goto(k)
  {
    GotoCode(f);
    DecodeStmt(k);
    assert Decode(Filter(JMP_JA, f.jt, f.jf, k)) == Goto(k);
  }

  lemma DecodeStmt(k: u32)
    ensures Decode(Stmt(JMP_JA, k)) == Goto(k)
  {
  }

  /** The buffers once the second pass is done with all slots above `i`. */
  predicate RelocatedAbove(p: seq<Filter>, addr: seq<nat>, e: seq<Insn>, b: Buffers, i: int) {
    && IsMigration(p, addr, e) && Increasing(addr) && |addr| == |p| + 1 && |e| <= |b.c| && |e| < U32
    && (forall x :: 0 <= x < |e| ==> At(b.e, x).off == e[x].off)
    && OnlyStarts(addr, b.holes)
    && (forall h :: 0 <= h < |p| ==> Stage(p, addr, e, b, h, i))
  }

  predicate Stage(p: seq<Filter>, addr: seq<nat>, e: seq<Insn>, b: Buffers, h: nat, i: int)
    requires h < |p| && |addr| == |p| + 1
  {
    Pending(p, addr, e, b, h, i) && Settled(p, addr, b, h, i)
  }

  /** Below, heads are as the first pass left them and what is merged with them is a hole. */
  predicate Pending(p: seq<Filter>, addr: seq<nat>, e: seq<Insn>, b: Buffers, h: nat, i: int)
    requires h < |p| && |addr| == |p| + 1
  {
    if IsHead(p, h) then addr[h] <= i ==> Placed(p, addr, e, b, h)
    else h > 0 && (addr[h - 1] <= i ==> addr[h] in b.holes)
  }

  /** Above, heads are live and live groups are relocated. */
  predicate Settled(p: seq<Filter>, addr: seq<nat>, b: Buffers, h: nat, i: int)
    requires h < |p| && |addr| == |p| + 1
  {
    addr[h] > i ==>
      && (IsHead(p, h) ==> addr[h] !in b.holes)
      && (addr[h] !in b.holes ==> addr[h] < |b.c| && Relocated(p, addr, b.holes, h, b.c[addr[h]]))
  }

  /** Changing slot `addr[g]` and what is merged with it leaves the groups below pending. */
  lemma KeepsPending(p: seq<Filter>, addr: seq<nat>, e: seq<Insn>, b: Buffers, b': Buffers, g: nat, h: nat)
    requires |addr| == |p| + 1 && Increasing(addr) && g < |p| && h < |p| && |b'.c| == |b.c|
    requires Pending(p, addr, e, b, h, addr[g]) && b'.flags == b.flags
    requires forall x: nat :: x <= addr[g] ==> (x in b'.holes) == (x in b.holes)
    requires forall x :: 0 <= x < addr[g] && x < |b.c| ==> b'.c[x] == b.c[x]
    ensures Pending(p, addr, e, b', h, addr[g] as int - 1)
  {
    hide Decode, FirstFold, Merged, FoldOf, Holds;
    if !IsHead(p, h) && addr[h - 1] < addr[g] {
      assert h - 1 < g;
    }
  }

  /** It leaves the groups further up settled, if their slots and holes are kept. */
  lemma KeepsSettled(p: seq<Filter>, addr: seq<nat>, b: Buffers, b': Buffers, i: int, h: nat)
    requires |addr| == |p| + 1 && Increasing(addr) && h < |p| && |b'.c| == |b.c|
    requires Settled(p, addr, b, h, i) && addr[h] > i
    requires forall x: nat :: addr[h] <= x ==> (x in b'.holes) == (x in b.holes)
    requires addr[h] < |b.c| ==> b'.c[addr[h]] == b.c[addr[h]]
    ensures Settled(p, addr, b', h, i)
  {
    hide Decode, FirstFold, Merged;
    forall t | 0 <= t <= |p| ensures Distance(addr, b.holes, h, t) == Distance(addr, b'.holes, h, t) {
      DistanceFrame(addr, b.holes, b'.holes, h, t);
    }
  }

  /** What the second pass computes for the folded JA: the distance to where it leads. */
  lemma {:induction false} FarDistance(p: seq<Filter>, addr: seq<nat>, e: seq<Insn>, holes: set<nat>, g: nat)
    requires IsMigration(p, addr, e) && Increasing(addr) && |e| < U32 && OnlyStarts(addr, holes)
    requires g < |p| && Decode(p[g]).Branch? && TakesTwo(p, g)
    ensures var j, off := JumpAt(e, addr[g]), At(e, JumpAt(e, addr[g]) + 1).off;
            && |addr| == |p| + 1 && SecondTo(p, g) < |p|
            && Wrap32(off - Count(holes, j + 1, j + 1 + off + 1) + 1) == Distance(addr, holes, g, SecondTo(p, g))
            && Distance(addr, holes, g, SecondTo(p, g)) < U32
  {
    hide IsMigration, Decode, Merged, Compares, Count, LiveCount, JumpAt, OnlyStarts;
    LastAddr(p, addr, e);
    BranchShape(p, addr, e, g);
    BranchPlace(p, addr, e, g);
    var j, to := JumpAt(e, addr[g]), SecondTo(p, g);
    assert Target(e, j + 1) == addr[to];
    assert addr[to] < addr[|p|] < U32;
    CountGroups(addr, holes, g, j + 1, to);
  }

  lemma BranchPlace(p: seq<Filter>, addr: seq<nat>, e: seq<Insn>, g: nat)
    requires IsMigration(p, addr, e) && g < |p| && Decode(p[g]).Branch?
    ensures var i, j := Decode(p[g]), JumpAt(e, addr[g]);
            && |addr| == |p| + 1 && addr[g] <= j < addr[g + 1] && g + 1 + i.jt < |p| && g + 1 + i.jf < |p|
            && g < FirstTo(i, g)
            && (TakesTwo(p, g) ==> j + 1 <= addr[g + 1] && g < SecondTo(p, g))
            && (Merged(p, g + 1) ==> j + 1 == addr[g + 1])
  {
    hide IsMigration, Decode, Compares;
    BranchGroup(p, addr, e, g);
  }

  lemma LastAddr(p: seq<Filter>, addr: seq<nat>, e: seq<Insn>)
    requires IsMigration(p, addr, e)
    ensures |p| > 0 && |addr| == |p| + 1 && addr[|p|] == |e| && addr[0] == PROLOGUE
  {
  }

  /** What it computes for the comparison itself: the distance to where that leads. */
  lemma {:induction false} NearDistance(p: seq<Filter>, addr: seq<nat>, e: seq<Insn>, holes: set<nat>, g: nat)
    requires IsMigration(p, addr, e) && Increasing(addr) && OnlyStarts(addr, holes)
    requires g < |p| && Decode(p[g]).Branch? && addr[g] !in holes
    ensures var j, to := JumpAt(e, addr[g]), FirstTo(Decode(p[g]), g);
            && |addr| == |p| + 1 && to < |p|
            && At(e, j).off - Count(holes, addr[g], j + 1 + At(e, j).off) + (j - addr[g]) == Distance(addr, holes, g, to) <= 255
  {
    hide IsMigration, Decode, Merged, Compares, Count, LiveCount, JumpAt, OnlyStarts;
    LastAddr(p, addr, e);
    BranchShape(p, addr, e, g);
    BranchPlace(p, addr, e, g);
    CountFromLive(addr, holes, g, FirstTo(Decode(p[g]), g));
  }

  /** What slot `addr[g]` holds before it is relocated. */
  lemma PendingBranch(p: seq<Filter>, addr: seq<nat>, e: seq<Insn>, b: Buffers, g: nat)
    requires |addr| == |p| + 1 && g < |p| && Decode(p[g]).Branch? && IsHead(p, g)
    requires Placed(p, addr, e, b, g)
    ensures var i, f, r := Decode(p[g]), b.c[addr[g]], Decode(b.c[addr[g]]);
            && f.code & CLASS_MASK == JMP && FlagAt(b.flags, addr[g]).fold == JumpAt(e, addr[g]) - addr[g]
            && (f.jt != 0) == !ArmsOf(i.cmp, i.jt, i.jf).FalseArm?
            && (f.jf != 0) == (ArmsOf(i.cmp, i.jt, i.jf).FalseArm? || TakesTwo(p, g))
            && (f.jt == 0 ==> i.jt == 0) && (f.jf == 0 ==> i.jf == 0)
            && r.Branch? && r == Branch(i.cmp, i.operand, f.jt, f.jf)
  {
    JumpClass(b.c[addr[g]]);
    hide Decode;
  }

  /** `b'` differs from `b` only in the word of slot `i`. */
  predicate OneWord(b: Buffers, b': Buffers, i: nat, f: Filter) {
    i < |b.c| && b' == b.(c := b.c[i := f])
  }

  lemma SettlesOne(p: seq<Filter>, addr: seq<nat>, e: seq<Insn>, b: Buffers, b': Buffers, g: nat, f: Filter)
    requires g < |p| && |addr| == |p| + 1 && RelocatedAbove(p, addr, e, b, addr[g]) && IsHead(p, g)
    requires addr[g] !in b.holes && OneWord(b, b', addr[g], f) && Relocated(p, addr, b.holes, g, f)
    ensures RelocatedAbove(p, addr, e, b', addr[g] as int - 1)
  {
    hide IsMigration, Decode, FirstFold, Merged, Placed, Relocated;
    var below := addr[g] as int - 1;
    forall h | 0 <= h < |p| ensures Stage(p, addr, e, b', h, below) {
      assert Stage(p, addr, e, b, h, addr[g]);
      KeepsPending(p, addr, e, b, b', g, h);
      if h > g {
        KeepsSettled(p, addr, b, b', addr[g], h);
      }
    }
  }

  lemma {:induction false} LiveFirst(addr: seq<nat>, holes: set<nat>, lo: nat, hi: nat)
    requires lo < hi <= |addr|
    ensures LiveCount(addr, holes, lo, hi)
         == LiveCount(addr, holes, lo + 1, hi) + (if addr[lo] in holes then 0 else 1)
    decreases hi
  {
    if lo + 1 < hi {
      LiveFirst(addr, holes, lo, hi - 1);
    }
  }

  /** Once the JA of group `g + 1` has its own slot again. */
  predicate TwoWords(b: Buffers, b': Buffers, i: nat, f: Filter, x: nat, ja: Filter) {
    i < |b.c| && x < |b.c| && b' == b.(c := b.c[x := ja][i := f], holes := b.holes - {x})
  }

  lemma SettlesTwo(p: seq<Filter>, addr: seq<nat>, e: seq<Insn>, b: Buffers, b': Buffers, g: nat, f: Filter, ja: Filter)
    requires g + 1 < |p| && |addr| == |p| + 1 && RelocatedAbove(p, addr, e, b, addr[g]) && IsHead(p, g)
    requires Merged(p, g + 1) && addr[g] !in b.holes && TwoWords(b, b', addr[g], f, addr[g + 1], ja)
    requires Relocated(p, addr, b'.holes, g, f) && Relocated(p, addr, b'.holes, g + 1, ja)
    ensures RelocatedAbove(p, addr, e, b', addr[g] as int - 1)
  {
    hide IsMigration, Decode, FirstFold, Merged, Placed, Relocated;
    assert IsStart(addr, addr[g + 1]);
    var below := addr[g] as int - 1;
    forall h | 0 <= h < |p| ensures Stage(p, addr, e, b', h, below) {
      assert Stage(p, addr, e, b, h, addr[g]);
      KeepsPending(p, addr, e, b, b', g, h);
      if h > g + 1 {
        KeepsSettled(p, addr, b, b', addr[g], h);
      }
    }
  }

  lemma HeadPlaced(p: seq<Filter>, addr: seq<nat>, e: seq<Insn>, b: Buffers, g: nat)
    requires g < |p| && |addr| == |p| + 1 && RelocatedAbove(p, addr, e, b, addr[g]) && IsHead(p, g)
    ensures Placed(p, addr, e, b, g)
  {
    hide IsMigration, Placed;
    assert Stage(p, addr, e, b, g, addr[g]);
  }

  lemma SameOff(p: seq<Filter>, addr: seq<nat>, e: seq<Insn>, b: Buffers, i: int, x: nat)
    requires RelocatedAbove(p, addr, e, b, i) && x < |e|
    ensures At(b.e, x).off == At(e, x).off
  {
    hide IsMigration, Stage;
  }

  /** How one folded jump is relocated: only the arm it uses. */
  lemma RelocatesOneArm(p: seq<Filter>, addr: seq<nat>, e: seq<Insn>, b: Buffers, g: nat) returns (f: Filter)
    requires g < |p| && |addr| == |p| + 1 && RelocatedAbove(p, addr, e, b, addr[g]) && IsHead(p, g)
    requires Decode(p[g]).Branch? && !TakesTwo(p, g)
    ensures var i := Decode(p[g]);
            && addr[g] < |b.c| && addr[g] !in b.holes && FirstTo(i, g) < |p|
            && Distance(addr, b.holes, g, FirstTo(i, g)) <= 255
            && f == (if ArmsOf(i.cmp, i.jt, i.jf).FalseArm? then b.c[addr[g]].(jf := Distance(addr, b.holes, g, FirstTo(i, g)))
                     else b.c[addr[g]].(jt := Distance(addr, b.holes, g, FirstTo(i, g))))
            && RelocateAt(b, addr[g]) == b.(c := b.c[addr[g] := f])
  {
    hide IsMigration, Decode, FirstFold, Compares, Count, LiveCount, JumpAt, FoldOf, Stage;
    HeadPlaced(p, addr, e, b, g);
    PendingBranch(p, addr, e, b, g);
    assert OnlyStarts(addr, b.holes);
    hide OnlyStarts, Holds;
    NearDistance(p, addr, e, b.holes, g);
    BranchPlace(p, addr, e, g);
    LastAddr(p, addr, e);
    SameOff(p, addr, e, b, addr[g], JumpAt(e, addr[g]));
    hide RelocatedAbove, TakesTwo, Increasing;
    var i, w := Decode(p[g]), b.c[addr[g]];
    var d := Distance(addr, b.holes, g, FirstTo(i, g));
    f := if w.jt != 0 then w.(jt := d) else w.(jf := d);
  }

  lemma RelocatesOne(p: seq<Filter>, addr: seq<nat>, e: seq<Insn>, b: Buffers, g: nat)
    requires g < |p| && |addr| == |p| + 1 && RelocatedAbove(p, addr, e, b, addr[g]) && IsHead(p, g)
    requires Decode(p[g]).Branch? && !TakesTwo(p, g)
    ensures RelocatedAbove(p, addr, e, RelocateAt(b, addr[g]), addr[g] as int - 1)
  {
    hide IsMigration, Decode, FirstFold, RelocateAt, FoldOf, Stage, OnlyStarts;
    var f := RelocatesOneArm(p, addr, e, b, g);
    HeadPlaced(p, addr, e, b, g);
    PendingBranch(p, addr, e, b, g);
    BranchPlace(p, addr, e, g);
    hide RelocatedAbove;
    DecodeArms(b.c[addr[g]], f.jt, f.jf);
    assert Distance(addr, b.holes, g, g + 1) == 0;
    hide Placed, LiveCount;
    assert Relocated(p, addr, b.holes, g, f);
    SettlesOne(p, addr, e, b, RelocateAt(b, addr[g]), g, f);
  }

  /** How two folded jumps are relocated: both arms if the second fits, two slots if not. */
  lemma RelocatesTwoArms(p: seq<Filter>, addr: seq<nat>, e: seq<Insn>, b: Buffers, g: nat)
    requires g < |p| && |addr| == |p| + 1 && RelocatedAbove(p, addr, e, b, addr[g]) && IsHead(p, g)
    requires Decode(p[g]).Branch? && TakesTwo(p, g)
    ensures var i, j, lo := Decode(p[g]), JumpAt(e, addr[g]), addr[g];
            && j + 1 < |b.c| && lo !in b.holes && FirstTo(i, g) < |p| && SecondTo(p, g) < |p|
            && var far := Distance(addr, b.holes, g, SecondTo(p, g));
               far < U32
               && var holes := if far > 255 then b.holes - {j + 1} else b.holes;
                  var jt := Distance(addr, holes, g, FirstTo(i, g));
                  jt <= 255
                  && RelocateAt(b, lo) == if far > 255 then
                                            b.(c := b.c[j + 1 := Stmt(JMP_JA, far)][lo := b.c[lo].(jt := jt, jf := 0)], holes := holes)
                                          else b.(c := b.c[lo := b.c[lo].(jt := jt, jf := far)])
  {
    hide IsMigration, Decode, FirstFold, Compares, Count, LiveCount, JumpAt, FoldOf, Stage, OnlyStarts, Holds;
    HeadPlaced(p, addr, e, b, g);
    PendingBranch(p, addr, e, b, g);
    BranchPlace(p, addr, e, g);
    BranchShape(p, addr, e, g);
    var i, j, far := Decode(p[g]), JumpAt(e, addr[g]), Distance(addr, b.holes, g, SecondTo(p, g));
    FarSlotsAre(p, addr, e, b, g);
    var holes := if far > 255 then b.holes - {j + 1} else b.holes;
    assert OnlyStarts(addr, holes) by {
      SecondStart(p, addr, e, b.holes, g);
    }
    NearSlotsAre(p, addr, e, b, holes, g);
    hide RelocateAt, NearSlots, FarSlots, RelocatedAbove;
    RelocateAtTwo(b, addr[g], holes, Distance(addr, holes, g, FirstTo(i, g)), far);
  }

  lemma FarSlotsAre(p: seq<Filter>, addr: seq<nat>, e: seq<Insn>, b: Buffers, g: nat)
    requires g < |p| && |addr| == |p| + 1 && RelocatedAbove(p, addr, e, b, addr[g]) && IsHead(p, g)
    requires Decode(p[g]).Branch? && TakesTwo(p, g)
    requires FlagAt(b.flags, addr[g]).fold == JumpAt(e, addr[g]) - addr[g] && JumpAt(e, addr[g]) + 1 < |e|
    ensures SecondTo(p, g) < |p| && FarSlots(b, addr[g]) == Distance(addr, b.holes, g, SecondTo(p, g))
  {
    hide IsMigration, Decode, Compares, Count, LiveCount, JumpAt, Stage, OnlyStarts;
    SameOff(p, addr, e, b, addr[g], JumpAt(e, addr[g]) + 1);
    FarDistance(p, addr, e, b.holes, g);
  }

  lemma NearSlotsAre(p: seq<Filter>, addr: seq<nat>, e: seq<Insn>, b: Buffers, holes: set<nat>, g: nat)
    requires g < |p| && |addr| == |p| + 1 && RelocatedAbove(p, addr, e, b, addr[g]) && OnlyStarts(addr, holes)
    requires Decode(p[g]).Branch? && addr[g] !in holes
    requires FlagAt(b.flags, addr[g]).fold == JumpAt(e, addr[g]) - addr[g] && JumpAt(e, addr[g]) < |e|
    ensures FirstTo(Decode(p[g]), g) < |p|
    ensures NearSlots(b, holes, addr[g]) == Distance(addr, holes, g, FirstTo(Decode(p[g]), g)) <= 255
  {
    hide IsMigration, Decode, Compares, Count, LiveCount, JumpAt, Stage, OnlyStarts;
    SameOff(p, addr, e, b, addr[g], JumpAt(e, addr[g]));
    NearDistance(p, addr, e, holes, g);
  }

  /** A jump with two arms, relocated in its slot. */
  lemma RelocateAtTwo(b: Buffers, i: nat, holes: set<nat>, near: nat, far: nat)
    requires i < |b.c| && i !in b.holes && b.c[i].code & CLASS_MASK == JMP && b.c[i].jt != 0 && b.c[i].jf != 0
    requires i + FlagAt(b.flags, i).fold + 1 < |b.c| && FarSlots(b, i) == far
    requires holes == if far > 255 then b.holes - {i + FlagAt(b.flags, i).fold + 1} else b.holes
    requires NearSlots(b, holes, i) == near <= 255
    ensures var ja := i + FlagAt(b.flags, i).fold + 1;
            RelocateAt(b, i) == if far > 255 then
                                  b.(c := b.c[ja := Stmt(JMP_JA, far)][i := b.c[i].(jt := near, jf := 0)], holes := holes)
                                else b.(c := b.c[i := b.c[i].(jt := near, jf := far)])
  {
    hide NearSlots, FarSlots, FlagAt;
  }

  /** Only a JA of its own can be too far: the arms of a branch are at most 255 apart. */
  lemma SecondStart(p: seq<Filter>, addr: seq<nat>, e: seq<Insn>, holes: set<nat>, g: nat)
    requires IsMigration(p, addr, e) && g < |p| && Decode(p[g]).Branch? && TakesTwo(p, g) && OnlyStarts(addr, holes)
    ensures |addr| == |p| + 1 && SecondTo(p, g) < |p|
    ensures Distance(addr, holes, g, SecondTo(p, g)) > 255 ==>
              Merged(p, g + 1) && addr[g + 1] == JumpAt(e, addr[g]) + 1 && OnlyStarts(addr, holes - {addr[g + 1]})
  {
    hide IsMigration, Decode, Compares, JumpAt;
    BranchPlace(p, addr, e, g);
    BranchShape(p, addr, e, g);
    assert IsStart(addr, addr[g + 1]);
  }

  lemma RelocatesTwo(p: seq<Filter>, addr: seq<nat>, e: seq<Insn>, b: Buffers, g: nat)
    requires g < |p| && |addr| == |p| + 1 && RelocatedAbove(p, addr, e, b, addr[g]) && IsHead(p, g)
    requires Decode(p[g]).Branch? && TakesTwo(p, g)
    ensures RelocatedAbove(p, addr, e, RelocateAt(b, addr[g]), addr[g] as int - 1)
  {
    hide IsMigration, Decode, FirstFold, RelocateAt, FoldOf, Stage, OnlyStarts, LiveCount;
    RelocatesTwoArms(p, addr, e, b, g);
    HeadPlaced(p, addr, e, b, g);
    PendingBranch(p, addr, e, b, g);
    BranchPlace(p, addr, e, g);
    BranchShape(p, addr, e, g);
    SecondStart(p, addr, e, b.holes, g);
    if Merged(p, g + 1) {
      MergedHole(p, addr, e, b, g);
    }
    hide RelocatedAbove, Placed;
    var b', far, w := RelocateAt(b, addr[g]), Distance(addr, b.holes, g, SecondTo(p, g)), b.c[addr[g]];
    var f := b'.c[addr[g]];
    DecodeArms(w, f.jt, f.jf);
    if far > 255 {
      DecodeStmt(far);
      LiveFirst(addr, b.holes, g + 1, SecondTo(p, g));
      DistanceFrame(addr, b.holes, b'.holes, g + 1, SecondTo(p, g));
      assert Distance(addr, b'.holes, g, g + 1) == 0;
      SettlesTwo(p, addr, e, b, b', g, f, Stmt(JMP_JA, far));
    } else {
      SettlesOne(p, addr, e, b, b', g, f);
    }
  }

  lemma MergedHole(p: seq<Filter>, addr: seq<nat>, e: seq<Insn>, b: Buffers, g: nat)
    requires g < |p| && |addr| == |p| + 1 && RelocatedAbove(p, addr, e, b, addr[g])
    requires Merged(p, g + 1)
    ensures addr[g + 1] in b.holes
  {
    hide IsMigration, Decode;
    assert Stage(p, addr, e, b, g + 1, addr[g]);
  }

  lemma RelocatesGoto(p: seq<Filter>, addr: seq<nat>, e: seq<Insn>, b: Buffers, g: nat)
    requires g < |p| && |addr| == |p| + 1 && RelocatedAbove(p, addr, e, b, addr[g]) && IsHead(p, g)
    requires Decode(p[g]).Goto?
    ensures RelocatedAbove(p, addr, e, RelocateAt(b, addr[g]), addr[g] as int - 1)
  {
    hide IsMigration, Decode, Count, LiveCount, Stage;
    HeadPlaced(p, addr, e, b, g);
    JumpGroup(p, addr, e, g);
    LastAddr(p, addr, e);
    var w, to := b.c[addr[g]], g + 1 + Decode(p[g]).k;
    CountFromLive(addr, b.holes, g, to);
    SameOff(p, addr, e, b, addr[g], addr[g]);
    hide RelocatedAbove, OnlyStarts;
    var d := Distance(addr, b.holes, g, to);
    assert d < U32;
    var f := w.(k := d);
    DecodeJump(w, d);
    JumpClass(w);
    assert RelocateAt(b, addr[g]) == b.(c := b.c[addr[g] := f]);
    SettlesOne(p, addr, e, b, RelocateAt(b, addr[g]), g, f);
  }

  lemma RelocatesOther(p: seq<Filter>, addr: seq<nat>, e: seq<Insn>, b: Buffers, g: nat)
    requires g < |p| && |addr| == |p| + 1 && RelocatedAbove(p, addr, e, b, addr[g]) && IsHead(p, g)
    requires !Decode(p[g]).Goto? && !Decode(p[g]).Branch?
    ensures RelocatedAbove(p, addr, e, RelocateAt(b, addr[g]), addr[g] as int - 1)
  {
    hide Count, LiveCount, Stage, IsMigration;
    HeadPlaced(p, addr, e, b, g);
    NotIllegal(p, addr, e, g);
    JumpClass(b.c[addr[g]]);
    hide RelocatedAbove, Decode;
    assert RelocateAt(b, addr[g]) == b;
    assert b.c[addr[g] := b.c[addr[g]]] == b.c;
    SettlesOne(p, addr, e, b, b, g, b.c[addr[g]]);
  }

  lemma NotIllegal(p: seq<Filter>, addr: seq<nat>, e: seq<Insn>, g: nat)
    requires IsMigration(p, addr, e) && g < |p|
    ensures !Decode(p[g]).Illegal?
  {
    assert GroupAt(p, addr, e, g);
  }

  lemma SkipsHole(p: seq<Filter>, addr: seq<nat>, e: seq<Insn>, b: Buffers, i: nat)
    requires RelocatedAbove(p, addr, e, b, i) && i in b.holes
    ensures RelocatedAbove(p, addr, e, b, i as int - 1)
  {
    hide IsMigration, Decode, Merged, Relocated, Holds;
    var below := i as int - 1;
    forall h | 0 <= h < |p| ensures Stage(p, addr, e, b, h, below) {
      assert Stage(p, addr, e, b, h, i);
    }
  }

  /** A slot that is no hole yet is the start of a head. */
  lemma LiveIsHead(p: seq<Filter>, addr: seq<nat>, e: seq<Insn>, b: Buffers, i: nat) returns (g: nat)
    requires RelocatedAbove(p, addr, e, b, i) && PROLOGUE <= i < |e| && i !in b.holes
    ensures g < |p| && addr[g] == i && IsHead(p, g)
  {
    hide IsMigration, Decode, Merged, Relocated, Holds;
    LastAddr(p, addr, e);
    assert IsStart(addr, i);
    g :| 0 <= g < |addr| && addr[g] == i;
    assert Stage(p, addr, e, b, g, i);
  }

  lemma RelocatesStep(p: seq<Filter>, addr: seq<nat>, e: seq<Insn>, b: Buffers, i: nat)
    requires RelocatedAbove(p, addr, e, b, i) && PROLOGUE <= i < |e|
    ensures RelocatedAbove(p, addr, e, RelocateAt(b, i), i as int - 1)
  {
    if i in b.holes {
      SkipsHole(p, addr, e, b, i);
    } else {
      hide RelocatedAbove, RelocateAt, Decode, Merged;
      var g := LiveIsHead(p, addr, e, b, i);
      if Decode(p[g]).Goto? {
        RelocatesGoto(p, addr, e, b, g);
      } else if !Decode(p[g]).Branch? {
        RelocatesOther(p, addr, e, b, g);
      } else if TakesTwo(p, g) {
        RelocatesTwo(p, addr, e, b, g);
      } else {
        RelocatesOne(p, addr, e, b, g);
      }
    }
  }

  lemma {:induction false} RelocatePassRight(p: seq<Filter>, addr: seq<nat>, e: seq<Insn>, b: Buffers, i: int)
    requires RelocatedAbove(p, addr, e, b, i) && PROLOGUE - 1 <= i < |e|
    ensures RelocatedAbove(p, addr, e, RelocatePass(b, i), PROLOGUE - 1)
    decreases i
  {
    hide RelocatedAbove, RelocateAt;
    if i >= PROLOGUE {
      RelocatesStep(p, addr, e, b, i);
      RelocatePassRight(p, addr, e, RelocateAt(b, i), i - 1);
    }
  }
}
