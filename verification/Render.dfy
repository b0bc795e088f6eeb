/** The renderer's forward pass over a decoded program: which registers and scratch words can
    hold the system call number or the architecture. */
module Render {
  import opened Word
  import opened Bpf
  import opened Statements
  import opened Decoder
  import opened CheckProg

  datatype Stat = NONE | ARCH | SYSNR | MIXED

  datatype Ctx = Ctx(aStat: Stat, xStat: Stat, memStat: seq<Stat>)

  const BLANK := Ctx(NONE, NONE, [NONE, NONE, NONE, NONE, NONE, NONE, NONE, NONE, NONE, NONE, NONE, NONE, NONE, NONE, NONE, NONE])

  /** set_stat without force: a status joined with one that arrives another way. */
  function Merge(dest: Stat, src: Stat): Stat {
    if dest == NONE then src else if dest != src then MIXED else dest
  }

  /** set_ctx without force. */
  function MergeCtx(dest: Ctx, src: Ctx): (c: Ctx)
    requires Sized(dest) && Sized(src)
    ensures Sized(c)
  {
    Ctx(Merge(dest.aStat, src.aStat), Merge(dest.xStat, src.xStat),
        seq(MEMWORDS, k requires 0 <= k < MEMWORDS => Merge(dest.memStat[k], src.memStat[k])))
  }

  /** A status stands for at least what another one stands for. */
  predicate Below(s: Stat, t: Stat) {
    s == NONE || s == t || t == MIXED
  }

  predicate Sized(c: Ctx) {
    |c.memStat| == MEMWORDS
  }

  predicate CtxBelow(c: Ctx, d: Ctx) {
    && Sized(c) && Sized(d)
    && Below(c.aStat, d.aStat) && Below(c.xStat, d.xStat)
    && forall k :: 0 <= k < MEMWORDS ==> Below(c.memStat[k], d.memStat[k])
  }

  /** The status of what an assignment writes. */
  function RightStat(op: AssignOp, right: Obj, c: Ctx): Stat {
    if !op.Equal? then MIXED
    else
      match right
      case SyscallNr => SYSNR
      case ArchNr => ARCH
      case VarA => c.aStat
      case VarX => c.xStat
      case MemWord(k) => if k < |c.memStat| then c.memStat[k] else MIXED
      case _ => MIXED
  }

  /** The context after a statement. */
  function After(b: Body, c: Ctx): (r: Ctx)
    ensures |r.memStat| == |c.memStat|
  {
    match b
    case Assign(VarA, op, right) => c.(aStat := RightStat(op, right, c))
    case Assign(VarX, op, right) => c.(xStat := RightStat(op, right, c))
    case Assign(MemWord(k), op, right) =>
      if k < |c.memStat| then c.(memStat := c.memStat[k := RightStat(op, right, c)]) else c
    case _ => c
  }

  /** The statements control can go to after a statement. */
  predicate GoesTo(b: Body, pc: nat, next: nat) {
    match b
    case Assign(_, _, _) => next == pc + 1
    case Jump(_, conditional, _, _, jt, jf) => next == pc + jt.codeNr + 1 || (conditional && next == pc + jf.codeNr + 1)
    case _ => false
  }

  /** What rendering needs of a program: arms and scratch words in range. */
  predicate InRange(b: Body, pc: nat, len: nat) {
    match b
    case Assign(left, _, right) =>
      (left.VarA? || left.VarX? || (left.MemWord? && left.k < MEMWORDS)) && (right.MemWord? ==> right.k < MEMWORDS)
    case Jump(_, conditional, _, _, jt, jf) => pc + jt.codeNr + 1 <= len && (conditional ==> pc + jf.codeNr + 1 <= len)
    case Return(_, _) => true
    case _ => false
  }

  predicate Renderable(v: seq<Statement>) {
    |v| > 1 && forall c :: 1 <= c < |v| ==> v[c].codeNr == c && InRange(v[c].body, c, |v| - 1)
  }

  /** Contexts that take in everything that flows into them. */
  predicate Flowing(v: seq<Statement>, ctxs: seq<Ctx>) {
    && |ctxs| == |v| + 1
    && (forall c :: 0 <= c < |ctxs| ==> Sized(ctxs[c]))
    && (forall c, d :: 1 <= c < |v| && c < d < |ctxs| ==> FlowsAt(v, ctxs, c, d))
  }

  predicate FlowsAt(v: seq<Statement>, ctxs: seq<Ctx>, c: nat, d: nat)
    requires c < |v| && c < |ctxs| && d < |ctxs|
  {
    GoesTo(v[c].body, c, d) ==> CtxBelow(After(v[c].body, ctxs[c]), ctxs[d])
  }

  /** The contexts of all statements before `n`, joined in their order into the context that they
      find at `d`, as far as they lead there. */
  function Joined(v: seq<Statement>, ctxs: seq<Ctx>, d: nat, n: nat): (c: Ctx)
    requires n <= |v| <= |ctxs| && forall e :: 0 <= e < |ctxs| ==> Sized(ctxs[e])
    ensures Sized(c)
  {
    if n <= 1 then BLANK
    else
      var before := Joined(v, ctxs, d, n - 1);
      if n - 1 < d && GoesTo(v[n - 1].body, n - 1, d) then MergeCtx(before, After(v[n - 1].body, ctxs[n - 1])) else before
  }

  predicate JoinedAt(v: seq<Statement>, ctxs: seq<Ctx>, d: nat, n: nat)
    requires n <= |v| <= |ctxs| && (forall e :: 0 <= e < |ctxs| ==> Sized(ctxs[e])) && d < |ctxs|
  {
    ctxs[d] == Joined(v, ctxs, d, n)
  }

  /** Every context is the join of what flows into it, and nothing else. */
  predicate Exactly(v: seq<Statement>, ctxs: seq<Ctx>, n: nat) {
    && |ctxs| == |v| + 1 && n <= |v| && (forall e :: 0 <= e < |ctxs| ==> Sized(ctxs[e]))
    && forall d :: 0 <= d < |ctxs| ==> JoinedAt(v, ctxs, d, n)
  }

  class Renderer {
    const list: array<Ctx>

    constructor (count: nat)
      ensures fresh(list) && list.Length == count + 1
      ensures forall c :: 0 <= c < list.Length ==> list[c] == BLANK
    {
      list := new Ctx[count + 1](_ => BLANK);
    }

    /** set_ctx: joins one context into another. */
    method SetCtx(dest: nat, src: nat)
      requires dest < list.Length && src < list.Length && dest != src && Sized(list[src]) && Sized(list[dest])
      modifies list
      ensures forall c :: 0 <= c < list.Length && c != dest ==> list[c] == old(list[c])
      ensures list[dest] == MergeCtx(old(list[dest]), list[src])
    {
      list[dest] := list[dest].(aStat := Merge(list[dest].aStat, list[src].aStat));
      list[dest] := list[dest].(xStat := Merge(list[dest].xStat, list[src].xStat));
      for i := 0 to MEMWORDS
        invariant Sized(list[dest])
        invariant forall c :: 0 <= c < list.Length && c != dest ==> list[c] == old(list[c])
        invariant list[dest].aStat == Merge(old(list[dest].aStat), list[src].aStat)
        invariant list[dest].xStat == Merge(old(list[dest].xStat), list[src].xStat)
        invariant forall k :: 0 <= k < i ==> list[dest].memStat[k] == Merge(old(list[dest].memStat[k]), list[src].memStat[k])
        invariant forall k :: i <= k < MEMWORDS ==> list[dest].memStat[k] == old(list[dest].memStat[k])
      {
        var stats := list[dest].memStat;
        list[dest] := list[dest].(memStat := stats[i := Merge(stats[i], list[src].memStat[i])]);
      }
      assert list[dest].memStat == MergeCtx(old(list[dest]), list[src]).memStat;
    }

    /** assign_line: the context becomes the one after the statement. */
    method AssignLine(b: Body, c: nat)
      requires c < list.Length && Sized(list[c]) && b.Assign? && InRange(b, c, c)
      modifies list
      ensures forall d :: 0 <= d < list.Length && d != c ==> list[d] == old(list[d])
      ensures list[c] == After(b, old(list[c]))
    {
      var stat := RightStat(b.op, b.right, list[c]);
      match b.left
      case VarA => list[c] := list[c].(aStat := stat);
      case VarX => list[c] := list[c].(xStat := stat);
      case MemWord(k) => list[c] := list[c].(memStat := list[c].memStat[k := stat]);
    }

    /** jump_line: both targets take in the context here. */
    method JumpLine(v: seq<Statement>, c: nat)
      requires 1 <= c < |v| && list.Length == |v| + 1 && v[c].body.Jump? && InRange(v[c].body, c, |v| - 1)
      requires forall d :: 0 <= d < list.Length ==> Sized(list[d])
      modifies list
      ensures Spread(v, c, old(list[..]), list[..])
    {
      var b := v[c].body;
      hide MergeCtx;
      SetCtx(c + b.jt.codeNr + 1, c);
      ghost var between := list[..];
      if b.conditional {
        SetCtx(c + b.jf.codeNr + 1, c);
      }
      assert between == old(list[..])[c + b.jt.codeNr + 1 := MergeCtx(old(list[c + b.jt.codeNr + 1]), old(list[c]))];
      SpreadTwice(v, c, old(list[..]), between, list[..]);
    }

    /** render_statement: what flows out of statement `c` reaches the contexts behind it. `before`
        and `after` also remember the contexts as they were when control passed them. */
    method RenderStatement(v: seq<Statement>, c: nat, ghost before: seq<Ctx>) returns (ghost after: seq<Ctx>)
      requires Renderable(v) && 1 <= c < |v| && list.Length == |before| == |v| + 1 && before[c..] == list[c..]
      requires forall d :: 0 <= d < list.Length ==> Sized(list[d]) && Sized(before[d])
      modifies list
      ensures |after| == |before| && Spread(v, c, before, after) && after[c + 1..] == list[c + 1..]
      ensures forall d :: 0 <= d < list.Length ==> Sized(list[d])
    {
      hide MergeCtx, Spread;
      after := before;
      assert list[c] == list[c..][0] == before[c];
      var b := v[c].body;
      match b {
        case Assign(_, _, _) =>
          AssignLine(b, c);
          SetCtx(c + 1, c);
          after := before[..c + 1] + list[c + 1..];
          AssignSpreads(v, c, before, after, list[c]);
        case Jump(_, _, _, _, _, _) =>
          ghost var start := list[..];
          JumpLine(v, c);
          SpreadSized(v, c, start, list[..]);
          after := before[..c + 1] + list[c + 1..];
          JumpSpreads(v, c, before, after, start, list[..]);
        case Return(_, _) => SpreadNothing(v, c, before);
      }
    }

    /** render: what is consulted to name the operand of each comparison, and the contexts in
        which the statements were found. */
    method Render(v: seq<Statement>) returns (consulted: seq<Stat>, ghost found: seq<Ctx>)
      requires Renderable(v) && list.Length == |v| + 1
      requires forall c :: 0 <= c < list.Length ==> list[c] == BLANK
      modifies list
      ensures Exactly(v, found, |v|) && Flowing(v, found) && |consulted| == |v|
      ensures forall c :: 1 <= c < |v| && v[c].body.Jump? && v[c].body.conditional ==> consulted[c] == found[c].aStat
    {
      consulted := [NONE];
      found := list[..];
      for c := 1 to |v|
        invariant |consulted| == c && |found| == list.Length
        invariant forall d :: 0 <= d < list.Length ==> Sized(list[d]) && Sized(found[d])
        invariant found[c..] == list[c..]
        invariant FlowingTo(v, found, c) && Exactly(v, found, c)
        invariant forall e :: 1 <= e < c ==> consulted[e] == found[e].aStat
      {
        hide CtxBelow, MergeCtx, FlowingTo, Exactly, Spread, Renderable;
        ghost var before := found;
        assert list[c] == list[c..][0] == found[c];
        consulted := consulted + [list[c].aStat];
        found := RenderStatement(v, c, before);
        SpreadKeeps(v, c, before, found);
        SpreadSized(v, c, before, found);
        FlowingNext(v, before, found, c);
        ExactlyNext(v, before, found, c);
      }
    }
  }

  lemma SpreadKeeps(v: seq<Statement>, c: nat, before: seq<Ctx>, after: seq<Ctx>)
    requires c < |v| && Spread(v, c, before, after)
    ensures forall d :: 0 <= d <= c && d < |before| && d < |after| ==> after[d] == before[d]
  {
    forall d | 0 <= d <= c && d < |before| && d < |after|
      ensures after[d] == before[d]
    {
      assert SpreadAt(v, c, before, after, d);
    }
  }

  lemma SpreadSized(v: seq<Statement>, c: nat, before: seq<Ctx>, after: seq<Ctx>)
    requires c < |v| && Spread(v, c, before, after)
    ensures |after| == |before| && forall d :: 0 <= d < |after| ==> Sized(after[d])
  {
    forall d | 0 <= d < |after|
      ensures Sized(after[d])
    {
      assert SpreadAt(v, c, before, after, d);
    }
  }

  /** A statement's context has been joined into the contexts it goes to, and the others are
      as they were. */
  predicate Spread(v: seq<Statement>, c: nat, before: seq<Ctx>, after: seq<Ctx>)
    requires c < |v|
  {
    && |after| == |before| && c < |before| && (forall d :: 0 <= d < |before| ==> Sized(before[d]))
    && forall d :: 0 <= d < |before| ==> SpreadAt(v, c, before, after, d)
  }

  predicate SpreadAt(v: seq<Statement>, c: nat, before: seq<Ctx>, after: seq<Ctx>, d: nat)
    requires c < |v| && c < |before| == |after| && d < |before| && Sized(before[c]) && Sized(before[d])
  {
    after[d] == if d > c && GoesTo(v[c].body, c, d) then MergeCtx(before[d], After(v[c].body, before[c])) else before[d]
  }

  /** What is joined in is taken in, and joining it in twice is the same as once. */
  lemma MergeAbove(a: Ctx, b: Ctx)
    requires Sized(a) && Sized(b)
    ensures CtxBelow(a, MergeCtx(a, b)) && CtxBelow(b, MergeCtx(a, b))
    ensures MergeCtx(MergeCtx(a, b), b) == MergeCtx(a, b)
  {
    var once, twice := MergeCtx(a, b), MergeCtx(MergeCtx(a, b), b);
    forall k | 0 <= k < MEMWORDS
      ensures twice.memStat[k] == once.memStat[k]
    {
    }
  }

  lemma BelowTransitive(a: Ctx, b: Ctx, c: Ctx)
    requires CtxBelow(a, b) && CtxBelow(b, c)
    ensures CtxBelow(a, c)
  {
  }

  lemma SpreadTwice(v: seq<Statement>, c: nat, before: seq<Ctx>, between: seq<Ctx>, after: seq<Ctx>)
    requires 1 <= c < |v| && |before| == |between| == |after| == |v| + 1 && v[c].body.Jump? && InRange(v[c].body, c, |v| - 1)
    requires forall d :: 0 <= d < |before| ==> Sized(before[d])
    requires var jt := c + v[c].body.jt.codeNr + 1;
             between == before[jt := MergeCtx(before[jt], before[c])]
    requires if v[c].body.conditional then
               var jf := c + v[c].body.jf.codeNr + 1;
               after == between[jf := MergeCtx(between[jf], before[c])]
             else after == between
    ensures Spread(v, c, before, after)
  {
    hide MergeCtx, CtxBelow;
    forall d | 0 <= d < |before|
      ensures SpreadAt(v, c, before, after, d)
    {
      MergeAbove(before[d], before[c]);
    }
  }

  /** All flows out of the statements before `n` are taken in. */
  predicate FlowingTo(v: seq<Statement>, ctxs: seq<Ctx>, n: nat) {
    && |ctxs| == |v| + 1 && n <= |v|
    && forall c, d :: 1 <= c < n && c < d < |ctxs| ==> FlowsAt(v, ctxs, c, d)
  }

  lemma AssignSpreads(v: seq<Statement>, c: nat, before: seq<Ctx>, after: seq<Ctx>, here: Ctx)
    requires 1 <= c < |v| && |before| == |after| == |v| + 1 && v[c].body.Assign?
    requires forall d :: 0 <= d < |before| ==> Sized(before[d])
    requires here == After(v[c].body, before[c]) && after[..c + 1] == before[..c + 1]
    requires forall d :: 0 <= d < |before| && d > c + 1 ==> after[d] == before[d]
    requires Sized(before[c + 1]) && Sized(here) && after[c + 1] == MergeCtx(before[c + 1], here)
    ensures Spread(v, c, before, after)
  {
    forall d | 0 <= d < |before|
      ensures SpreadAt(v, c, before, after, d)
    {
      if d <= c {
        assert after[..c + 1][d] == before[..c + 1][d];
      }
    }
  }

  lemma JumpSpreads(v: seq<Statement>, c: nat, before: seq<Ctx>, after: seq<Ctx>, start: seq<Ctx>, end: seq<Ctx>)
    requires 1 <= c < |v| && |before| == |after| == |start| == |end| == |v| + 1 && v[c].body.Jump?
    requires Spread(v, c, start, end) && start[c..] == before[c..] && after == before[..c + 1] + end[c + 1..]
    requires forall d :: 0 <= d < |before| ==> Sized(before[d])
    ensures Spread(v, c, before, after)
  {
    assert start[c] == start[c..][0] == before[c];
    forall d | 0 <= d < |before|
      ensures SpreadAt(v, c, before, after, d)
    {
      assert SpreadAt(v, c, start, end, d);
      if d > c {
        assert start[d] == start[c..][d - c] == before[d];
      }
    }
  }

  lemma SpreadNothing(v: seq<Statement>, c: nat, before: seq<Ctx>)
    requires 1 <= c < |v| && |before| == |v| + 1 && v[c].body.Return? && forall d :: 0 <= d < |before| ==> Sized(before[d])
    ensures Spread(v, c, before, before)
  {
  }

  lemma FlowingNext(v: seq<Statement>, before: seq<Ctx>, after: seq<Ctx>, c: nat)
    requires 1 <= c < |v| && FlowingTo(v, before, c) && Spread(v, c, before, after)
    ensures FlowingTo(v, after, c + 1)
  {
    hide CtxBelow, GoesTo, After, MergeCtx;
    var n := c + 1;
    forall e, d | 1 <= e < n && e < d < |after|
      ensures FlowsAt(v, after, e, d)
    {
      assert SpreadAt(v, c, before, after, e) && SpreadAt(v, c, before, after, d);
      var here := After(v[c].body, before[c]);
      MergeAbove(before[d], here);
      if e < c {
        assert FlowsAt(v, before, e, d);
        if after[d] != before[d] && GoesTo(v[e].body, e, d) {
          BelowTransitive(After(v[e].body, before[e]), before[d], after[d]);
        }
      }
    }
  }

  lemma {:induction false} JoinedFrame(v: seq<Statement>, a: seq<Ctx>, b: seq<Ctx>, d: nat, n: nat)
    requires n <= |v| <= |a| == |b| && forall e :: 0 <= e < |a| ==> Sized(a[e]) && Sized(b[e])
    requires forall e :: 0 <= e < n ==> a[e] == b[e]
    ensures Joined(v, a, d, n) == Joined(v, b, d, n)
  {
    hide MergeCtx, GoesTo, After;
    if n > 1 {
      JoinedFrame(v, a, b, d, n - 1);
    }
  }

  /** One more statement is joined in where it leads, and nothing else changes. */
  lemma {:induction false} ExactlyNext(v: seq<Statement>, before: seq<Ctx>, after: seq<Ctx>, c: nat)
    requires 1 <= c < |v| && Exactly(v, before, c) && Spread(v, c, before, after)
    requires forall d :: 0 <= d < |after| ==> Sized(after[d])
    ensures Exactly(v, after, c + 1)
  {
    hide MergeCtx, GoesTo, After, Joined;
    SpreadKeeps(v, c, before, after);
    var n := c + 1;
    forall d | 0 <= d < |after|
      ensures JoinedAt(v, after, d, n)
    {
      assert JoinedAt(v, before, d, c) && SpreadAt(v, c, before, after, d);
      JoinedFrame(v, before, after, d, c);
      JoinedStep(v, after, d, c);
    }
  }

  lemma {:induction false} JoinedStep(v: seq<Statement>, ctxs: seq<Ctx>, d: nat, c: nat)
    requires 1 <= c < |v| <= |ctxs| && forall e :: 0 <= e < |ctxs| ==> Sized(ctxs[e])
    ensures Joined(v, ctxs, d, c + 1)
         == if c < d && GoesTo(v[c].body, c, d) then MergeCtx(Joined(v, ctxs, d, c), After(v[c].body, ctxs[c]))
            else Joined(v, ctxs, d, c)
  {
  }

  // What the statuses mean: where a value on a run comes from.

  /** Where a value comes from: it was never assigned, it is a copy of the system call number or
      of the architecture, or it is anything else. */
  datatype Tag = Untouched | IsSysnr | IsArch | Other

  datatype Tags = Tags(a: Tag, x: Tag, mem: seq<Tag>) {
    function Get(r: Reg): Tag {
      if r == A then a else x
    }

    function Set(r: Reg, t: Tag): Tags {
      if r == A then this.(a := t) else this.(x := t)
    }
  }

  const FRESH := Tags(Untouched, Untouched, [Untouched, Untouched, Untouched, Untouched, Untouched, Untouched, Untouched, Untouched,
    Untouched, Untouched, Untouched, Untouched, Untouched, Untouched, Untouched, Untouched])

  /** The origins after an instruction. */
  function Follow(i: Instr, t: Tags): (r: Tags)
    ensures |r.mem| == |t.mem|
  {
    match i
    case LoadImm(r, _) => t.Set(r, Other)
    case LoadAbs(k) => t.(a := if k == 0 then IsSysnr else if k == 4 then IsArch else Other)
    case LoadLen(r) => t.Set(r, Other)
    case LoadMem(r, k) => if k < |t.mem| then t.Set(r, t.mem[k]) else t
    case Store(r, k) => if k < |t.mem| then t.(mem := t.mem[k := t.Get(r)]) else t
    case Tax => t.(x := t.a)
    case Txa => t.(a := t.x)
    case Neg => t.(a := Other)
    case Arith(_, _) => t.(a := Other)
    case _ => t
  }

  /** A status allows for an origin; a value never assigned is allowed for by all of them. */
  predicate Allows(s: Stat, t: Tag) {
    match t
    case Untouched => true
    case IsSysnr => s == SYSNR || s == MIXED
    case IsArch => s == ARCH || s == MIXED
    case Other => s == MIXED
  }

  predicate AllowsAll(c: Ctx, t: Tags) {
    && Sized(c) && |t.mem| == MEMWORDS
    && Allows(c.aStat, t.a) && Allows(c.xStat, t.x)
    && forall k :: 0 <= k < MEMWORDS ==> Allows(c.memStat[k], t.mem[k])
  }

  /** A copy of an attribute has the attribute's value. */
  predicate TrueOf(t: Tag, v: u32, d: Data) {
    (t.IsSysnr? ==> v == d[0]) && (t.IsArch? ==> v == d[1])
  }

  predicate AllTrue(t: Tags, s: State, d: Data) {
    && |t.mem| == MEMWORDS
    && TrueOf(t.a, s.a, d) && TrueOf(t.x, s.x, d)
    && forall k :: 0 <= k < MEMWORDS ==> TrueOf(t.mem[k], s.mem[k], d)
  }

  /** From `pc` on, every instruction of a run finds its registers and scratch words with origins
      that the context of its statement allows for. */
  predicate Covered(p: seq<Filter>, ctxs: seq<Ctx>, pc: nat, s: State, t: Tags, d: Data)
    requires |ctxs| > |p|
    decreases |p| - pc
  {
    pc < |p| ==>
      && AllowsAll(ctxs[pc + 1], t) && AllTrue(t, s, d)
      && match Exec(Decode(p[pc]), pc, s, d)
         case Next(pc', s') => Covered(p, ctxs, pc', s', Follow(Decode(p[pc]), t), d)
         case _ => true
  }

  /** The statements mean the instructions of the program. */
  predicate Means(v: seq<Statement>, p: seq<Filter>) {
    |v| == |p| + 1 && forall i :: 0 <= i < |p| ==> InstrOf(v[i + 1].body) == Some(Kept(Decode(p[i]))) && (Decode(p[i]).ReturnK? || Kept(Decode(p[i])) == Decode(p[i]))
  }

  lemma AllowsMore(c: Ctx, d: Ctx, t: Tags)
    requires CtxBelow(c, d) && AllowsAll(c, t)
    ensures AllowsAll(d, t)
  {
  }

  /** Copies stay copies: the origins after an instruction are true of the state after it. */
  lemma FollowTrue(i: Instr, pc: nat, t: Tags, s: State, d: Data)
    requires AllTrue(t, s, d) && Exec(i, pc, s, d).Next?
    ensures AllTrue(Follow(i, t), Exec(i, pc, s, d).s, d)
  {
    hide Compute, Neg32, Compare;
  }

  /** The context after a statement allows for the origins after its instruction. */
  lemma AfterAllows(b: Body, i: Instr, c: Ctx, t: Tags)
    requires InstrOf(b) == Some(i) && AllowsAll(c, t)
    ensures AllowsAll(After(b, c), Follow(i, t))
  {
    match b
    case Assign(left, op, right) =>
    case _ =>
  }

  lemma StepGoesTo(b: Body, i: Instr, pc: nat, s: State, d: Data)
    requires InstrOf(b) == Some(i) && Exec(i, pc, s, d).Next?
    ensures GoesTo(b, pc + 1, Exec(i, pc, s, d).pc + 1)
  {
    hide Compute, Neg32, Compare;
  }

  lemma {:induction false} RunCovered(v: seq<Statement>, p: seq<Filter>, ctxs: seq<Ctx>, pc: nat, s: State, t: Tags, d: Data)
    requires Means(v, p) && Flowing(v, ctxs)
    requires pc < |p| ==> AllowsAll(ctxs[pc + 1], t) && AllTrue(t, s, d)
    ensures Covered(p, ctxs, pc, s, t, d)
    decreases |p| - pc
  {
    hide Decode, InstrOf, AllowsAll, AllTrue, Follow, After, CtxBelow, GoesTo, Exec;
    if pc < |p| {
      var i := Decode(p[pc]);
      var r := Exec(i, pc, s, d);
      if i.ReturnK? {
        NotKeptReturns(i, pc, s, d);
      }
      if r.Next? {
        var b := v[pc + 1].body;
        FollowTrue(i, pc, t, s, d);
        AfterAllows(b, i, ctxs[pc + 1], t);
        StepGoesTo(b, i, pc, s, d);
        if r.pc < |p| {
          assert FlowsAt(v, ctxs, pc + 1, r.pc + 1);
          AllowsMore(After(b, ctxs[pc + 1]), ctxs[r.pc + 1], Follow(i, t));
        }
        RunCovered(v, p, ctxs, r.pc, r.s, Follow(i, t), d);
      }
    }
  }

  /** Whatever contexts the renderer finds allow for all that any run from fresh registers and
      scratch memory can hold. */
  lemma {:induction false} RenderIsSound(v: seq<Statement>, p: seq<Filter>, ctxs: seq<Ctx>, s: State, d: Data)
    requires Means(v, p) && Flowing(v, ctxs)
    ensures Covered(p, ctxs, 0, s, FRESH, d)
  {
    RunCovered(v, p, ctxs, 0, s, FRESH, d);
  }

  /** Where the renderer takes the accumulator for the system call number, it is that number or
      a value that was never assigned; and the same with the architecture. */
  predicate NamedRight(stat: Stat, t: Tag, a: u32, d: Data) {
    && (stat == SYSNR ==> t == Untouched || a == d[0])
    && (stat == ARCH ==> t == Untouched || a == d[1])
  }

  lemma NamedOperand(stat: Stat, t: Tag, a: u32, d: Data)
    requires Allows(stat, t) && TrueOf(t, a, d)
    ensures NamedRight(stat, t, a, d)
  {
  }

  // How precise the statuses are: where a value has the same origin whichever way it came, the
  // status says just that.

  /** A register or a scratch word. */
  datatype Place = Register(r: Reg) | Scratch(k: nat) {
    predicate Valid() {
      Scratch? ==> k < MEMWORDS
    }
  }

  function TagIn(t: Tags, l: Place): Tag
    requires |t.mem| == MEMWORDS && l.Valid()
  {
    if l.Register? then t.Get(l.r) else t.mem[l.k]
  }

  function StatIn(c: Ctx, l: Place): Stat
    requires Sized(c) && l.Valid()
  {
    match l
    case Register(A) => c.aStat
    case Register(X) => c.xStat
    case Scratch(k) => c.memStat[k]
  }

  function StatOf(t: Tag): Stat {
    match t
    case Untouched => NONE
    case IsSysnr => SYSNR
    case IsArch => ARCH
    case Other => MIXED
  }

  /** Nothing leads to the statement, as to the first one. */
  predicate IsEntry(v: seq<Statement>, c: nat) {
    forall q :: 1 <= q < c && q < |v| ==> !GoesTo(v[q].body, q, c)
  }

  /** A way through the statements from an entry, as far as its last one. */
  predicate IsWay(v: seq<Statement>, w: seq<nat>)
    decreases |w|
  {
    && |w| > 0 && 1 <= w[|w| - 1] < |v|
    && if |w| == 1 then IsEntry(v, w[0])
       else
         var q := w[|w| - 2];
         q < w[|w| - 1] && IsWay(v, w[..|w| - 1]) && GoesTo(v[q].body, q, w[|w| - 1])
  }

  predicate WayEnds(v: seq<Statement>, w: seq<nat>, c: nat) {
    |w| > 0 && IsWay(v, w) && w[|w| - 1] == c
  }

  /** The origins after going a way, before its last statement. */
  function Carried(p: seq<Filter>, w: seq<nat>): (t: Tags)
    ensures |t.mem| == MEMWORDS
    decreases |w|
  {
    if |w| <= 1 then FRESH
    else
      var before, q := Carried(p, w[..|w| - 1]), w[|w| - 2];
      if 1 <= q <= |p| then Follow(Decode(p[q - 1]), before) else before
  }

  /** Whichever way statement `c` is reached, what is in `l` has the origin `t`. */
  ghost predicate Agreed(v: seq<Statement>, p: seq<Filter>, c: nat, l: Place, t: Tag)
    requires l.Valid()
  {
    forall w :: WayEnds(v, w, c) ==> TagIn(Carried(p, w), l) == t
  }

  lemma {:induction false} WayTo(v: seq<Statement>, c: nat) returns (w: seq<nat>)
    requires 1 <= c < |v|
    ensures WayEnds(v, w, c)
    decreases c
  {
    if IsEntry(v, c) {
      w := [c];
    } else {
      var q :| 1 <= q < c && q < |v| && GoesTo(v[q].body, q, c);
      var before := WayTo(v, q);
      w := Extended(v, before, c);
    }
  }

  lemma Extended(v: seq<Statement>, before: seq<nat>, c: nat) returns (w: seq<nat>)
    requires IsWay(v, before) && before[|before| - 1] < c < |v| && GoesTo(v[before[|before| - 1]].body, before[|before| - 1], c)
    ensures w == before + [c] && WayEnds(v, w, c)
  {
    w := before + [c];
    assert w[..|w| - 1] == before;
  }

  /** Where what an instruction leaves in a place comes from: another place, or a fixed origin. */
  datatype Source = From(l: Place) | Fixed(t: Tag)

  function SourceOf(i: Instr, l: Place): Source {
    match i
    case LoadImm(r, _) => if l == Register(r) then Fixed(Other) else From(l)
    case LoadAbs(k) =>
      if l == Register(A) then Fixed(if k == 0 then IsSysnr else if k == 4 then IsArch else Other) else From(l)
    case LoadLen(r) => if l == Register(r) then Fixed(Other) else From(l)
    case LoadMem(r, k) => if l == Register(r) && k < MEMWORDS then From(Scratch(k)) else From(l)
    case Store(r, k) => if l == Scratch(k) then From(Register(r)) else From(l)
    case Tax => if l == Register(X) then From(Register(A)) else From(l)
    case Txa => if l == Register(A) then From(Register(X)) else From(l)
    case Neg => if l == Register(A) then Fixed(Other) else From(l)
    case Arith(_, _) => if l == Register(A) then Fixed(Other) else From(l)
    case _ => From(l)
  }

  lemma FollowsSource(i: Instr, t: Tags, l: Place)
    requires |t.mem| == MEMWORDS && l.Valid()
    ensures SourceOf(i, l).From? ==> SourceOf(i, l).l.Valid()
    ensures TagIn(Follow(i, t), l) == match SourceOf(i, l) case From(q) => TagIn(t, q) case Fixed(g) => g
  {
  }

  lemma AfterSource(b: Body, i: Instr, c: Ctx, l: Place)
    requires InstrOf(b) == Some(i) && Sized(c) && l.Valid() && (i.LoadMem? ==> i.k < MEMWORDS)
    ensures SourceOf(i, l).From? ==> SourceOf(i, l).l.Valid()
    ensures StatIn(After(b, c), l) == match SourceOf(i, l) case From(q) => StatIn(c, q) case Fixed(g) => StatOf(g)
  {
    match b
    case Assign(left, op, right) =>
    case _ =>
  }

  /** What all ways to a statement agree on, all ways to one that leads there agree on. */
  lemma {:induction false} AgreedBefore(v: seq<Statement>, p: seq<Filter>, c: nat, q: nat, l: Place, t: Tag)
    requires 1 <= q < c < |v| && |v| == |p| + 1 && GoesTo(v[q].body, q, c) && l.Valid() && Agreed(v, p, c, l, t)
    ensures match SourceOf(Decode(p[q - 1]), l)
            case From(k) => k.Valid() && Agreed(v, p, q, k, t)
            case Fixed(g) => t == g
  {
    hide Decode, Follow, GoesTo, IsWay, SourceOf;
    var i := Decode(p[q - 1]);
    FollowsSource(i, FRESH, l);
    var some := WayTo(v, q);
    forall w | WayEnds(v, w, q)
      ensures match SourceOf(i, l) case From(k) => TagIn(Carried(p, w), k) == t case Fixed(g) => t == g
    {
      var longer := Extended(v, w, c);
      assert longer[..|longer| - 1] == w;
      FollowsSource(i, Carried(p, w), l);
    }
    assert WayEnds(v, some, q);
  }

  lemma MergeIn(a: Ctx, b: Ctx, l: Place)
    requires Sized(a) && Sized(b) && l.Valid()
    ensures StatIn(MergeCtx(a, b), l) == Merge(StatIn(a, l), StatIn(b, l))
  {
  }

  predicate StatAfter(b: Body, c: Ctx, l: Place, s: Stat)
    requires l.Valid()
  {
    Sized(After(b, c)) && StatIn(After(b, c), l) == s
  }

  /** Contexts that all have the same status in a place are joined to that status. */
  lemma {:induction false} JoinedStat(v: seq<Statement>, ctxs: seq<Ctx>, c: nat, n: nat, l: Place, s: Stat)
    requires n <= |v| <= |ctxs| && l.Valid() && forall e :: 0 <= e < |ctxs| ==> Sized(ctxs[e])
    requires forall q :: 1 <= q < c && q < n && GoesTo(v[q].body, q, c) ==> StatAfter(v[q].body, ctxs[q], l, s)
    ensures StatIn(Joined(v, ctxs, c, n), l) == NONE || StatIn(Joined(v, ctxs, c, n), l) == s
    ensures forall q :: 1 <= q < c && q < n && GoesTo(v[q].body, q, c) ==> StatIn(Joined(v, ctxs, c, n), l) == s
  {
    hide MergeCtx, After, GoesTo, StatIn;
    if n > 1 {
      JoinedStat(v, ctxs, c, n - 1, l, s);
      if n - 1 < c && GoesTo(v[n - 1].body, n - 1, c) {
        MergeIn(Joined(v, ctxs, c, n - 1), After(v[n - 1].body, ctxs[n - 1]), l);
      }
    } else {
      BlankIn(l);
    }
  }

  lemma BlankIn(l: Place)
    requires l.Valid()
    ensures StatIn(BLANK, l) == NONE && TagIn(FRESH, l) == Untouched
  {
  }

  /** The instruction of a statement that leads on. */
  lemma LeadsOn(v: seq<Statement>, p: seq<Filter>, q: nat, c: nat)
    requires Means(v, p) && 1 <= q < |v| && GoesTo(v[q].body, q, c)
    ensures InstrOf(v[q].body) == Some(Decode(p[q - 1]))
  {
    hide Decode;
    assert InstrOf(v[q - 1 + 1].body) == Some(Kept(Decode(p[q - 1])));
  }

  /** Where all ways agree on an origin, the status is that origin's, and none that says less. */
  lemma {:induction false} StatusIsPrecise(v: seq<Statement>, p: seq<Filter>, ctxs: seq<Ctx>, c: nat, l: Place, t: Tag)
    requires Means(v, p) && Exactly(v, ctxs, |v|) && 1 <= c < |v| && l.Valid() && Agreed(v, p, c, l, t)
    requires forall i :: 0 <= i < |p| && Decode(p[i]).LoadMem? ==> Decode(p[i]).k < MEMWORDS
    ensures StatIn(ctxs[c], l) == StatOf(t)
    decreases c
  {
    hide Decode, Follow, After, GoesTo, InstrOf, Joined, StatIn, SourceOf, Agreed;
    assert JoinedAt(v, ctxs, c, |v|);
    forall q | 1 <= q < c && q < |v| && GoesTo(v[q].body, q, c)
      ensures StatAfter(v[q].body, ctxs[q], l, StatOf(t))
    {
      var i := Decode(p[q - 1]);
      LeadsOn(v, p, q, c);
      AgreedBefore(v, p, c, q, l, t);
      AfterSource(v[q].body, i, ctxs[q], l);
      if SourceOf(i, l).From? {
        StatusIsPrecise(v, p, ctxs, q, SourceOf(i, l).l, t);
      }
    }
    JoinedStat(v, ctxs, c, |v|, l, StatOf(t));
    if IsEntry(v, c) {
      AgreedAtEntry(v, p, c, l, t);
    }
  }

  /** All statuses found are precise. */
  ghost predicate Precise(v: seq<Statement>, p: seq<Filter>, ctxs: seq<Ctx>) {
    && |v| <= |ctxs|
    && forall c, l: Place, t :: 1 <= c < |v| && l.Valid() && Sized(ctxs[c]) && Agreed(v, p, c, l, t) ==> StatIn(ctxs[c], l) == StatOf(t)
  }

  /** A comparison of what is a copy of the system call number on all ways is named as one, and the
      same with the architecture. */
  ghost predicate NamesPrecise(v: seq<Statement>, p: seq<Filter>, consulted: seq<Stat>) {
    && |v| <= |consulted| && |v| <= |p| + 1
    && forall c, t :: 1 <= c < |v| && Decode(p[c - 1]).Branch? && Agreed(v, p, c, Register(A), t) ==> consulted[c] == StatOf(t)
  }

  lemma AllPrecise(v: seq<Statement>, p: seq<Filter>, ctxs: seq<Ctx>)
    requires Means(v, p) && Exactly(v, ctxs, |v|)
    requires forall i :: 0 <= i < |p| && Decode(p[i]).LoadMem? ==> Decode(p[i]).k < MEMWORDS
    ensures Precise(v, p, ctxs)
  {
    hide Decode, Agreed, StatIn, Means;
    forall c, l: Place, t | 1 <= c < |v| && l.Valid() && Sized(ctxs[c]) && Agreed(v, p, c, l, t)
      ensures StatIn(ctxs[c], l) == StatOf(t)
    {
      StatusIsPrecise(v, p, ctxs, c, l, t);
    }
  }

  lemma NamesArePrecise(v: seq<Statement>, p: seq<Filter>, ctxs: seq<Ctx>, consulted: seq<Stat>)
    requires Precise(v, p, ctxs) && Exactly(v, ctxs, |v|) && |v| == |p| + 1 <= |consulted|
    requires forall i :: 0 <= i < |p| && Decode(p[i]).Branch? ==> consulted[i + 1] == ctxs[i + 1].aStat
    ensures NamesPrecise(v, p, consulted)
  {
    hide Decode, Agreed;
    forall c, t | 1 <= c < |v| && Decode(p[c - 1]).Branch? && Agreed(v, p, c, Register(A), t)
      ensures consulted[c] == StatOf(t)
    {
      assert StatIn(ctxs[c], Register(A)) == StatOf(t);
      var i := c - 1;
      assert consulted[i + 1] == ctxs[i + 1].aStat;
    }
  }

  lemma {:induction false} AgreedAtEntry(v: seq<Statement>, p: seq<Filter>, c: nat, l: Place, t: Tag)
    requires 1 <= c < |v| && IsEntry(v, c) && l.Valid() && Agreed(v, p, c, l, t)
    ensures t == Untouched
  {
    BlankIn(l);
    var w := [c];
    assert WayEnds(v, w, c) && Carried(p, w) == FRESH;
  }

  lemma NotKeptReturns(i: Instr, pc: nat, s: State, d: Data)
    requires i.ReturnK?
    ensures !Exec(i, pc, s, d).Next?
  {
  }

  /** The statement of a valid instruction is in range. */
  lemma ValidInRange(b: Body, i: Instr, pc: nat, len: nat)
    requires InstrOf(b) == Some(Kept(i)) && ValidInstr(i, pc, len) && len < 0x1_0000
    ensures InRange(b, pc + 1, len)
    ensures i.ReturnK? || Kept(i) == i
  {
    hide KeepsReturn;
    match b
    case Assign(_, _, _) =>
    case Jump(_, _, _, _, _, _) =>
    case _ =>
  }

  lemma ValidStatement(prog: seq<Filter>, v: seq<Statement>, i: nat)
    requires ValidProgram(prog) && |prog| < 0x1_0000 && |v| == |prog| + 1 && i < |prog|
    requires DecodedAt(prog[i], v[i + 1], i)
    ensures v[i + 1].codeNr == i + 1 && InRange(v[i + 1].body, i + 1, |prog|)
    ensures InstrOf(v[i + 1].body) == Some(Kept(Decode(prog[i]))) && (Decode(prog[i]).ReturnK? || Kept(Decode(prog[i])) == Decode(prog[i]))
  {
    hide InstrOf, Decode, Kept, InRange, Exact, NormalJump, Writable, ValidInstr;
    assert ValidAt(prog, i);
    ValidInRange(v[i + 1].body, Decode(prog[i]), i, |prog|);
  }

  lemma ValidIsRenderable(prog: seq<Filter>, v: seq<Statement>)
    requires ValidProgram(prog) && |prog| < 0x1_0000 && |v| == |prog| + 1
    requires forall i :: 0 <= i < |prog| ==> DecodedAt(prog[i], v[i + 1], i)
    ensures Renderable(v) && Means(v, prog)
  {
    hide InstrOf, Decode, Kept, InRange, DecodedAt, ValidInstr;
    forall c | 1 <= c < |v|
      ensures v[c].codeNr == c && InRange(v[c].body, c, |v| - 1)
    {
      assert DecodedAt(prog[c - 1], v[c - 1 + 1], c - 1);
      ValidStatement(prog, v, c - 1);
    }
    forall i | 0 <= i < |prog|
      ensures InstrOf(v[i + 1].body) == Some(Kept(Decode(prog[i]))) && (Decode(prog[i]).ReturnK? || Kept(Decode(prog[i])) == Decode(prog[i]))
    {
      ValidStatement(prog, v, i);
    }
  }

  lemma ValidIsDecodable(prog: seq<Filter>, i: nat)
    requires ValidProgram(prog) && i < |prog|
    ensures Decodable(prog[i])
  {
    assert ValidAt(prog, i);
    LoadAbsK(prog[i]);
  }

  lemma LoadAbsK(f: Filter)
    ensures Decode(f).LoadAbs? ==> Decode(f).k == f.k
  {
  }

  /** What rendering a valid program finds: contexts that allow for every run, and names of
      comparisons chosen by them. */
  ghost predicate RenderedRight(prog: seq<Filter>, consulted: seq<Stat>, found: seq<Ctx>) {
    && |consulted| == |prog| + 1 && |found| == |prog| + 2
    && (forall s, d :: Covered(prog, found, 0, s, FRESH, d))
    && (forall s, d :: NamesRight(prog, consulted, 0, s, FRESH, d))
  }

  /** Decoding and rendering a program that is trusted to be valid, as one from the kernel is. */
  method RenderTrusted(prog: seq<Filter>) returns (consulted: seq<Stat>, ghost v: seq<Statement>, ghost found: seq<Ctx>)
    requires ValidProgram(prog) && |prog| < 0x1_0000
    ensures Means(v, prog) && Exactly(v, found, |v|)
    ensures Precise(v, prog, found) && NamesPrecise(v, prog, consulted)
    ensures |consulted| == |prog| + 1 && forall s, d :: NamesRight(prog, consulted, 0, s, FRESH, d)
    ensures RenderedRight(prog, consulted, found)
  {
    hide ValidProgram, Decodable, DecodedAt, Renderable, Flowing, Covered, NamesRight, Exactly, Agreed;
    forall i | 0 <= i < |prog|
      ensures Decodable(prog[i])
    {
      ValidIsDecodable(prog, i);
    }
    var statements := DecodeFilters(prog);
    v := statements;
    ValidIsRenderable(prog, v);
    var r := new Renderer(|statements|);
    consulted, found := r.Render(statements);
    FlowingSize(v, found);
    forall i | 0 <= i < |prog| && Decode(prog[i]).Branch?
      ensures consulted[i + 1] == found[i + 1].aStat
    {
      BranchIsJump(prog[i], v[i + 1], i);
    }
    ScratchInRange(prog);
    AllPrecise(v, prog, found);
    NamesArePrecise(v, prog, found, consulted);
    forall s: State, d: Data
      ensures Covered(prog, found, 0, s, FRESH, d) && NamesRight(prog, consulted, 0, s, FRESH, d)
    {
      RenderIsSound(v, prog, found, s, d);
      CoveredNames(prog, found, consulted, 0, s, FRESH, d);
    }
  }

  lemma ScratchInRange(prog: seq<Filter>)
    requires ValidProgram(prog)
    ensures forall i :: 0 <= i < |prog| && Decode(prog[i]).LoadMem? ==> Decode(prog[i]).k < MEMWORDS
  {
    hide Decode;
    forall i | 0 <= i < |prog| && Decode(prog[i]).LoadMem?
      ensures Decode(prog[i]).k < MEMWORDS
    {
      assert ValidAt(prog, i);
    }
  }

  /** Checking first, for other programs: a clean one is rendered within bounds. */
  method RenderProgram(prog: seq<Filter>) returns (checked: Checked, consulted: seq<Stat>, ghost v: seq<Statement>, ghost found: seq<Ctx>)
    requires 0 < |prog| < 0x1_0000
    ensures checked.Clean? ==> ValidProgram(prog) && RenderedRight(prog, consulted, found)
    ensures checked.Clean? ==> |consulted| == |prog| + 1 && forall s, d :: NamesRight(prog, consulted, 0, s, FRESH, d)
    ensures checked.Clean? ==> Means(v, prog) && Precise(v, prog, found) && NamesPrecise(v, prog, consulted)
  {
    hide ValidProgram, NamesRight, Covered, Exactly, Means, Precise, NamesPrecise;
    consulted, v, found := [], [], [];
    checked := CheckProg.CheckProg(prog);
    if checked.Clean? {
      consulted, v, found := RenderTrusted(prog);
    }
  }

  /** Wherever a run compares A, the status that the names of the comparison were chosen by allows
      for the origin of A, and A is the attribute that the status takes it for. */
  predicate NamesRight(p: seq<Filter>, consulted: seq<Stat>, pc: nat, s: State, t: Tags, d: Data)
    requires |consulted| > |p|
    decreases |p| - pc
  {
    pc < |p| ==>
      var i := Decode(p[pc]);
      && (i.Branch? ==> Allows(consulted[pc + 1], t.a) && NamedRight(consulted[pc + 1], t.a, s.a, d))
      && match Exec(i, pc, s, d)
         case Next(pc', s') => NamesRight(p, consulted, pc', s', Follow(i, t), d)
         case _ => true
  }

  lemma {:induction false} CoveredNames(p: seq<Filter>, ctxs: seq<Ctx>, consulted: seq<Stat>, pc: nat, s: State, t: Tags, d: Data)
    requires |ctxs| > |p| && |consulted| > |p| && Covered(p, ctxs, pc, s, t, d)
    requires forall i :: 0 <= i < |p| && Decode(p[i]).Branch? ==> consulted[i + 1] == ctxs[i + 1].aStat
    ensures NamesRight(p, consulted, pc, s, t, d)
    decreases |p| - pc
  {
    hide Decode, Follow, TrueOf, Allows, NamedRight;
    if pc < |p| && Decode(p[pc]).Branch? {
      NamedOperand(consulted[pc + 1], t.a, s.a, d);
    }
    if pc < |p| && Exec(Decode(p[pc]), pc, s, d).Next? {
      var next := Exec(Decode(p[pc]), pc, s, d);
      CoveredNames(p, ctxs, consulted, next.pc, next.s, Follow(Decode(p[pc]), t), d);
    }
  }

  lemma FlowingSize(v: seq<Statement>, ctxs: seq<Ctx>)
    requires Flowing(v, ctxs)
    ensures |ctxs| == |v| + 1
  {
  }

  lemma BranchIsJump(f: Filter, s: Statement, i: nat)
    requires DecodedAt(f, s, i) && Decode(f).Branch?
    ensures s.body.Jump? && s.body.conditional
  {
    hide Decode;
  }
}
