/** The recovery as it runs: a bitmap and flags beside the caller's buffers, all edited in
    place by three loops. */
module BpfTrans {
  import opened Word
  import opened Bpf
  import opened Ebpf
  import opened Migration
  import opened Recovery
  import opened Relocation
  import opened Bitmap
  import opened Folding
  import Soundness
  import RecoveredCheck
  import opened ScratchCheck

  lemma SpanSplit(i: nat, m: nat, n: nat)
    ensures Span(i, m) + Span(i + m, n) == Span(i, m + n)
  {
  }

  /** A span that does not end in the word it begins in. */
  lemma AcrossWords(from: nat, count: nat)
    requires count < U32BITS && from / U32BITS != (from + count) / U32BITS
    ensures (from + count) / U32BITS == from / U32BITS + 1
    ensures U32BITS * (from / U32BITS + 1) == from + (U32BITS - from % U32BITS)
    ensures count == U32BITS - from % U32BITS + (from + count) % U32BITS
  {
  }

  /** Marks `count` instructions from `from` on to be deleted. */
  method SetBits(bitmap: array<u32>, from: nat, count: nat)
    requires count < U32BITS && (from + count) / U32BITS < bitmap.Length
    modifies bitmap
    ensures Members(bitmap[..]) == old(Members(bitmap[..])) + Span(from, count)
  {
    hide IsMask, Mask, Members, Shl32, Or32, Span, Pow2;
    if count == 0 {
      return;
    }
    var mapidx, frombit := from / U32BITS, from % U32BITS;
    ghost var w := bitmap[..];
    if mapidx != (from + count) / U32BITS {
      var rest := (from + count) % U32BITS;
      AcrossWords(from, count);
      MaxIs(frombit);
      SetWord(w, mapidx, Shl32(U32_MAX, frombit), frombit, 32);
      bitmap[mapidx] := Or32(bitmap[mapidx], Shl32(U32_MAX, frombit));
      ghost var w1 := bitmap[..];
      assert w1 == w[mapidx := Or32(w[mapidx], Shl32(U32_MAX, frombit))];
      MaskIs(rest, 0);
      SetWord(w1, mapidx + 1, Mask(rest, 0), 0, rest);
      SpanSplit(from, 32 - frombit, rest);
      bitmap[mapidx + 1] := Or32(bitmap[mapidx + 1], Mask(rest, 0));
      assert bitmap[..] == w1[mapidx + 1 := Or32(w1[mapidx + 1], Mask(rest, 0))];
    } else {
      MaskIs(count, frombit);
      SetWord(w, mapidx, Mask(count, frombit), frombit, frombit + count);
      bitmap[mapidx] := Or32(bitmap[mapidx], Mask(count, frombit));
      assert bitmap[..] == w[mapidx := Or32(w[mapidx], Mask(count, frombit))];
    }
  }

  /** How many holes there are in `[from, to)`. */
  method CountBits(bitmap: array<u32>, from: nat, to: nat) returns (sum: nat)
    requires from <= to && to / U32BITS < bitmap.Length
    ensures sum == Count(Members(bitmap[..]), from, to)
  {
    hide IsMask, Mask, Members, Shl32, And32, Popcount, Count;
    ghost var w := bitmap[..];
    var startidx, startbit := from / U32BITS, from % U32BITS;
    var endidx, endbit := to / U32BITS, to % U32BITS;
    if startidx == endidx {
      MaskIs(endbit - startbit, startbit);
      CountMasked(w, startidx, Mask(endbit - startbit, startbit), startbit, endbit);
      return Popcount(And32(bitmap[startidx], Mask(endbit - startbit, startbit)));
    }
    MaxIs(startbit);
    CountMasked(w, startidx, Shl32(U32_MAX, startbit), startbit, 32);
    sum := Popcount(And32(bitmap[startidx], Shl32(U32_MAX, startbit)));
    MaskIs(endbit, 0);
    CountMasked(w, endidx, Mask(endbit, 0), 0, endbit);
    sum := sum + Popcount(And32(bitmap[endidx], Mask(endbit, 0)));
    ghost var first := 32 * (startidx + 1);
    CountSplit(Members(w), first, first, first);
    for idx := startidx + 1 to endidx
      invariant sum == Count(Members(w), from, first) + Count(Members(w), 32 * endidx, to) + Count(Members(w), first, 32 * idx)
    {
      CountWhole(w, idx);
      CountSplit(Members(w), first, 32 * idx, 32 * idx + 32);
      sum := sum + Popcount(bitmap[idx]);
    }
    CountSplit(Members(w), from, first, 32 * endidx);
    CountSplit(Members(w), from, 32 * endidx, to);
  }

  // ----- first pass -----

  /** A classic instruction and how many slots behind it were used up for it. */
  datatype Emitted = Emitted(f: Filter, ate: nat)

  /** The buffers and the returned value are what the folding function gives. */
  ghost predicate Agrees(r: Option<Emitted>, e: seq<Insn>, flags: seq<Flag>, spec: Option<Folded>) {
    match (r, spec)
    case (Some(x), Some(y)) => x.f == y.f && x.ate == y.ate && e == y.e && flags == y.flags
    case (None, None) => true
    case _ => false
  }

  /** Zeroed padding behind the first `len` instructions, as input from a file has. */
  predicate Padded(e: seq<Insn>, len: nat) {
    len + FLAG_SLACK <= |e| && forall x :: len <= x < |e| ==> e[x].code == 0
  }

  predicate IsAlu(code: bv16) {
    code & CLASS_MASK == ALU || code & CLASS_MASK == ALU64
  }

  /** Nothing stands behind the `len` instructions, as in what is taken from the kernel; folding
      stops at the EXIT that ends them, since AX is not loaded just before it. */
  predicate Closed(e: seq<Insn>, len: nat) {
    && PROLOGUE < len == |e| && e[len - 1].code == JMP_EXIT
    && (IsAlu(e[len - 2].code) ==> e[len - 2].dst != REG_AX)
  }

  /** Checked input that is padded or closed, and its flags. */
  ghost predicate Inputs(e: seq<Insn>, flags: seq<Flag>, len: nat) {
    && len <= |e| && |flags| == len + FLAG_SLACK
    && JumpsInRange(e, len)
    && (Padded(e, len) || Closed(e, len))
  }

  /** Only EXIT has nothing behind it. */
  lemma NextInside(e: seq<Insn>, flags: seq<Flag>, len: nat, j: nat)
    requires Inputs(e, flags, len) && j < |e| && j + 1 < len + FLAG_SLACK && e[j].code != JMP_EXIT
    ensures j + 1 < |e|
  {
  }

  /** Neither has a constant moved to AX an end before the instruction that uses it. */
  lemma BlindedInside(e: seq<Insn>, flags: seq<Flag>, len: nat, i: nat)
    requires Inputs(e, flags, len) && i < len && IsAlu(e[i].code) && e[i].dst == REG_AX
    ensures i + 2 < |e|
  {
    assert !IsAlu(JMP_EXIT);
  }

  lemma NotJumpNoExit(code: bv16)
    requires code & CLASS_MASK != JMP
    ensures code != JMP_EXIT
  {
  }

  lemma ReadsOn(e: seq<Insn>, flags: seq<Flag>, len: nat, j: nat)
    requires Inputs(e, flags, len) && j < len + 3
    ensures forall x :: j <= x < j + 6 && x < |e| && e[x].code != JMP_EXIT ==> x + 1 < |e|
  {
    hide JumpsInRange;
  }

  /** A jump is never in the padding, and its target is never outside. */
  lemma JumpInside(e: seq<Insn>, flags: seq<Flag>, len: nat, j: nat)
    requires Inputs(e, flags, len) && j < |e| && e[j].code & CLASS_MASK == JMP
    ensures j < len
    ensures e[j].code & OP_MASK != JMP_EXIT & OP_MASK ==> e[j].off >= 0 && j + 1 + e[j].off < len
  {
    assert (0 as bv16) & CLASS_MASK != JMP;
    assert j < len;
    assert e[j].code & OP_MASK != JMP_EXIT & OP_MASK ==> IsJumpClass(e[j].code);
  }

  method MarkTarget(flags: array<Flag>, x: nat)
    requires x < flags.Length
    modifies flags
    ensures flags[..] == Mark(old(flags[..]), x)
  {
    flags[x] := flags[x].(targeted := true);
  }

  predicate IsPlainJump(op: bv16) {
    op != JMP_EXIT & OP_MASK && op != JMP_JA & OP_MASK
  }

  /** FoldJump, branch by branch. */
  lemma FoldJumpTwo(e: seq<Insn>, i: nat, j: nat, largeK: u32, ate: nat, flags: seq<Flag>)
    requires j == i + FlagAt(flags, i).fold && IsPlainJump(At(e, j).code & OP_MASK) && !IsSingleOp(At(e, j).code & OP_MASK)
    requires At(e, j + 1).code == JMP_JA && !FlagAt(Mark(flags, Target(e, j)), j + 1).targeted
    ensures FoldJump(e, i, largeK, ate, flags)
         == Some(Folded(Filter(JumpCode(At(e, j), largeK), 1, 1, JumpK(At(e, j), largeK)), ate + 1, e,
                        Mark(Mark(flags, Target(e, j)), Target(e, j + 1))))
  {
  }

  lemma FoldJumpOne(e: seq<Insn>, i: nat, j: nat, largeK: u32, ate: nat, flags: seq<Flag>)
    requires j == i + FlagAt(flags, i).fold && IsPlainJump(At(e, j).code & OP_MASK)
    requires At(e, j + 1).code != JMP_JA || FlagAt(Mark(flags, Target(e, j)), j + 1).targeted
             || IsSingleOp(At(e, j).code & OP_MASK)
    ensures FoldJump(e, i, largeK, ate, flags)
         == match SingleArm(At(e, j).code & OP_MASK, JumpCode(At(e, j), largeK), JumpK(At(e, j), largeK))
            case None => None
            case Some(f) => Some(Folded(f, ate, e, Mark(flags, Target(e, j))))
  {
    hide SingleArm;
  }

  lemma FoldJumpUnconditional(e: seq<Insn>, i: nat, j: nat, largeK: u32, ate: nat, flags: seq<Flag>)
    requires j == i + FlagAt(flags, i).fold && !IsPlainJump(At(e, j).code & OP_MASK)
    ensures FoldJump(e, i, largeK, ate, flags)
         == Some(if At(e, j).code & OP_MASK == JMP_EXIT & OP_MASK then Folded(Stmt(RET_A, 0), ate, e, flags)
                 else Folded(Stmt(JMP_JA, 1), ate, e, Mark(flags, i + At(e, j).off + 1)))
  {
  }

  /** jmp_insn on the path NOT_CHECK: the jump at `j`. */
  method JumpInsn(e: array<Insn>, flags: array<Flag>, ghost len: nat, i: nat, j: nat, largeK: u32, ate: nat)
    returns (r: Option<Emitted>)
    requires Inputs(e[..], flags[..], len) && i <= j < len && j == i + flags[i].fold
    requires e[j].code & CLASS_MASK == JMP
    modifies flags
    ensures Agrees(r, e[..], flags[..], FoldJump(e[..], i, largeK, ate, old(flags[..])))
  {
    hide FoldJump, SingleArm, JumpCode, JumpK;
    var op := e[j].code & OP_MASK;
    JumpInside(e[..], flags[..], len, j);
    if op == JMP_EXIT & OP_MASK {
      FoldJumpUnconditional(e[..], i, j, largeK, ate, flags[..]);
      r := Some(Emitted(Stmt(RET_A, 0), ate));
    } else if op == JMP_JA & OP_MASK {
      FoldJumpUnconditional(e[..], i, j, largeK, ate, flags[..]);
      MarkTarget(flags, i + e[j].off + 1);
      r := Some(Emitted(Stmt(JMP_JA, 1), ate));
    } else {
      r := JumpConditional(e, flags, len, i, j, largeK, ate);
    }
  }

  method JumpConditional(e: array<Insn>, flags: array<Flag>, ghost len: nat, i: nat, j: nat, largeK: u32, ate: nat)
    returns (r: Option<Emitted>)
    requires Inputs(e[..], flags[..], len) && i <= j < len && j == i + flags[i].fold
    requires e[j].code & CLASS_MASK == JMP && IsPlainJump(e[j].code & OP_MASK)
    modifies flags
    ensures Agrees(r, e[..], flags[..], FoldJump(e[..], i, largeK, ate, old(flags[..])))
  {
    hide FoldJump, SingleArm, JumpCode, JumpK, IsSingleOp, IsPlainJump;
    var op := e[j].code & OP_MASK;
    assert op != JMP_EXIT & OP_MASK by {
      PlainIsNoExit(op);
    }
    JumpInside(e[..], flags[..], len, j);
    var code, k := JumpCode(e[j], largeK), JumpK(e[j], largeK);
    ghost var before := flags[..];
    var to := j + e[j].off + 1;
    assert to == Target(e[..], j);
    MarkTarget(flags, to);
    NextInside(e[..], flags[..], len, j);
    assert FlagAt(flags[..], j + 1) == flags[j + 1] && At(e[..], j + 1) == e[j + 1];
    if e[j + 1].code == JMP_JA && !flags[j + 1].targeted && !IsSingleOp(op) {
      FoldJumpTwo(e[..], i, j, largeK, ate, before);
      JumpInside(e[..], flags[..], len, j + 1);
      var to' := j + 1 + e[j + 1].off + 1;
      assert to' == Target(e[..], j + 1) && to' < flags.Length;
      hide Inputs, Target, FlagAt, At;
      MarkTarget(flags, to');
      return Some(Emitted(Filter(code, 1, 1, k), ate + 1));
    }
    FoldJumpOne(e[..], i, j, largeK, ate, before);
    var single := SingleArm(op, code, k);
    r := if single.None? then None else Some(Emitted(single.value, ate));
  }

  lemma PlainIsNoExit(op: bv16)
    requires IsPlainJump(op)
    ensures op != JMP_EXIT & OP_MASK
  {
  }

  /** jmp_insn on the path CHECK_DIV_X. */
  method DivideX(e: array<Insn>, flags: array<Flag>, j: nat, ate: nat) returns (r: Option<Emitted>)
    requires forall x :: j <= x < j + 6 && x < e.Length && e[x].code != JMP_EXIT ==> x + 1 < e.Length
    requires j < e.Length && e[j].code != JMP_EXIT
    ensures Agrees(r, e[..], flags[..], FoldDivide(e[..], j, ate, flags[..]))
  {
    var x, eaten := j + 2, ate + 4;
    if e[j + 1].code != JMP | JNE {
      if e[j + 1].code != ALU64 | MOV || e[j + 2].code != ALU64 | XOR {
        return None;
      }
      if e[j + 3].code != JMP | JNE | SRC_X || e[j + 3].src != REG_AX {
        return None;
      }
      x, eaten := j + 4, ate + 6;
    }
    if e[x].code != ALU | XOR | SRC_X || e[x + 1].code != JMP_EXIT {
      return None;
    }
    return Some(Emitted(Stmt(ALU | DIV | SRC_X, 0), eaten));
  }

  /** The zeroed padding is class LD. */
  lemma PaddingClass(e: seq<Insn>, flags: seq<Flag>, len: nat, j: nat)
    requires Inputs(e, flags, len) && j < |e| && e[j].code & CLASS_MASK == JMP
    ensures j < len
  {
    assert (0 as bv16) & CLASS_MASK != JMP;
  }

  lemma FoldKeepsInputs(e: seq<Insn>, flags: seq<Flag>, len: nat, i: nat, n: nat)
    requires Inputs(e, flags, len)
    ensures Inputs(e, AddFold(flags, i, n), len)
  {
  }

  method AddFlagFold(flags: array<Flag>, i: nat, n: nat)
    requires i < flags.Length
    modifies flags
    ensures flags[..] == AddFold(old(flags[..]), i, n) && flags[i].fold == old(flags[i].fold) + n
  {
    flags[i] := flags[i].(fold := flags[i].fold + n);
  }

  /** jmp_insn on the path CHECK_CMP_LARGE_K. */
  method CompareLargeK(e: array<Insn>, flags: array<Flag>, ghost len: nat, i: nat, j: nat, ate: nat)
    returns (r: Option<Emitted>)
    requires Inputs(e[..], flags[..], len) && i < len && j == i + flags[i].fold && j + 1 < e.Length
    modifies flags
    ensures Agrees(r, e[..], flags[..], FoldLargeK(e[..], i, j, ate, old(flags[..])))
  {
    hide FoldJump, JumpsInRange;
    FoldKeepsInputs(e[..], flags[..], len, i, 1);
    AddFlagFold(flags, i, 1);
    if e[j + 1].code & CLASS_MASK != JMP {
      return None;
    }
    PaddingClass(e[..], flags[..], len, j + 1);
    r := JumpInsn(e, flags, len, i, j + 1, e[j].imm, ate + 1);
  }

  /** jmp_insn on the path CHECK_RET_K, and LD LEN in place of the length as a constant. */
  method MoveA(e: array<Insn>, flags: array<Flag>, i: nat, j: nat, ate: nat) returns (r: Emitted)
    requires j + 1 < e.Length && j + 1 < flags.Length
    ensures var spec := FoldMoveA(e[..], i, j, ate, flags[..]);
            r.f == spec.f && r.ate == spec.ate && spec.e == e[..] && spec.flags == flags[..]
  {
    var k := e[j].imm;
    if e[j + 1].code == JMP_EXIT && !flags[j + 1].targeted {
      return Emitted(Stmt(RET_K, k), ate + 1);
    }
    r := Emitted(Stmt(LD_IMM, k), ate);
    if r.f.k == DATA_LEN {
      r := Emitted(Stmt(LD_W_LEN, 0), ate);
    }
  }

  lemma ClearedCode(c: bv16)
    ensures IsJumpClass(c & !SRC_X) == IsJumpClass(c) && IsAlu(c & !SRC_X) == IsAlu(c)
    ensures c == JMP_EXIT ==> c & !SRC_X == JMP_EXIT
    ensures c == 0 ==> c & !SRC_X == 0
    ensures !IsJumpClass(ALU | MOV) && IsAlu(ALU | MOV)
  {
  }

  lemma SetKeepsInputs(e: seq<Insn>, flags: seq<Flag>, len: nat, i: nat, insn: Insn)
    requires Inputs(e, flags, len) && i < |e| && insn.off == e[i].off && insn.dst == e[i].dst
    requires IsJumpClass(insn.code) ==> IsJumpClass(e[i].code)
    requires IsAlu(insn.code) == IsAlu(e[i].code) && (e[i].code == JMP_EXIT ==> insn.code == JMP_EXIT)
    requires i >= len ==> insn.code == 0
    ensures Inputs(SetInsn(e, i, insn), flags, len)
  {
  }

  lemma UnblindKeepsInputs(e: seq<Insn>, flags: seq<Flag>, len: nat, i: nat)
    requires Inputs(e, flags, len)
    ensures Inputs(Unblind(e, i), flags, len)
  {
    if i + 2 < |e| {
      ClearedCode(e[i + 2].code);
      hide Inputs;
      assert i + 2 >= len ==> e[i + 2].code == 0 by {
        PaddingZero(e, flags, len, i + 2);
      }
      SetKeepsInputs(e, flags, len, i + 2, Unblind(e, i)[i + 2]);
    }
  }

  lemma PaddingZero(e: seq<Insn>, flags: seq<Flag>, len: nat, i: nat)
    requires Inputs(e, flags, len) && i < |e|
    ensures i >= len ==> e[i].code == 0
  {
  }

  /** alu_insn once a blinded constant is given back: the instruction at `j`. */
  method UnblindedInsn(e: array<Insn>, flags: array<Flag>, ghost len: nat, i: nat, j: nat, ate: nat)
    returns (r: Option<Emitted>)
    requires Inputs(e[..], flags[..], len) && i < len && j == i + ate == i + flags[i].fold && ate <= 2
    requires j < e.Length
    modifies flags
    ensures Agrees(r, e[..], flags[..], FoldUnblinded(e[..], i, ate, old(flags[..])))
  {
    hide FoldJump, FoldMove, JumpsInRange;
    var insn := e[j];
    if insn.code & CLASS_MASK == JMP {
      PaddingClass(e[..], flags[..], len, j);
      r := JumpInsn(e, flags, len, i, j, 0, ate);
    } else if insn.code & OP_MASK == MOV {
      r := MoveInsn(e, flags, len, i, j, ate);
    } else {
      r := Some(Emitted(Stmt(insn.code, insn.imm), ate));
    }
  }

  method MoveInsn(e: array<Insn>, flags: array<Flag>, ghost len: nat, i: nat, j: nat, ate: nat)
    returns (r: Option<Emitted>)
    requires Inputs(e[..], flags[..], len) && i < len && j == i + ate == i + flags[i].fold && ate <= 2
    requires j < e.Length && e[j].code & CLASS_MASK != JMP
    modifies flags
    ensures Agrees(r, e[..], flags[..], FoldMove(e[..], i, j, ate, old(flags[..])))
  {
    hide FoldJump, FoldDivide, FoldLargeK, FoldMoveA, JumpsInRange;
    var insn := e[j];
    NotJumpNoExit(insn.code);
    NextInside(e[..], flags[..], len, j);
    if insn.code & CLASS_MASK == ALU64 && insn.code & SRC_X == SRC_X && (insn.src == REG_X || insn.dst == REG_X) {
      r := Some(Emitted(Stmt(if insn.src == REG_A then MISC_TAX else MISC_TXA, 0), ate));
    } else if insn.dst == REG_A && insn.src == 0 {
      var m := MoveA(e, flags, i, j, ate);
      r := Some(m);
    } else if insn.dst == REG_X && insn.src == 0 {
      var m := Emitted(Stmt(LDX_IMM, insn.imm), ate);
      if m.f.k == DATA_LEN {
        m := Emitted(Stmt(LDX_W_LEN, 0), ate);
      }
      r := Some(m);
    } else if insn.dst == REG_X && insn.src == REG_X {
      ReadsOn(e[..], flags[..], len, j);
      r := DivideX(e, flags, j, ate);
    } else if insn.dst == REG_TMP && insn.src == 0 {
      r := CompareLargeK(e, flags, len, i, j, ate);
    } else {
      r := None;
    }
  }

  predicate LoadsAx(insn: Insn) {
    insn.code & OP_MASK == MOV && insn.dst == REG_AX
  }

  predicate Zeroes(insn: Insn) {
    insn.code & OP_MASK == XOR && insn.code & SRC_X == SRC_X && insn.src == insn.dst
  }

  function ZeroMove(insn: Insn): Insn {
    insn.(src := 0, code := ALU | MOV)
  }

  /** FoldAlu, branch by branch. */
  lemma FoldAluCases(e: seq<Insn>, i: nat, flags: seq<Flag>)
    ensures FoldAlu(e, i, flags)
         == if LoadsAx(At(e, i)) then FoldUnblinded(Unblind(e, i), i, 2, AddFold(flags, i, 2))
            else if Zeroes(At(e, i)) then FoldUnblinded(SetInsn(e, i, ZeroMove(At(e, i))), i, 0, flags)
            else FoldUnblinded(e, i, 0, flags)
  {
    hide FoldUnblinded, Unblind;
  }

  method UnblindInPlace(e: array<Insn>, i: nat)
    requires i + 2 < e.Length
    modifies e
    ensures e[..] == Unblind(old(e[..]), i)
  {
    e[i + 2] := e[i + 2].(imm := Xor32(e[i].imm, e[i + 1].imm), code := e[i + 2].code & !SRC_X, src := 0);
  }

  /** alu_insn: remove the blinding, in place, and fold what is behind it. */
  method AluInsn(e: array<Insn>, flags: array<Flag>, ghost len: nat, i: nat) returns (r: Option<Emitted>)
    requires Inputs(e[..], flags[..], len) && i < len && flags[i].fold == 0 && IsAlu(e[i].code)
    modifies e, flags
    ensures Agrees(r, e[..], flags[..], FoldAlu(old(e[..]), i, old(flags[..])))
  {
    hide FoldUnblinded, FoldAlu, Unblind, LoadsAx, Zeroes, Closed, Padded, JumpsInRange;
    var insn := e[i];
    ghost var before := e[..];
    FoldAluCases(e[..], i, flags[..]);
    if LoadsAx(insn) {
      BlindedInside(e[..], flags[..], len, i) by {
        LoadsAxWrites(insn);
      }
      UnblindKeepsInputs(e[..], flags[..], len, i);
      FoldKeepsInputs(Unblind(e[..], i), flags[..], len, i, 2);
      AddFlagFold(flags, i, 2);
      UnblindInPlace(e, i);
      r := UnblindedInsn(e, flags, len, i, i + 2, 2);
    } else if Zeroes(insn) {
      ZeroKeepsInputs(e[..], flags[..], len, i);
      e[i] := ZeroMove(insn);
      assert e[..] == SetInsn(before, i, ZeroMove(insn));
      r := UnblindedInsn(e, flags, len, i, i, 0);
    } else {
      r := UnblindedInsn(e, flags, len, i, i, 0);
    }
  }

  lemma LoadsAxWrites(insn: Insn)
    requires LoadsAx(insn)
    ensures insn.dst == REG_AX
  {
  }

  lemma ZeroKeepsInputs(e: seq<Insn>, flags: seq<Flag>, len: nat, i: nat)
    requires Inputs(e, flags, len) && i < len && IsAlu(e[i].code)
    ensures Inputs(SetInsn(e, i, ZeroMove(e[i])), flags, len)
  {
    ClearedCode(0);
    AluIsNoExit(e[i].code);
    SetKeepsInputs(e, flags, len, i, ZeroMove(e[i]));
  }

  method GroupInsn(e: array<Insn>, flags: array<Flag>, ghost len: nat, i: nat) returns (r: Option<Emitted>)
    requires Inputs(e[..], flags[..], len) && i < len && flags[i].fold == 0
    modifies e, flags
    ensures Agrees(r, e[..], flags[..], FoldGroup(old(e[..]), i, old(flags[..])))
  {
    hide FoldAlu, FoldJump, JumpsInRange;
    var insn := e[i];
    var cls := insn.code & CLASS_MASK;
    if cls == LDX_W & CLASS_MASK {
      if insn.src == REG_CTX {
        r := Some(Emitted(Stmt(LD_W_ABS, Wrap32(insn.off)), 0));
      } else if insn.src == REG_FP {
        r := Some(Emitted(Stmt(if insn.dst == REG_A then LD_MEM else LDX_MEM, ScratchIndex(insn.off)), 0));
      } else {
        r := None;
      }
    } else if cls == STX_W & CLASS_MASK {
      r := Some(Emitted(Stmt(if insn.src == REG_A then ST else STX, ScratchIndex(insn.off)), 0));
    } else if cls == ALU || cls == ALU64 {
      r := AluInsn(e, flags, len, i);
    } else if cls == JMP {
      r := JumpInsn(e, flags, len, i, i, 0, 0);
    } else {
      r := None;
    }
  }

  /** What folding the group at `i` can change: nothing of the eBPF code but the group itself,
      no fold counts but that of slot `i`. */
  predicate FoldsOnly(e: seq<Insn>, i: nat, flags: seq<Flag>, r: Folded) {
    && (r.e == e || r.e == Unblind(e, i) 
        || (IsAlu(At(e, i).code) && r.e == SetInsn(e, i, ZeroMove(At(e, i)))))
    && |r.flags| == |flags|
    && forall x :: 0 <= x < |flags| && x != i ==> r.flags[x].fold == flags[x].fold
  }

  lemma JumpFoldsOnly(e: seq<Insn>, i: nat, largeK: u32, ate: nat, flags: seq<Flag>)
    ensures var r := FoldJump(e, i, largeK, ate, flags);
            r.Some? ==> r.value.e == e && forall x :: 0 <= x < |flags| ==> r.value.flags[x].fold == flags[x].fold
  {
    hide SingleArm, JumpCode, JumpK;
  }

  lemma UnblindedFoldsOnly(e: seq<Insn>, i: nat, ate: nat, flags: seq<Flag>)
    ensures var r := FoldUnblinded(e, i, ate, flags);
            r.Some? ==> r.value.e == e && forall x :: 0 <= x < |flags| && x != i ==> r.value.flags[x].fold == flags[x].fold
  {
    hide FoldJump;
    JumpFoldsOnly(e, i, 0, ate, flags);
    JumpFoldsOnly(e, i, At(e, i + ate).imm, ate + 1, AddFold(flags, i, 1));
  }

  lemma GroupFoldsOnly(e: seq<Insn>, i: nat, flags: seq<Flag>)
    ensures FoldGroup(e, i, flags).Some? ==> FoldsOnly(e, i, flags, FoldGroup(e, i, flags).value)
  {
    hide FoldUnblinded, FoldJump, Unblind;
    UnblindedFoldsOnly(Unblind(e, i), i, 2, AddFold(flags, i, 2));
    UnblindedFoldsOnly(SetInsn(e, i, ZeroMove(At(e, i))), i, 0, flags);
    UnblindedFoldsOnly(e, i, 0, flags);
    JumpFoldsOnly(e, i, 0, 0, flags);
  }

  lemma GroupKeepsInputs(e: seq<Insn>, flags: seq<Flag>, len: nat, i: nat, r: Folded)
    requires Inputs(e, flags, len) && i < len && FoldsOnly(e, i, flags, r)
    ensures Inputs(r.e, r.flags, len)
  {
    UnblindKeepsInputs(e, flags, len, i);
    if IsAlu(e[i].code) {
      ZeroKeepsInputs(e, flags, len, i);
    }
  }

  lemma AluIsNoExit(code: bv16)
    requires IsAlu(code)
    ensures code != JMP_EXIT
  {
  }

  // ----- what the second pass may rely on, whatever the input -----

  /** A jump in slot `i` knows where its eBPF jumps are, and they stay inside. */
  predicate SlotSafe(e: seq<Insn>, flags: seq<Flag>, len: nat, i: nat, f: Filter) {
    f.code & CLASS_MASK == JMP ==>
      var x := i + FlagAt(flags, i).fold;
      && x < len && At(e, x).off >= 0 && x + 1 + At(e, x).off < len
      && (f.jt != 0 && f.jf != 0 ==>
            x + 1 < len && At(e, x + 1).off >= 0 && x + 2 + At(e, x + 1).off < len)
  }

  predicate SameOffs(e: seq<Insn>, e': seq<Insn>) {
    |e| == |e'| && forall x :: 0 <= x < |e| ==> e'[x].off == e[x].off
  }

  lemma FoldsKeepOffs(e: seq<Insn>, i: nat, flags: seq<Flag>, r: Folded)
    requires FoldsOnly(e, i, flags, r)
    ensures SameOffs(e, r.e)
  {
  }

  lemma JumpSlotSafe(e: seq<Insn>, i: nat, largeK: u32, ate: nat, flags: seq<Flag>, len: nat)
    requires Inputs(e, flags, len) && i < len
    requires var j := i + FlagAt(flags, i).fold; j < |e| && e[j].code & CLASS_MASK == JMP
    ensures var r := FoldJump(e, i, largeK, ate, flags);
            r.Some? ==> SlotSafe(e, r.value.flags, len, i, r.value.f)
  {
    var j := i + FlagAt(flags, i).fold;
    JumpInside(e, flags, len, j);
    JumpFoldsOnly(e, i, largeK, ate, flags);
    if j + 1 < |e| && e[j + 1].code == JMP_JA {
      JumpInside(e, flags, len, j + 1);
    }
    hide Inputs, SingleArm, JumpCode, JumpK;
    SingleHasOneArm(e[j].code & OP_MASK, JumpCode(e[j], largeK), JumpK(e[j], largeK));
  }

  lemma SingleHasOneArm(op: bv16, code: bv16, k: u32)
    ensures SingleArm(op, code, k).Some? ==> SingleArm(op, code, k).value.jt == 0 || SingleArm(op, code, k).value.jf == 0
  {
  }

  lemma UnblindedSlotSafe(e: seq<Insn>, i: nat, ate: nat, flags: seq<Flag>, len: nat)
    requires Inputs(e, flags, len) && i < len && flags[i].fold == ate <= 2
    ensures var r := FoldUnblinded(e, i, ate, flags);
            r.Some? ==> SlotSafe(r.value.e, r.value.flags, len, i, r.value.f)
  {
    hide FoldJump, Inputs, SlotSafe;
    assert |e| >= len && |flags| == len + FLAG_SLACK by {
      InputSizes(e, flags, len);
    }
    var j := i + ate;
    if At(e, j).code & CLASS_MASK == JMP {
      JumpSlotSafe(e, i, 0, ate, flags, len);
      JumpFoldsOnly(e, i, 0, ate, flags);
    } else {
      MovedSlotSafe(e, i, ate, flags, len);
    }
  }

  lemma InputSizes(e: seq<Insn>, flags: seq<Flag>, len: nat)
    requires Inputs(e, flags, len)
    ensures |e| >= len && |flags| == len + FLAG_SLACK
  {
  }

  /** A move is folded into a jump only with the comparison behind it. */
  lemma MoveJumps(e: seq<Insn>, i: nat, j: nat, ate: nat, flags: seq<Flag>)
    ensures var r := FoldMove(e, i, j, ate, flags);
            r.Some? && r.value.f.code & CLASS_MASK == JMP ==> r == FoldLargeK(e, i, j, ate, flags)
  {
    hide FoldLargeK;
  }

  lemma LargeKJumps(e: seq<Insn>, i: nat, j: nat, ate: nat, flags: seq<Flag>)
    ensures FoldLargeK(e, i, j, ate, flags)
         == if At(e, j + 1).code & CLASS_MASK != JMP then None
            else FoldJump(e, i, At(e, j).imm, ate + 1, AddFold(flags, i, 1))
  {
    hide FoldJump;
  }

  lemma MovedSlotSafe(e: seq<Insn>, i: nat, ate: nat, flags: seq<Flag>, len: nat)
    requires Inputs(e, flags, len) && i < len && flags[i].fold == ate <= 2
    requires At(e, i + ate).code & CLASS_MASK != JMP
    ensures var r := FoldUnblinded(e, i, ate, flags);
            r.Some? ==> SlotSafe(r.value.e, r.value.flags, len, i, r.value.f)
  {
    hide FoldJump, FoldMove, FoldLargeK, Inputs;
    var j := i + ate;
    InputSizes(e, flags, len);
    MoveJumps(e, i, j, ate, flags);
    LargeKJumps(e, i, j, ate, flags);
    if At(e, j + 1).code & CLASS_MASK == JMP {
      FoldKeepsInputs(e, flags, len, i, 1);
      JumpSlotSafe(e, i, At(e, j).imm, ate + 1, AddFold(flags, i, 1), len);
      JumpFoldsOnly(e, i, At(e, j).imm, ate + 1, AddFold(flags, i, 1));
    }
  }

  lemma GroupSlotSafe(e: seq<Insn>, flags: seq<Flag>, len: nat, i: nat)
    requires Inputs(e, flags, len) && i < len && flags[i].fold == 0
    ensures var r := FoldGroup(e, i, flags);
            r.Some? ==> SlotSafe(r.value.e, r.value.flags, len, i, r.value.f)
  {
    hide FoldJump, FoldUnblinded, JumpsInRange;
    UnblindKeepsInputs(e, flags, len, i);
    FoldKeepsInputs(Unblind(e, i), flags, len, i, 2);
    UnblindedSlotSafe(Unblind(e, i), i, 2, AddFold(flags, i, 2), len);
    if IsAlu(e[i].code) {
      ZeroKeepsInputs(e, flags, len, i);
      UnblindedSlotSafe(SetInsn(e, i, ZeroMove(e[i])), i, 0, flags, len);
    }
    UnblindedSlotSafe(e, i, 0, flags, len);
    if e[i].code & CLASS_MASK == JMP {
      JumpSlotSafe(e, i, 0, 0, flags, len);
      JumpFoldsOnly(e, i, 0, 0, flags);
    }
  }

  ghost function Now(e: array<Insn>, flags: array<Flag>, cbpf: array<Filter>, bitmap: array<u32>): Buffers
    reads e, flags, cbpf, bitmap
  {
    Buffers(e[..], flags[..], cbpf[..], Members(bitmap[..]))
  }

  /** All jumps in the slots below `i` are safe to relocate. */
  ghost predicate AllSafe(b: Buffers, len: nat, i: nat) {
    forall x :: PROLOGUE <= x < i && x < len && x < |b.c| && x !in b.holes ==> SlotSafe(b.e, b.flags, len, x, b.c[x])
  }

  lemma PutsSafe(b: Buffers, len: nat, i: nat, r: Folded)
    requires Inputs(b.e, b.flags, len) && i < len <= |b.c| && b.flags[i].fold == 0
    requires FoldGroup(b.e, i, b.flags) == Some(r) && AllSafe(b, len, i)
    ensures AllSafe(Put(b, i, r), len, i + r.ate + 1)
  {
    hide FoldGroup, Inputs, SlotSafe;
    GroupSlotSafe(b.e, b.flags, len, i);
    GroupFoldsOnly(b.e, i, b.flags);
    FoldsKeepOffs(b.e, i, b.flags, r);
    var b', n := Put(b, i, r), i + r.ate + 1;
    forall x | PROLOGUE <= x < n && x < len && x !in b'.holes ensures SlotSafe(b'.e, b'.flags, len, x, b'.c[x]) {
      if x < i {
        SlotSafeFrame(b.e, b'.e, b.flags, b'.flags, len, x, b.c[x]);
      } else {
        assert x == i;
      }
    }
  }

  lemma SlotSafeFrame(e: seq<Insn>, e': seq<Insn>, flags: seq<Flag>, flags': seq<Flag>, len: nat, x: nat, f: Filter)
    requires SlotSafe(e, flags, len, x, f) && SameOffs(e, e') && FlagAt(flags, x).fold == FlagAt(flags', x).fold
    ensures SlotSafe(e', flags', len, x, f)
  {
    assert forall y: nat :: At(e', y).off == At(e, y).off;
  }

  /** The group at `i`, put into its slot; how many slots behind it are used up. */
  method FoldSlot(e: array<Insn>, flags: array<Flag>, cbpf: array<Filter>, bitmap: array<u32>, ghost len: nat, i: nat)
    returns (ate: Option<nat>)
    requires Inputs(e[..], flags[..], len) && i < len <= cbpf.Length && bitmap.Length == len / U32BITS + 2
    requires flags[i].fold == 0
    modifies e, flags, cbpf, bitmap
    ensures var b := old(Now(e, flags, cbpf, bitmap));
            match FoldGroup(b.e, i, b.flags)
            case None => ate.None?
            case Some(r) => ate == Some(r.ate) && Now(e, flags, cbpf, bitmap) == Put(b, i, r)
  {
    hide FoldGroup, Members, Span, Inputs;
    ghost var b := Now(e, flags, cbpf, bitmap);
    var r := GroupInsn(e, flags, len, i);
    if r.None? {
      return None;
    }
    cbpf[i] := r.value.f;
    SetBits(bitmap, i + 1, r.value.ate);
    return Some(r.value.ate);
  }

  /** First pass: fold eBPF instructions to classic ones. */
  method FirstPass(e: array<Insn>, flags: array<Flag>, cbpf: array<Filter>, bitmap: array<u32>, len: nat) returns (ok: bool)
    requires Inputs(e[..], flags[..], len) && len <= cbpf.Length && bitmap.Length == len / U32BITS + 2
    requires forall x :: 0 <= x < flags.Length ==> flags[x].fold == 0
    modifies e, flags, cbpf, bitmap
    ensures old(FoldPass(Now(e, flags, cbpf, bitmap), PROLOGUE, len))
         == if ok then Some(Now(e, flags, cbpf, bitmap)) else None
    ensures ok ==> AllSafe(Now(e, flags, cbpf, bitmap), len, len) && flags.Length == len + FLAG_SLACK
  {
    hide FoldGroup, SlotSafe, Members, Span, JumpsInRange, Inputs, AllSafe, FoldsOnly;
    assert AllSafe(Now(e, flags, cbpf, bitmap), len, PROLOGUE) by {
      NothingFolded(Now(e, flags, cbpf, bitmap), len);
    }
    InputSizes(e[..], flags[..], len);
    var i := PROLOGUE;
    while i < len
      invariant PROLOGUE <= i && Inputs(e[..], flags[..], len)
      invariant forall x :: i <= x < flags.Length ==> flags[x].fold == 0
      invariant FoldPass(Now(e, flags, cbpf, bitmap), i, len) == old(FoldPass(Now(e, flags, cbpf, bitmap), PROLOGUE, len))
      invariant AllSafe(Now(e, flags, cbpf, bitmap), len, i)
      decreases len - i
    {
      ghost var b := Now(e, flags, cbpf, bitmap);
      var ate := FoldSlot(e, flags, cbpf, bitmap, len, i);
      if ate.None? {
        return false;
      }
      ghost var spec := FoldGroup(b.e, i, b.flags).value;
      GroupKeeps(b.e, b.flags, len, i, spec);
      PutsSafe(b, len, i, spec);
      i := i + ate.value + 1;
    }
    assert AllSafe(Now(e, flags, cbpf, bitmap), len, len) by {
      AllFolded(Now(e, flags, cbpf, bitmap), len, i);
    }
    return true;
  }

  lemma GroupKeeps(e: seq<Insn>, flags: seq<Flag>, len: nat, i: nat, r: Folded)
    requires Inputs(e, flags, len) && i < len && FoldGroup(e, i, flags) == Some(r)
    ensures Inputs(r.e, r.flags, len) && |r.flags| == |flags|
    ensures forall x :: i < x < |flags| ==> r.flags[x].fold == flags[x].fold
  {
    hide FoldGroup, Inputs;
    GroupFoldsOnly(e, i, flags);
    GroupKeepsInputs(e, flags, len, i, r);
  }

  lemma NothingFolded(b: Buffers, len: nat)
    ensures AllSafe(b, len, PROLOGUE)
  {
  }

  lemma AllFolded(b: Buffers, len: nat, i: nat)
    requires AllSafe(b, len, i) && len <= i
    ensures AllSafe(b, len, len)
  {
    hide SlotSafe;
  }

  // ----- second pass -----

  /** The live slots between slot `i` and where the eBPF jump at `x` leads. */
  method CountNear(e: array<Insn>, flags: array<Flag>, bitmap: array<u32>, ghost b: Buffers, len: nat, i: nat)
    returns (near: int)
    requires i < len <= e.Length && len <= flags.Length && bitmap.Length == len / U32BITS + 2
    requires b.e == e[..] && b.flags == flags[..]
    requires var x := i + flags[i].fold; x < len && e[x].off >= 0 && x + 1 + e[x].off < len
    ensures near == NearSlots(b, Members(bitmap[..]), i)
  {
    var x := i + flags[i].fold;
    assert At(b.e, x) == e[x];
    var patch := CountBits(bitmap, i, x + 1 + e[x].off);
    near := e[x].off - patch + flags[i].fold;
  }

  /** A jump with two arms in slot `i`. */
  method RelocateBoth(e: array<Insn>, flags: array<Flag>, cbpf: array<Filter>, bitmap: array<u32>, len: nat, i: nat)
    requires i < len <= cbpf.Length && len <= e.Length && len <= flags.Length && bitmap.Length == len / U32BITS + 2
    requires SlotSafe(e[..], flags[..], len, i, cbpf[i]) && cbpf[i].code & CLASS_MASK == JMP
    requires cbpf[i].jt != 0 && cbpf[i].jf != 0
    modifies cbpf, bitmap
    ensures Now(e, flags, cbpf, bitmap) == old(RelocateTwo(Now(e, flags, cbpf, bitmap), i))
  {
    hide Members, NearSlots, Count;
    ghost var b := Now(e, flags, cbpf, bitmap);
    var f := cbpf[i];
    var ja := i + flags[i].fold + 1;
    assert At(b.e, ja - 1) == e[ja - 1] && At(b.e, ja) == e[ja];
    var patch := CountBits(bitmap, ja, ja + e[ja].off + 1);
    var far := Wrap32(e[ja].off - patch + 1);
    assert far == FarSlots(b, i);
    hide FarSlots;
    if far > 255 {
      f := f.(jf := 0);
      ClearBit(bitmap, ja);
      cbpf[ja] := Stmt(JMP_JA, far);
    } else {
      f := f.(jf := Wrap8(far));
    }
    var near := CountNear(e, flags, bitmap, b, len, i);
    cbpf[i] := f.(jt := Wrap8(near));
  }

  method ClearBit(bitmap: array<u32>, x: nat)
    requires x / U32BITS < bitmap.Length
    modifies bitmap
    ensures Members(bitmap[..]) == old(Members(bitmap[..])) - {x}
  {
    ghost var w := bitmap[..];
    ClearWord(w, x);
    bitmap[x / U32BITS] := And32(bitmap[x / U32BITS], Not32(Shl32(1, x % U32BITS)));
    assert bitmap[..] == w[x / U32BITS := And32(w[x / U32BITS], Not32(Shl32(1, x % U32BITS)))];
  }

  /** A jump with one arm, or a JA, in slot `i`. */
  method RelocateSingle(e: array<Insn>, flags: array<Flag>, cbpf: array<Filter>, bitmap: array<u32>, len: nat, i: nat)
    requires i < len <= cbpf.Length && len <= e.Length && len <= flags.Length && bitmap.Length == len / U32BITS + 2
    requires SlotSafe(e[..], flags[..], len, i, cbpf[i]) && cbpf[i].code & CLASS_MASK == JMP
    modifies cbpf
    ensures Now(e, flags, cbpf, bitmap) == old(RelocateOne(Now(e, flags, cbpf, bitmap), i))
  {
    hide Members, NearSlots, Count;
    ghost var b := Now(e, flags, cbpf, bitmap);
    var f := cbpf[i];
    var x := i + flags[i].fold;
    assert At(b.e, x) == e[x] && FlagAt(b.flags, i) == flags[i];
    var near := CountNear(e, flags, bitmap, b, len, i);
    hide SlotSafe;
    var patch := CountBits(bitmap, i, i + 1 + e[x].off);
    var k := Wrap32(e[x].off - patch);
    f := if f.jt != 0 then f.(jt := Wrap8(near)) else if f.jf != 0 then f.(jf := Wrap8(near)) else f.(k := k);
    cbpf[i] := f;
  }

  /** The jump in slot `i`, which is no hole. */
  method RelocateSlot(e: array<Insn>, flags: array<Flag>, cbpf: array<Filter>, bitmap: array<u32>, len: nat, i: nat)
    requires i < len <= cbpf.Length && len <= e.Length && len <= flags.Length && bitmap.Length == len / U32BITS + 2
    requires SlotSafe(e[..], flags[..], len, i, cbpf[i]) && i !in Members(bitmap[..])
    modifies cbpf, bitmap
    ensures Now(e, flags, cbpf, bitmap) == old(RelocateAt(Now(e, flags, cbpf, bitmap), i))
  {
    hide Members, RelocateTwo, RelocateOne, SlotSafe;
    var f := cbpf[i];
    if f.code & CLASS_MASK != JMP {
      return;
    }
    if f.jt != 0 && f.jf != 0 {
      RelocateBoth(e, flags, cbpf, bitmap, len, i);
    } else {
      RelocateSingle(e, flags, cbpf, bitmap, len, i);
    }
  }

  /** Relocating slot `i` leaves lower slots safe and their holes alone. */
  lemma RelocatesBehind(b: Buffers, len: nat, i: nat)
    requires AllSafe(b, len, i + 1) && i < len
    ensures AllSafe(RelocateAt(b, i), len, i)
    ensures forall x: nat :: x <= i ==> (x in RelocateAt(b, i).holes) == (x in b.holes)
  {
    hide SlotSafe, NearSlots, FarSlots;
  }

  lemma {:induction false} WalkStep(x: nat)
    requires x > 0
    ensures Pow2(x % U32BITS) / 2 == if x % U32BITS == 0 then 0 else Pow2((x - 1) % U32BITS)
    ensures x % U32BITS == 0 ==> (x - 1) / U32BITS == x / U32BITS - 1 && (x - 1) % U32BITS == U32BITS - 1
    ensures x % U32BITS != 0 ==> (x - 1) / U32BITS == x / U32BITS
  {
  }

  /** The word that is looked at: its bits up to `x` are those of the set. */
  ghost predicate Mirrors(bitset: u32, holes: set<nat>, x: nat) {
    forall b :: 0 <= b <= x % U32BITS ==> Bit(bitset, b) == (U32BITS * (x / U32BITS) + b in holes)
  }

  lemma MirrorsWord(w: seq<u32>, x: nat)
    requires x / U32BITS < |w|
    ensures Mirrors(w[x / U32BITS], Members(w), x)
  {
    forall b | 0 <= b <= x % U32BITS
      ensures Bit(w[x / U32BITS], b) == (U32BITS * (x / U32BITS) + b in Members(w))
    {
      var y := U32BITS * (x / U32BITS) + b;
      assert y / U32BITS == x / U32BITS && y % U32BITS == b;
      assert HasBit(w, y) == Bit(w[x / U32BITS], b);
    }
  }

  lemma MirrorsLower(bitset: u32, holes: set<nat>, holes': set<nat>, x: nat)
    requires Mirrors(bitset, holes, x) && x % U32BITS != 0
    requires forall y: nat :: y < x ==> (y in holes) == (y in holes')
    ensures Mirrors(bitset, holes', x - 1)
  {
    WalkStep(x);
  }

  lemma {:induction false} MirrorsTest(bitset: u32, holes: set<nat>, x: nat)
    requires Mirrors(bitset, holes, x)
    ensures Pow2(x % U32BITS) < U32
    ensures (And32(bitset, Pow2(x % U32BITS)) != 0) == (x in holes)
  {
    Pow2Is32();
    Pow2Monotone(x % U32BITS, 32);
    AndPow2(bitset, x % U32BITS);
    assert U32BITS * (x / U32BITS) + x % U32BITS == x;
  }

  /** The place of the next lower bit; a new word is loaded when the mask runs out. */
  method PreviousBit(bitmap: array<u32>, i: nat, mapidx: nat, bitmask: u32, bitset: u32)
    returns (mapidx': nat, bitmask': u32, bitset': u32)
    requires i > 0 && i / U32BITS < bitmap.Length
    requires mapidx == i / U32BITS && bitmask == Pow2(i % U32BITS) && Mirrors(bitset, Members(bitmap[..]), i)
    ensures mapidx' == (i - 1) / U32BITS && bitmask' == Pow2((i - 1) % U32BITS)
    ensures Mirrors(bitset', Members(bitmap[..]), i - 1)
  {
    hide Members, Mirrors;
    WalkStep(i);
    mapidx', bitmask', bitset' := mapidx, bitmask / 2, bitset;
    if bitmask' == 0 {
      mapidx' := mapidx - 1;
      bitset' := bitmap[mapidx'];
      ShlPow2(0, U32BITS - 1);
      bitmask' := Shl32(1, U32BITS - 1);
      MirrorsWord(bitmap[..], i - 1);
    } else {
      MirrorsLower(bitset, Members(bitmap[..]), Members(bitmap[..]), i);
    }
  }

  /** Second pass: relocate jumps backwards, with the word of the bitmap at hand in `bitset`. */
  method SecondPass(e: array<Insn>, flags: array<Flag>, cbpf: array<Filter>, bitmap: array<u32>, len: nat)
    requires PROLOGUE <= len <= cbpf.Length && len <= e.Length && len <= flags.Length
    requires bitmap.Length == len / U32BITS + 2
    requires AllSafe(Now(e, flags, cbpf, bitmap), len, len)
    modifies cbpf, bitmap
    ensures Now(e, flags, cbpf, bitmap) == old(RelocatePass(Now(e, flags, cbpf, bitmap), len - 1))
  {
    hide Members, Mirrors, RelocateAt, SlotSafe, AllSafe, And32, RelocatePass, Pow2;
    var mapidx := (len - 1) / U32BITS;
    FirstMask();
    ShlPow2(0, (len - 1) % U32BITS);
    var bitmask: u32 := Shl32(1, (len - 1) % U32BITS);
    var bitset := bitmap[mapidx];
    MirrorsWord(bitmap[..], len - 1);
    var i := len - 1;
    while i > PROLOGUE - 1
      invariant PROLOGUE - 1 <= i < len
      invariant RelocatePass(Now(e, flags, cbpf, bitmap), i) == old(RelocatePass(Now(e, flags, cbpf, bitmap), len - 1))
      invariant AllSafe(Now(e, flags, cbpf, bitmap), len, i + 1)
      invariant mapidx == i / U32BITS && bitmask == Pow2(i % U32BITS)
      invariant Mirrors(bitset, Members(bitmap[..]), i)
    {
      ghost var b := Now(e, flags, cbpf, bitmap);
      MirrorsTest(bitset, b.holes, i);
      var deleted := And32(bitset, bitmask) != 0;
      mapidx, bitmask, bitset := PreviousBit(bitmap, i, mapidx, bitmask, bitset);
      RelocatesBehind(b, len, i);
      PassStep(b, i);
      if !deleted {
        assert SlotSafe(e[..], flags[..], len, i, cbpf[i]) by {
          SafeAt(b, len, i);
        }
        RelocateSlot(e, flags, cbpf, bitmap, len, i);
      } else {
        SkipsDeleted(b, i);
      }
      MirrorsSame(bitset, b.holes, Members(bitmap[..]), i - 1);
      i := i - 1;
    }
    PassEnd(Now(e, flags, cbpf, bitmap));
  }

  lemma {:induction false} PassStep(b: Buffers, i: nat)
    requires i >= PROLOGUE
    ensures RelocatePass(b, i) == RelocatePass(RelocateAt(b, i), i as int - 1)
  {
  }

  lemma {:induction false} PassEnd(b: Buffers)
    ensures RelocatePass(b, PROLOGUE - 1) == b
  {
  }

  lemma SafeAt(b: Buffers, len: nat, i: nat)
    requires AllSafe(b, len, i + 1) && PROLOGUE <= i < len <= |b.c| && i !in b.holes
    ensures SlotSafe(b.e, b.flags, len, i, b.c[i])
  {
    hide SlotSafe;
  }

  lemma SkipsDeleted(b: Buffers, i: nat)
    requires i in b.holes
    ensures RelocateAt(b, i) == b
  {
  }

  lemma MirrorsSame(bitset: u32, holes: set<nat>, holes': set<nat>, x: nat)
    requires Mirrors(bitset, holes, x) && forall y: nat :: y <= x ==> (y in holes) == (y in holes')
    ensures Mirrors(bitset, holes', x)
  {
  }

  // ----- third pass -----

  /** Third pass: move the slots that are no holes to the front. */
  method ThirdPass(cbpf: array<Filter>, bitmap: array<u32>, len: nat) returns (n: nat)
    requires PROLOGUE <= len <= cbpf.Length && bitmap.Length == len / U32BITS + 2
    modifies cbpf
    ensures n <= len && cbpf[..n] == old(Compress(cbpf[..], Members(bitmap[..]), PROLOGUE, len))
  {
    hide Members, Mirrors, And32, Compress, Pow2;
    FirstMask();
    ghost var c, holes := cbpf[..], Members(bitmap[..]);
    var mapidx, bitmask: u32 := 0, 8;
    var bitset := bitmap[mapidx];
    var wp, rp := 0, PROLOGUE;
    assert cbpf[..wp] == [];
    while rp < len
      invariant 0 <= wp <= rp <= len
      invariant mapidx == rp / U32BITS && bitset == bitmap[mapidx] && bitmask == Pow2(rp % U32BITS)
      invariant cbpf[..wp] + Compress(c, holes, rp, len) == Compress(c, holes, PROLOGUE, len)
      invariant forall x :: rp <= x < len ==> cbpf[x] == c[x]
      decreases len - rp
    {
      TestBit(bitmap[..], rp, bitmask);
      CompressStep(c, holes, rp, len);
      ghost var done := cbpf[..wp];
      if And32(bitset, bitmask) == 0 {
        cbpf[wp] := cbpf[rp];
        wp := wp + 1;
        assert cbpf[..wp] == done + [c[rp]];
        assert cbpf[..wp] + Compress(c, holes, rp + 1, len) == done + ([c[rp]] + Compress(c, holes, rp + 1, len));
      } else {
        assert [] + Compress(c, holes, rp + 1, len) == Compress(c, holes, rp + 1, len);
      }
      NextPlace(rp);
      NextMask(rp % U32BITS);
      bitmask := (2 * bitmask) % U32;
      rp := rp + 1;
      if bitmask == 0 {
        mapidx := mapidx + 1;
        bitset := bitmap[mapidx];
        bitmask := 1;
      }
    }
    assert Compress(c, holes, len, len) == [] by {
      CompressEnd(c, holes, len);
    }
    return wp;
  }

  lemma CompressStep(c: seq<Filter>, holes: set<nat>, i: nat, len: nat)
    requires i < len <= |c|
    ensures Compress(c, holes, i, len) == (if i in holes then [] else [c[i]]) + Compress(c, holes, i + 1, len)
  {
  }

  lemma {:induction false} CompressEnd(c: seq<Filter>, holes: set<nat>, len: nat)
    requires len <= |c|
    ensures Compress(c, holes, len, len) == []
  {
  }

  lemma FirstMask()
    ensures Pow2(0) == 1 && Pow2(PROLOGUE) == 8 && PROLOGUE % U32BITS == PROLOGUE && PROLOGUE / U32BITS == 0
  {
  }

  /** The place of the next bit, in this word or the next one. */
  lemma NextPlace(x: nat)
    ensures (x + 1) % U32BITS == if x % U32BITS == 31 then 0 else x % U32BITS + 1
    ensures (x + 1) / U32BITS == if x % U32BITS == 31 then x / U32BITS + 1 else x / U32BITS
  {
  }

  /** Shifting the mask of bit `b` out of a word leaves nothing. */
  lemma NextMask(b: nat)
    requires b < U32BITS
    ensures Pow2(b) < U32 && (2 * Pow2(b)) % U32 == if b == 31 then 0 else Pow2(b + 1)
  {
    hide Pow2;
    Pow2Is32();
    DoublePow2(b);
    Pow2Monotone(b, 32);
    if b < 31 {
      Pow2Monotone(b + 1, 32);
    }
  }

  // ----- the whole -----

  /** PRE-PASS: check jump destinations from an untrusted source. */
  method JumpsOk(e: array<Insn>, len: nat) returns (ok: bool)
    requires len <= e.Length
    ensures ok == JumpsInRange(e[..], len)
  {
    for i := 0 to len
      invariant forall x :: 0 <= x < i && IsJumpClass(e[x].code) ==> e[x].off >= 0 && x + 1 + e[x].off < len
    {
      if IsJumpClass(e[i].code) && !(e[i].off >= 0 && i + 1 + e[i].off < len) {
        assert e[..][i] == e[i];
        return false;
      }
    }
    return true;
  }

  method PrologueOk(e: array<Insn>) returns (ok: bool)
    requires e.Length >= PROLOGUE
    ensures ok == StartsOk(e[..])
  {
    ok := e[0].code & CLASS_MASK == ALU && e[0].code & OP_MASK == XOR
          && e[1].code & CLASS_MASK == ALU && e[1].code & OP_MASK == XOR
          && e[2].code & CLASS_MASK == ALU64 && e[2].code & OP_MASK == MOV;
  }

  lemma StartInside(e: seq<Insn>, len: nat)
    requires Padded(e, len) || Closed(e, len)
    ensures |e| >= PROLOGUE && (StartsOk(e) ==> len >= PROLOGUE)
  {
  }

  lemma StartInputs(e: seq<Insn>, flags: seq<Flag>, len: nat)
    requires len <= |e| && |flags| == len + FLAG_SLACK && JumpsInRange(e, len) && (Padded(e, len) || Closed(e, len))
    ensures Inputs(e, flags, len)
  {
  }

  /** Recovers the classic filter of the first `len` eBPF instructions, -1 if they are no
      migrated filter. Behind untrusted ones the caller leaves zeroed padding. */
  method Ebpf2Cbpf(e: array<Insn>, len: nat, cbpf: array<Filter>, trustful: bool) returns (n: int)
    requires len <= e.Length && len <= cbpf.Length && len < U32
    requires Padded(e[..], len) || (trustful && Closed(e[..], len))
    requires trustful ==> JumpsInRange(e[..], len)
    modifies e, cbpf
    ensures match old(Recover(e[..], len, cbpf[..]))
            case None => n == -1
            case Some(out) => 0 <= n <= len && cbpf[..n] == out
  {
    hide FoldPass, RelocatePass, Compress, Inputs, Members, Span, AllSafe, JumpsInRange, Padded, Closed, StartsOk;
    var ok := true;
    if !trustful {
      ok := JumpsOk(e, len);
      if !ok {
        return -1;
      }
    }
    StartInside(e[..], len);
    var starts := PrologueOk(e);
    if !starts {
      return -1;
    }
    var bitmap := new u32[len / U32BITS + 2](_ => 0);
    var flags := new Flag[len + FLAG_SLACK](_ => Flag(0, false));
    bitmap[0] := 7;
    PrologueHoles(bitmap[..]);
    assert flags[..] == seq(len + FLAG_SLACK, _ => Flag(0, false));
    StartInputs(e[..], flags[..], len);
    ok := FirstPass(e, flags, cbpf, bitmap, len);
    if !ok {
      return -1;
    }
    SecondPass(e, flags, cbpf, bitmap, len);
    n := ThirdPass(cbpf, bitmap, len);
  }

  lemma PrologueHoles(w: seq<u32>)
    requires |w| > 0 && w[0] == 7 && forall k :: 0 < k < |w| ==> w[k] == 0
    ensures Members(w) == Span(0, PROLOGUE)
  {
    forall x: nat ensures HasBit(w, x) == (x < PROLOGUE) {
      if x / U32BITS == 0 {
        OnesBit(3, x);
      } else {
        ZeroBit(x % U32BITS);
      }
    }
    assert Members(w) == Span(0, PROLOGUE);
  }

  /** A migration ends with the EXIT of a return, and no group ends by loading AX. */
  lemma MigrationCloses(p: seq<Filter>, addr: seq<nat>, e: seq<Insn>)
    requires IsMigration(p, addr, e)
    ensures Closed(e, |e|)
  {
    var n := |p|;
    assert GroupAt(p, addr, e, n - 1);
    hide Decode, ComputesK, Branches, DividesX;
    if Decode(p[n - 1]).ReturnK? {
    } else if n >= 2 {
      assert GroupAt(p, addr, e, n - 2);
      GroupEnd(Decode(p[n - 2]), n - 2, addr, e, addr[n - 2], addr[n - 1]);
    }
  }

  /** The last instruction of a group does not write AX. */
  lemma GroupEnd(i: Instr, g: nat, addr: seq<nat>, e: seq<Insn>, lo: nat, hi: nat)
    requires |addr| > 0 && ValidInstr(i, g, |addr| - 1) && IsGroup(i, g, addr, e, lo, hi)
    ensures e[hi - 1].dst != REG_AX
  {
    hide AluOp.Code, TestCode, Blinding, StackOff;
  }

  /** On what the kernel made of any valid classic filter, the recovery succeeds, and what it
      leaves in the buffer returns the same values, is as valid and is no longer. */
  method RecoverMigration(e: array<Insn>, len: nat, cbpf: array<Filter>, trustful: bool, ghost p: seq<Filter>, ghost addr: seq<nat>)
    returns (n: int)
    requires len <= e.Length && len <= cbpf.Length && len < U32
    requires (trustful && len == e.Length) || (Padded(e[..], len) && forall x :: len <= x < e.Length ==> e[x] == ZERO_INSN)
    requires IsMigration(p, addr, e[..len])
    modifies e, cbpf
    ensures 0 < n <= |p| && n <= cbpf.Length && ValidProgram(cbpf[..n])
    ensures ScratchChecked(p) ==> ScratchChecked(cbpf[..n])
    ensures forall mem: Mem, data: Data :: Result(cbpf[..n], mem, data) == Result(p, mem, data)
    ensures forall es: EState, data: Data ::
              Entry(es) ==> Result(cbpf[..n], es.stack, data) == RunE(old(e[..len]), 0, es, data)
  {
    ghost var migrated, padded, buf := e[..len], e[..], cbpf[..];
    assert Unfolded(migrated, padded, 0);
    Soundness.PaddedChecks(p, addr, migrated, padded);
    if len == e.Length {
      assert migrated == padded;
      MigrationCloses(p, addr, migrated);
    }
    hide IsMigration, Recover, ValidProgram, RunE, Run, ScratchChecked;
    Soundness.RecoveryIsValid(p, addr, migrated, padded, buf);
    if ScratchChecked(p) {
      RecoveredCheck.RecoveryIsChecked(p, addr, migrated, padded, buf);
    }
    forall mem: Mem, data: Data
      ensures Result(Recover(padded, len, buf).value, mem, data) == Result(p, mem, data)
    {
      Soundness.RecoveryPreservesMeaning(p, addr, migrated, padded, buf, mem, data);
    }
    forall es: EState, data: Data | Entry(es)
      ensures Result(Recover(padded, len, buf).value, es.stack, data) == RunE(migrated, 0, es, data)
    {
      Soundness.RecoveryMatchesEbpf(p, addr, migrated, padded, buf, es, data);
    }
    n := Ebpf2Cbpf(e, len, cbpf, trustful);
  }
}
