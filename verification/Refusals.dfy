/** Which eBPF the first pass refuses, and how many slots a span has. */
module Refusals {
  import opened Word
  import opened Bpf
  import opened Ebpf
  import opened Migration
  import opened Recovery

  /** The instructions of the guard of a division behind MOV X X, unblinded or blinded, by their
      codes; the last of them, the division itself, is not looked at. */
  predicate GuardBehind(e: seq<Insn>, j: nat) {
    || (At(e, j + 1).code == 0x55 && At(e, j + 2).code == 0xac && At(e, j + 3).code == 0x95)
    || (At(e, j + 1).code == 0xb7 && At(e, j + 2).code == 0xa7 && At(e, j + 3).code == 0x5d && At(e, j + 3).src == 11
        && At(e, j + 4).code == 0xac && At(e, j + 5).code == 0x95)
  }

  /** MOV X X is taken for a division exactly when the whole guard is there. */
  lemma GuardExactly(e: seq<Insn>, j: nat, ate: nat, flags: seq<Flag>)
    ensures FoldDivide(e, j, ate, flags).Some? <==> GuardBehind(e, j)
    ensures FoldDivide(e, j, ate, flags).Some? ==> FoldDivide(e, j, ate, flags).value.f == Filter(0x3c, 0, 0, 0)
  {
  }

  /** The comparisons that classic BPF has, those it has the opposites of, EXIT and JA. */
  predicate IsJumpOp(op: bv16) {
    || op == 0x10 || op == 0x20 || op == 0x30 || op == 0x40
    || op == 0x50 || op == 0xb0 || op == 0xa0
    || op == 0x90 || op == 0x00
  }

  /** A jump of any other kind is refused unless a JA that nothing jumps to is behind it. */
  lemma JumpRefused(e: seq<Insn>, i: nat, largeK: u32, ate: nat, flags: seq<Flag>)
    ensures var j := i + FlagAt(flags, i).fold;
            var marked := Mark(flags, j + At(e, j).off + 1);
            FoldJump(e, i, largeK, ate, flags).None? <==>
              && !IsJumpOp(At(e, j).code & 0xf0)
              && !(At(e, j + 1).code == 0x05 && !FlagAt(marked, j + 1).targeted)
  {
  }

  /** The moves that are understood: between A and X, of constants to A, X and TMP, and MOV X X. */
  lemma MoveRefused(e: seq<Insn>, i: nat, j: nat, ate: nat, flags: seq<Flag>)
    ensures var insn := At(e, j);
            !(insn.code & 0x0f == 0x0f && (insn.src == 7 || insn.dst == 7))
            && !(insn.src == 0 && (insn.dst == 0 || insn.dst == 7 || insn.dst == 2))
            && !(insn.src == 7 && insn.dst == 7)
            ==> FoldMove(e, i, j, ate, flags).None?
  {
    var insn := At(e, j);
    assert insn.code & CLASS_MASK == ALU64 && insn.code & SRC_X == SRC_X ==> insn.code & 0x0f == 0x0f;
  }

  /** Jumps are checked except for EXIT, in both classes of jumps. */
  lemma JumpClassIs(code: bv16)
    ensures IsJumpClass(code) <==> (code & 7 == 5 || code & 7 == 6) && code & 0xf0 != 0x90
  {
  }

  /** The members of a set of slots in [lo, hi). */
  function Within(holes: set<nat>, lo: nat, hi: nat): set<nat> {
    set x | x in holes && lo <= x && x < hi
  }

  /** Counting holes is counting the members of a set. */
  lemma {:induction false} CountIsSize(holes: set<nat>, lo: nat, hi: nat)
    ensures Count(holes, lo, hi) == |Within(holes, lo, hi)|
    decreases hi
  {
    if lo < hi {
      var last := hi - 1;
      CountIsSize(holes, lo, last);
      assert Within(holes, lo, hi) == Within(holes, lo, last) + (if last in holes then {last} else {});
    } else {
      assert Within(holes, lo, hi) == {};
    }
  }
}
