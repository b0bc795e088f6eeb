/** The check of a program before it is decoded and rendered: what it lets pass is in range. It
    has no false alarms, but it overlooks reads of scratch words, and exactly which is said here. */
module CheckProg {
  import opened Word
  import opened Bpf
  import opened ScratchCheck

  /** What the disassembler cannot go on with. */
  predicate IsFatal(i: Instr) {
    i.Illegal? || (i.LoadAbs? && !(i.k < DATA_LEN && i.k % 4 == 0))
  }

  /** A load of a word that is not noted as written. */
  predicate Misses(i: Instr, memValid: u16) {
    i.LoadMem? && i.k < MEMWORDS && !Bit(memValid, i.k)
  }

  /** The words noted as written after an instruction: all of them after any jump. */
  function NotedAfter(i: Instr, pc: nat, len: nat, memValid: u16): u16 {
    if !ValidInstr(i, pc, len) then memValid
    else
      match i
      case Store(_, k) => ShiftFits(k); Or16(memValid, Pow2(k))
      case Goto(_) => 0xffff
      case Branch(_, _, _, _) => 0xffff
      case _ => memValid
  }

  class Checker {
    var fatalCount: nat
    var errorCount: nat
    var memValid: u16
    const masks: array<u16>

    constructor (len: nat)
      ensures fatalCount == 0 && errorCount == 0 && memValid == 0
      ensures fresh(masks) && masks.Length == len
    {
      fatalCount, errorCount, memValid := 0, 0, 0;
      masks := new u16[len](_ => 0xffff);
    }

    method Report(fatal: bool)
      modifies this`fatalCount, this`errorCount
      ensures fatalCount == old(fatalCount) + (if fatal then 1 else 0)
      ensures errorCount == old(errorCount) + (if fatal then 0 else 1)
    {
      if fatal {
        fatalCount := fatalCount + 1;
      } else {
        errorCount := errorCount + 1;
      }
    }

    method NarrowMask(i: nat)
      requires i < masks.Length
      modifies masks
      ensures masks[i] == And16(old(masks[i]), memValid)
      ensures forall j :: 0 <= j < masks.Length && j != i ==> masks[j] == old(masks[j])
    {
      masks[i] := And16(masks[i], memValid);
    }

    /** check_filter: reports exactly an instruction that is not valid where it stands, or loads
        a word that is not noted. The masks are narrowed and never looked at. */
    method CheckFilter(prog: seq<Filter>, pc: nat)
      requires pc < |prog| == masks.Length
      modifies this, masks
      ensures var i := Decode(prog[pc]);
              && fatalCount == old(fatalCount) + (if IsFatal(i) then 1 else 0)
              && errorCount == old(errorCount)
                 + (if !IsFatal(i) && (!ValidInstr(i, pc, |prog|) || Misses(i, old(memValid))) then 1 else 0)
              && memValid == NotedAfter(i, pc, |prog|, old(memValid))
    {
      hide Decode, Or16, And16, Pow2, Bit;
      var i := Decode(prog[pc]);
      match i
      case Illegal => Report(true);
      case LoadAbs(k) =>
        if k >= DATA_LEN {
          Report(true);
        } else if k % 4 != 0 {
          Report(true);
        }
      case Arith(op, K(k)) =>
        if op.Div? {
          if k == 0 {
            Report(false);
          }
        } else if op.Lsh? || op.Rsh? {
          if k >= 32 {
            Report(false);
          }
        }
      case LoadMem(_, k) =>
        if k >= MEMWORDS {
          Report(false);
        } else if !Bit(memValid, k) {
          Report(false);
        }
      case Store(_, k) =>
        if k >= MEMWORDS {
          Report(false);
        } else {
          ShiftFits(k);
          memValid := Or16(memValid, Pow2(k));
        }
      case Goto(k) =>
        if k >= |prog| - pc - 1 {
          Report(false);
        } else {
          NarrowMask(pc + 1 + k);
          memValid := 0xffff;
        }
      case Branch(_, _, jt, jf) =>
        if pc + jt + 1 >= |prog| {
          Report(false);
        } else if pc + jf + 1 >= |prog| {
          Report(false);
        } else {
          NarrowMask(pc + 1 + jt);
          NarrowMask(pc + 1 + jf);
          memValid := 0xffff;
        }
      case _ =>
    }
  }

  predicate Notes(i: Instr, k: nat) {
    Stores(i, k) || i.Goto? || i.Branch?
  }

  /** Before `pc` stands a store to word `k`, or any jump. */
  predicate NotedBefore(p: seq<Filter>, pc: nat, k: nat)
    requires pc <= |p|
  {
    exists q :: 0 <= q < pc && Notes(Decode(p[q]), k)
  }

  predicate LoadNoted(p: seq<Filter>, pc: nat)
    requires pc < |p|
  {
    Decode(p[pc]).LoadMem? ==> NotedBefore(p, pc, Decode(p[pc]).k)
  }

  predicate AllNoted(p: seq<Filter>, n: nat)
    requires n <= |p|
  {
    forall pc :: 0 <= pc < n ==> LoadNoted(p, pc)
  }

  /** The bits of memValid are the words noted. */
  predicate BitsNoted(p: seq<Filter>, pc: nat, memValid: u16)
    requires pc <= |p|
  {
    forall k :: 0 <= k < MEMWORDS ==> Bit(memValid, k) == NotedBefore(p, pc, k)
  }

  lemma BitsNotedNext(p: seq<Filter>, pc: nat, memValid: u16)
    requires pc < |p| && BitsNoted(p, pc, memValid) && ValidAt(p, pc)
    ensures BitsNoted(p, pc + 1, NotedAfter(Decode(p[pc]), pc, |p|, memValid))
  {
    hide Decode, Or16, Bit, Pow2;
    var after, next := NotedAfter(Decode(p[pc]), pc, |p|, memValid), pc + 1;
    forall k | 0 <= k < MEMWORDS
      ensures Bit(after, k) == NotedBefore(p, next, k)
    {
      assert NotedBefore(p, next, k) == (NotedBefore(p, pc, k) || Notes(Decode(p[pc]), k));
      OnesBit16(k);
      if Decode(p[pc]).Store? {
        OrBit(memValid, Decode(p[pc]).k, k);
      }
    }
  }

  lemma {:induction false} OnesBit16(k: nat)
    ensures Bit(0xffff, k) == (k < 16)
  {
    Pow2Is16();
    OnesBit(16, k);
  }

  lemma {:induction false} OrBit(m: u16, n: nat, k: nat)
    requires n < 16
    ensures Pow2(n) < 0x1_0000 && Bit(Or16(m, Pow2(n)), k) == (Bit(m, k) || k == n)
  {
    ShiftFits(n);
    BitwiseBit(OrOp, m, Pow2(n), k);
    Pow2Bit(n, k);
  }

  datatype Checked = Fatal | Errors | Clean

  /** check_prog: finds a program clean exactly when it passes the kernel's checks of its
      instructions and every load comes after a store to its word or after any jump. */
  method CheckProg(prog: seq<Filter>) returns (r: Checked)
    requires |prog| > 0
    ensures r.Fatal? <==> exists i :: 0 <= i < |prog| && IsFatal(Decode(prog[i]))
    ensures r.Clean? <==> ValidProgram(prog) && AllNoted(prog, |prog|)
  {
    hide Decode, ValidInstr, IsFatal, Misses, NotedAfter, BitsNoted, LoadNoted;
    var c := new Checker(|prog|);
    assert BitsNoted(prog, 0, 0) by {
      NothingNoted(prog);
    }
    var i := 0;
    while i < |prog|
      invariant 0 <= i <= |prog| && c.masks.Length == |prog| && fresh(c) && fresh(c.masks)
      invariant c.fatalCount > 0 <==> exists j :: 0 <= j < i && IsFatal(Decode(prog[j]))
      invariant c.fatalCount == 0 && c.errorCount == 0 <==> (forall j :: 0 <= j < i ==> ValidAt(prog, j)) && AllNoted(prog, i)
      invariant c.fatalCount == 0 && c.errorCount == 0 ==> BitsNoted(prog, i, c.memValid)
    {
      ghost var noted, memValid := BitsNoted(prog, i, c.memValid), c.memValid;
      FatalIsInvalid(prog, i);
      c.CheckFilter(prog, i);
      if noted {
        LoadsAsNoted(prog, i, memValid);
        if ValidAt(prog, i) {
          BitsNotedNext(prog, i, memValid);
        }
      }
      i := i + 1;
      if c.fatalCount > 5 {
        return Fatal;
      }
    }
    var last := Decode(prog[|prog| - 1]);
    if !last.ReturnA? && !last.ReturnK? {
      c.Report(false);
    }
    r := if c.fatalCount > 0 then Fatal else if c.errorCount > 0 then Errors else Clean;
  }

  lemma NothingNoted(p: seq<Filter>)
    ensures BitsNoted(p, 0, 0)
  {
    hide Bit;
    forall k | 0 <= k < MEMWORDS
      ensures !Bit(0, k)
    {
      ZeroBit(k);
    }
  }

  lemma FatalIsInvalid(p: seq<Filter>, pc: nat)
    requires pc < |p|
    ensures IsFatal(Decode(p[pc])) ==> !ValidAt(p, pc)
  {
    hide Decode;
  }

  lemma LoadsAsNoted(p: seq<Filter>, pc: nat, memValid: u16)
    requires pc < |p| && BitsNoted(p, pc, memValid)
    ensures ValidAt(p, pc) ==> (LoadNoted(p, pc) <==> !Misses(Decode(p[pc]), memValid))
  {
    hide Decode, Bit, NotedBefore;
  }

  lemma {:induction false} CertainIsNoted(p: seq<Filter>, pc: nat, k: nat)
    requires pc <= |p| && Certain(p, pc, k)
    ensures NotedBefore(p, pc, k)
  {
    hide Decode;
    var q := pc - 1;
    if !Notes(Decode(p[q]), k) {
      assert Leads(Decode(p[q]), q, pc);
      CertainIsNoted(p, q, k);
    }
    assert NotedBefore(p, pc, k);
  }

  /** It has no false alarms: what passes all checks of the kernel is noted. */
  lemma NoFalseAlarm(p: seq<Filter>)
    requires ScratchChecked(p)
    ensures AllNoted(p, |p|)
  {
    hide Decode, Certain, NotedBefore;
    forall pc | 0 <= pc < |p|
      ensures LoadNoted(p, pc)
    {
      assert LoadsCertain(p, pc);
      if Decode(p[pc]).LoadMem? {
        CertainIsNoted(p, pc, Decode(p[pc]).k);
      }
    }
  }

  /** It overlooks this program, which the kernel refuses: any jump hides that word 0 is unwritten. */
  lemma OverlooksRead() returns (p: seq<Filter>)
    ensures |p| == 3 && ValidProgram(p) && AllNoted(p, |p|) && !ScratchChecked(p)
  {
    p := [Encode(Goto(0)), Encode(LoadMem(A, 0)), Encode(ReturnA)];
    DecodeEncode(Goto(0));
    DecodeEncode(LoadMem(A, 0));
    DecodeEncode(ReturnA);
    hide Decode, Encode;
    assert Notes(Decode(p[0]), 0) && NotedBefore(p, 1, 0);
    assert !Certain(p, 0, 0);
    assert Leads(Decode(p[0]), 0, 1) && !Certain(p, 1, 0);
    assert !LoadsCertain(p, 1);
    forall i | 0 <= i < |p|
      ensures ValidAt(p, i) && LoadNoted(p, i)
    {
    }
  }
}
