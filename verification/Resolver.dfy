/** The resolver: one forward pass that checks every statement, turns labels into distances
    and tracks which scratch words are certain to have been written. */
module Resolver {
  import opened Word
  import opened Bpf
  import opened Parser
  import opened Statements
  import opened Acceptance

  /** What falls through to statement `i` says about word `k`. */
  predicate Falls(src: Source, i: nat, k: nat) {
    i > 1 && (src.At(i - 1).Jump? || WritesMem(src.At(i - 1), k) || src.Written(i - 1, k))
  }

  /** What the jumps before statement `i` that reach `j` agree on about word `k`. */
  predicate Meets(src: Source, i: nat, j: nat, k: nat) {
    forall p :: 1 <= p < i && src.Reaches(p, j) ==> src.Written(p, k)
  }

  lemma {:induction false} FallsAndMeets(src: Source, i: nat, k: nat)
    requires i >= 1
    ensures Falls(src, i, k) && Meets(src, i, i, k) <==> src.Written(i, k)
  {
    if src.Written(i, k) {
      assert src.Flows(i - 1, i) || src.At(i - 1).Jump?;
      forall p | 1 <= p < i && src.Reaches(p, i)
        ensures src.Written(p, k)
      {
        assert src.Flows(p, i);
      }
    }
  }

  /** The masks before statement `i` is looked at. */
  predicate MaskAt(src: Source, i: nat, masks: seq<u16>, j: nat)
    requires j < |masks|
  {
    forall k :: 0 <= k < MEMWORDS ==> Bit(masks[j], k) == Meets(src, i, j, k)
  }

  predicate Masks(src: Source, i: nat, masks: seq<u16>) {
    forall j :: i <= j < |masks| ==> MaskAt(src, i, masks, j)
  }

  /** The words known to be written as control falls through to statement `i`. */
  predicate Entering(src: Source, i: nat, memValid: u16) {
    forall k :: 0 <= k < MEMWORDS ==> Bit(memValid, k) == Falls(src, i, k)
  }

  /** The words known to be written at statement `i`, all ways to it taken together. */
  predicate Here(src: Source, i: nat, memValid: u16) {
    forall k :: 0 <= k < MEMWORDS ==> Bit(memValid, k) == src.Written(i, k)
  }

  lemma Meeting(src: Source, i: nat, memValid: u16, masks: seq<u16>)
    requires 1 <= i < |masks| && Entering(src, i, memValid) && Masks(src, i, masks)
    ensures Here(src, i, And16(memValid, masks[i]))
  {
    assert MaskAt(src, i, masks, i);
    forall k | 0 <= k < MEMWORDS
      ensures Bit(And16(memValid, masks[i]), k) == src.Written(i, k)
    {
      BitwiseBit(AndOp, memValid, masks[i], k);
      FallsAndMeets(src, i, k);
    }
  }

  /** A jump hands its words to the masks of its arms, and nothing falls through it. */
  predicate Handed(src: Source, i: nat, memValid: u16, before: seq<u16>, after: seq<u16>) {
    |after| == |before| && forall j :: 0 <= j < |before| ==> HandedAt(src, i, memValid, before[j], after[j], j)
  }

  predicate HandedAt(src: Source, i: nat, memValid: u16, before: u16, after: u16, j: nat) {
    forall k :: 0 <= k < MEMWORDS ==> Bit(after, k) == (Bit(before, k) && (src.Reaches(i, j) ==> Bit(memValid, k)))
  }

  lemma JumpKeeps(src: Source, i: nat, memValid: u16, before: seq<u16>, after: seq<u16>)
    requires i >= 1 && src.At(i).Jump? && Here(src, i, memValid) && Masks(src, i, before)
    requires Handed(src, i, memValid, before, after)
    ensures Entering(src, i + 1, 0xffff) && Masks(src, i + 1, after)
  {
    forall k | 0 <= k < MEMWORDS
      ensures Bit(0xffff, k) && Falls(src, i + 1, k)
    {
      Pow2Is16();
      OnesBit(16, k);
    }
    var next := i + 1;
    forall j | next <= j < |after|
      ensures MaskAt(src, next, after, j)
    {
      assert MaskAt(src, i, before, j);
      assert HandedAt(src, i, memValid, before[j], after[j], j);
      forall k | 0 <= k < MEMWORDS
        ensures Bit(after[j], k) == Meets(src, i + 1, j, k)
      {
        MeetsNext(src, i, j, k);
      }
    }
  }

  lemma MeetsNext(src: Source, i: nat, j: nat, k: nat)
    requires i >= 1
    ensures Meets(src, i + 1, j, k) == (Meets(src, i, j, k) && (src.Reaches(i, j) ==> src.Written(i, k)))
  {
    hide Source.Written, Source.Reaches;
  }

  /** Any other statement hands its words, with the one it writes, to the next one. */
  lemma StatementKeeps(src: Source, i: nat, memValid: u16, after: u16, masks: seq<u16>)
    requires i >= 1 && !src.At(i).Jump? && Here(src, i, memValid) && Masks(src, i, masks)
    requires forall k :: 0 <= k < MEMWORDS ==> Bit(after, k) == (Bit(memValid, k) || WritesMem(src.At(i), k))
    ensures Entering(src, i + 1, after) && Masks(src, i + 1, masks)
  {
    var next := i + 1;
    forall j | next <= j < |masks|
      ensures MaskAt(src, next, masks, j)
    {
      assert MaskAt(src, i, masks, j);
      forall k | 0 <= k < MEMWORDS
        ensures Bit(masks[j], k) == Meets(src, i + 1, j, k)
      {
        MeetsNext(src, i, j, k);
      }
    }
  }

  lemma Starting(src: Source, n: nat)
    ensures Entering(src, 1, 0) && Masks(src, 1, seq(n, _ => 0xffff))
  {
    forall k | 0 <= k < MEMWORDS
      ensures !Bit(0, k) && Bit(0xffff, k)
    {
      ZeroBit(k);
      Pow2Is16();
      OnesBit(16, k);
    }
    var masks: seq<u16> := seq(n, _ => 0xffff);
    assert forall j :: 1 <= j < n ==> MaskAt(src, 1, masks, j);
  }

  class Resolver {
    var hasError: bool
    var memValid: u16
    var bpfLen: u16
    const masks: array<u16>
    const text: array<Statement>
    const code: seq<nat>
    const table: map<string, u16>

    ghost predicate Valid(src: Source)
      reads this
    {
      && src.WellFormed() && |code| > 1
      && code == src.code && table == src.table && text.Length == |src.text|
      && masks.Length == |code| && bpfLen == |code| - 1
    }

    constructor (text: array<Statement>, code: seq<nat>, table: map<string, u16>)
      requires 1 < |code| < 0x1_0000
      ensures this.text == text && this.code == code && this.table == table
      ensures !hasError && memValid == 0 && bpfLen == |code| - 1
      ensures fresh(masks) && masks[..] == seq(|code|, _ => 0xffff)
    {
      this.text, this.code, this.table := text, code, table;
      hasError, memValid, bpfLen := false, 0, |code| - 1;
      masks := new u16[|code|](_ => 0xffff);
    }

    /** A load from scratch memory: in range, and certain to have been written. */
    method CheckMem(k: u32)
      modifies this`hasError
      ensures hasError == (old(hasError) || k >= MEMWORDS || !Bit(memValid, k))
    {
      if k > 15 {
        hasError := true;
        return;
      }
      if !Bit(memValid, k) {
        hasError := true;
      }
    }

    method AssignA(op: AssignOp, right: Obj)
      modifies this`hasError
      ensures hasError == (old(hasError) || !ValidAssign(VarA, op, right) || (op.Equal? && right.MemWord? && !Bit(memValid, right.k)))
    {
      match op
      case Negative =>
        if !right.VarA? {
          hasError := true;
        }
      case OpTo(o) =>
        if !right.VarX? && !right.Number? {
          hasError := true;
        } else if o.Div? && right.Number? && right.k == 0 {
          hasError := true;
        } else if (o.Lsh? || o.Rsh?) && right.Number? && right.k >= 32 {
          hasError := true;
        }
      case Equal =>
        if right.VarA? {
          hasError := true;
        } else if (right.LowArg? || right.HighArg?) && right.k > 5 {
          hasError := true;
        } else if right.MemWord? {
          CheckMem(right.k);
        }
    }

    method AssignX(op: AssignOp, right: Obj)
      modifies this`hasError
      ensures hasError == (old(hasError) || !ValidAssign(VarX, op, right) || (op.Equal? && right.MemWord? && !Bit(memValid, right.k)))
    {
      if !op.Equal? {
        hasError := true;
        return;
      }
      if right.SyscallNr? || right.ArchNr? || right.LowPc? || right.HighPc? || right.LowArg? || right.HighArg? {
        hasError := true;
      } else if right.VarX? {
        hasError := true;
      } else if right.MemWord? {
        CheckMem(right.k);
      }
    }

    method AssignMem(left: Obj, op: AssignOp, right: Obj)
      requires left.MemWord?
      modifies this`hasError, this`memValid
      ensures hasError == (old(hasError) || !ValidAssign(left, op, right))
      ensures ValidAssign(left, op, right) ==> forall k :: 0 <= k < MEMWORDS ==> Bit(memValid, k) == (old(Bit(memValid, k)) || k == left.k)
    {
      if !op.Equal? {
        hasError := true;
        return;
      }
      if left.k > 15 {
        hasError := true;
        return;
      }
      if !right.VarA? && !right.VarX? {
        hasError := true;
        return;
      }
      ShiftFits(left.k);
      forall k: nat
        ensures Bit(Or16(memValid, Pow2(left.k)), k) == (Bit(memValid, k) || k == left.k)
      {
        BitwiseBit(OrOp, memValid, Pow2(left.k), k);
        Pow2Bit(left.k, k);
      }
      memValid := Or16(memValid, Pow2(left.k));
    }

    /** find_key: all ones when there is no such label. */
    method FindKey(key: string) returns (nr: u16)
      ensures nr == if key in table then table[key] else 0xffff
    {
      nr := if key in table then table[key] else 0xffff;
    }

    method Meet(d: nat)
      requires d < masks.Length
      modifies masks
      ensures forall j :: 0 <= j < masks.Length && j != d ==> masks[j] == old(masks[j])
      ensures forall k :: 0 <= k < MEMWORDS ==> Bit(masks[d], k) == (old(Bit(masks[d], k)) && Bit(memValid, k))
    {
      forall k: nat
        ensures Bit(And16(masks[d], memValid), k) == (Bit(masks[d], k) && Bit(memValid, k))
      {
        BitwiseBit(AndOp, masks[d], memValid, k);
      }
      masks[d] := And16(masks[d], memValid);
    }

    /** Both arms of a jump get the words known here; after it nothing is ruled out. */
    method HandOver(ghost src: Source, c: nat, jt: nat, jf: nat)
      requires jt < masks.Length && jf < masks.Length
      requires forall j :: src.Reaches(c, j) <==> j == jt || j == jf
      modifies masks, this`memValid
      ensures memValid == 0xffff
      ensures Handed(src, c, old(memValid), old(masks[..]), masks[..])
    {
      hide Source.Reaches;
      Meet(jt);
      Meet(jf);
      memValid := 0xffff;
    }

    method SetBody(t: nat, b: Body)
      requires t < text.Length
      modifies text
      ensures text[..] == old(text[..])[t := old(text[t]).(body := b)]
    {
      text[t] := text[t].(body := b);
    }

    /** An unconditional jump. */
    method JaLine(ghost src: Source, c: nat)
      requires Valid(src) && 0 < c < |code| && code[c] < text.Length
      requires text[code[c]].body == src.At(c) && src.At(c).Jump? && !src.At(c).conditional && text[code[c]].codeNr == c
      requires Grammatical(src.At(c))
      modifies this`hasError, this`memValid, masks, text
      ensures JumpDone(src, c)
    {
      hide Handed;
      CodeFits(src.text, src.code, |code| - 1);
      var t := code[c];
      var b := text[t].body;
      var jt := FindKey(b.jt.key);
      if jt == 0xffff {
        hasError := true;
        return;
      } else if jt > bpfLen {
        hasError := true;
        return;
      }
      var distance := Distance(jt, c);
      SetBody(t, b.(jt := Label(b.jt.key, distance)));
      if distance >= 0x8000 {
        hasError := true;
        return;
      }
      HandOver(src, c, jt, jt);
    }

    /** The arm taken when the condition holds. */
    method JtArm(ghost src: Source, c: nat) returns (ok: bool, jt: u16)
      requires Valid(src) && 0 < c < |code| && code[c] < text.Length
      requires text[code[c]].body.Jump? && text[code[c]].body.jt.key != ""
      modifies this`hasError, text
      ensures var l := old(text[code[c]].body.jt); ok == src.Near(src.Dest(l, c), c, true)
      ensures hasError == (old(hasError) || !ok)
      ensures text[..] == old(text[..])[code[c] := text[code[c]]]
      ensures ok ==> var b := old(text[code[c]].body);
                     jt == src.Dest(b.jt, c) && text[code[c]] == old(text[code[c]]).(body := b.(jt := Label(b.jt.key, jt - c - 1)))
    {
      CodeFits(src.text, src.code, |code| - 1);
      var b := text[code[c]].body;
      jt := FindKey(b.jt.key);
      ok := false;
      if jt == 0xffff {
        hasError := true;
        return;
      }
      var near := Distance(jt, c);
      SetBody(code[c], b.(jt := Label(b.jt.key, near)));
      if near >= 0x8000 || near > 0xff || jt > bpfLen {
        hasError := true;
        return;
      }
      ok := true;
    }

    /** The other arm, which is the next statement when it is left out. */
    method JfArm(ghost src: Source, c: nat) returns (ok: bool, jf: nat)
      requires Valid(src) && 0 < c < |code| && code[c] < text.Length
      requires text[code[c]].body.Jump?
      modifies this`hasError, text
      ensures var l := old(text[code[c]].body.jf); ok == src.Near(src.Dest(l, c), c, true)
      ensures hasError == (old(hasError) || !ok)
      ensures text[..] == old(text[..])[code[c] := text[code[c]]]
      ensures ok ==> var b := old(text[code[c]].body);
                     jf == src.Dest(b.jf, c) && text[code[c]] == old(text[code[c]]).(body := b.(jf := Label(b.jf.key, jf - c - 1)))
    {
      CodeFits(src.text, src.code, |code| - 1);
      var b := text[code[c]].body;
      jf := c + 1;
      ok := false;
      if b.jf.key != "" {
        jf := FindKey(b.jf.key);
        if jf == 0xffff {
          hasError := true;
          return;
        }
      }
      var near := Distance(jf, c);
      SetBody(code[c], b.(jf := Label(b.jf.key, near)));
      jf := c + near + 1;
      if near >= 0x8000 || near > 0xff || jf > bpfLen {
        hasError := true;
        return;
      }
      ok := true;
    }

    /** A conditional jump. */
    method JumpLine(ghost src: Source, c: nat)
      requires Valid(src) && 0 < c < |code| && code[c] < text.Length
      requires text[code[c]].body == src.At(c) && src.At(c).Jump? && src.At(c).conditional && text[code[c]].codeNr == c
      requires Grammatical(src.At(c))
      modifies this`hasError, this`memValid, masks, text
      ensures JumpDone(src, c)
    {
      hide Handed, Source.Dest, Numbered;
      var ok, jt := JtArm(src, c);
      if !ok {
        return;
      }
      var jf;
      ok, jf := JfArm(src, c);
      if !ok {
        return;
      }
      HandOver(src, c, jt, jf);
    }

    /** What a jump at statement `c` leaves behind. */
    twostate predicate JumpDone(src: Source, c: nat)
      requires |src.code| > 1 && 0 < c < |code| && code[c] < text.Length
      reads this, masks, text
    {
      && hasError == (old(hasError) || !src.Encodable(c))
      && text[..] == old(text[..])[code[c] := text[code[c]]]
      && (src.Encodable(c) ==>
            && text[code[c]] == old(text[code[c]]).(body := src.Resolved(c))
            && memValid == 0xffff
            && Handed(src, c, old(memValid), old(masks[..]), masks[..]))
    }

    method AssignLine(left: Obj, op: AssignOp, right: Obj)
      requires left.VarA? || left.VarX? || left.MemWord?
      modifies this`hasError, this`memValid
      ensures hasError == (old(hasError) || !ValidAssign(left, op, right)
                           || (op.Equal? && !left.MemWord? && right.MemWord? && !old(Bit(memValid, right.k))))
      ensures !hasError ==>
                forall k :: 0 <= k < MEMWORDS ==> Bit(memValid, k) == (old(Bit(memValid, k)) || (left.MemWord? && left.k == k))
    {
      if left.VarA? {
        AssignA(op, right);
      } else if left.VarX? {
        AssignX(op, right);
      } else {
        AssignMem(left, op, right);
      }
    }

    method ReturnLine(r: RetObj)
      modifies this`hasError
      ensures hasError == (old(hasError) || (r.RetAction? && r.action.HasData() && r.data > SECCOMP_RET_DATA))
    {
      if r.RetA? || r.RetNumber? {
        return;
      }
      if r.action.HasData() && r.data > 0xffff {
        hasError := true;
      }
    }

    /** One statement: it is fine or an error is noted, and the words known to be written
        are those known at its successors. */
    method ResolveStatement(ghost src: Source, c: nat)
      requires Valid(src) && 0 < c < |code| && code[c] < text.Length
      requires text[code[c]] == src.text[code[c]] && text[code[c]].codeNr == c
      requires !hasError ==> Here(src, c, memValid) && Masks(src, c, masks[..])
      modifies this`hasError, this`memValid, masks, text
      ensures hasError == (old(hasError) || !src.Fine(c))
      ensures text[..] == old(text[..])[code[c] := text[code[c]]]
      ensures !hasError ==> text[code[c]] == old(text[code[c]]).(body := src.Resolved(c))
      ensures !hasError ==> Entering(src, c + 1, memValid) && Masks(src, c + 1, masks[..])
    {
      hide Masks, Entering, Handed, Numbered, ValidAssign, Source.Resolved;
      var b := text[code[c]].body;
      AtStatement(src, c);
      if src.Fine(c) && !b.Jump? {
        ResolvedOther(src, c);
      }
      match b
      case Bad =>
        hasError := true;
      case Assign(left, op, right) =>
        AssignLine(left, op, right);
        AssignFine(src, c, old(memValid));
        if !hasError {
          StatementKeeps(src, c, old(memValid), memValid, masks[..]);
        }
      case Jump(_, conditional, _, _, _, _) =>
        if conditional {
          JumpLine(src, c);
        } else {
          JaLine(src, c);
        }
        if !hasError {
          JumpKeeps(src, c, old(memValid), old(masks[..]), masks[..]);
        }
      case Return(r, _) =>
        ReturnLine(r);
        if !hasError {
          StatementKeeps(src, c, memValid, memValid, masks[..]);
        }
    }

    /** The loop over the statements. */
    method Run(ghost src: Source)
      requires Valid(src) && text[..] == src.text
      requires !hasError && memValid == 0 && masks[..] == seq(|code|, _ => 0xffff)
      modifies this`hasError, this`memValid, masks, text
      ensures hasError == !src.Accepted()
      ensures !hasError ==> ResolvedText(src, text[..], |code|)
    {
      Starting(src, |code|);
      CodeFits(src.text, src.code, |code| - 1);
      for i := 1 to |code|
        invariant hasError == !FineTo(src, i)
        invariant !hasError ==> Entering(src, i, memValid) && Masks(src, i, masks[..])
        invariant !hasError ==> ResolvedText(src, text[..], i)
        invariant Untouched(src, text[..], i)
      {
        hide Masks, Entering, Numbered, Source.Fine, ResolvedText, Untouched;
        assert text[code[i]] == src.text[code[i]] by {
          UntouchedAt(src, text[..], i);
        }
        AtStatement(src, i);
        if !hasError {
          Meeting(src, i, memValid, masks[..]);
        }
        memValid := And16(memValid, masks[i]);
        ghost var before := text[..];
        ResolveStatement(src, i);
        StillUntouched(src, before, text[..], i);
        if !hasError {
          ResolvedNext(src, before, text[..], i);
        }
      }
      AtStatement(src, |code| - 1);
      var last := text[code[|code| - 1]];
      if !hasError {
        assert ResolvedLine(src, text[..], |code|, code[|code| - 1]);
      }
      if !last.body.Return? {
        hasError := true;
      }
    }
  }

  /** The first `i - 1` statements have been accepted. */
  predicate FineTo(src: Source, i: nat)
    requires |src.code| >= 1
  {
    forall c :: 0 < c < i ==> src.Fine(c)
  }

  /** The text when the statements before `i` have their distances and nothing else changed. */
  predicate ResolvedText(src: Source, text: seq<Statement>, i: nat)
    requires |src.code| >= 1
  {
    |text| == |src.text| && forall t :: 0 <= t < |text| ==> ResolvedLine(src, text, i, t)
  }

  predicate ResolvedLine(src: Source, text: seq<Statement>, i: nat, t: nat)
    requires |src.code| >= 1 && t < |text| == |src.text|
  {
    var c := src.text[t].codeNr;
    if 0 < c < |src.code| && c < i && src.code[c] == t
    then src.Encodable(c) && text[t] == src.text[t].(body := src.Resolved(c))
    else text[t] == src.text[t]
  }

  predicate Untouched(src: Source, text: seq<Statement>, i: nat) {
    |text| == |src.text| && forall c :: i <= c < |src.code| && src.code[c] < |text| ==> text[src.code[c]] == src.text[src.code[c]]
  }

  lemma UntouchedAt(src: Source, text: seq<Statement>, i: nat)
    requires src.WellFormed() && 0 < i < |src.code| && Untouched(src, text, i)
    ensures src.code[i] < |text| && text[src.code[i]] == src.text[src.code[i]]
  {
    AtStatement(src, i);
  }

  lemma StillUntouched(src: Source, before: seq<Statement>, after: seq<Statement>, i: nat)
    requires src.WellFormed() && 0 < i < |src.code| && Untouched(src, before, i)
    requires src.code[i] < |before| && |after| == |before| && after == before[src.code[i] := after[src.code[i]]]
    ensures Untouched(src, after, i + 1)
  {
  }

  lemma ResolvedNext(src: Source, before: seq<Statement>, after: seq<Statement>, i: nat)
    requires src.WellFormed() && 0 < i < |src.code| && ResolvedText(src, before, i) && src.Encodable(i)
    requires src.code[i] < |before| && |after| == |before| && before[src.code[i]] == src.text[src.code[i]]
    requires after == before[src.code[i] := before[src.code[i]].(body := src.Resolved(i))]
    ensures ResolvedText(src, after, i + 1)
  {
    hide Source.Encodable, Source.Resolved;
    AtStatement(src, i);
    var next := i + 1;
    forall t | 0 <= t < |after|
      ensures ResolvedLine(src, after, next, t)
    {
      assert ResolvedLine(src, before, i, t);
    }
  }

  lemma {:induction false} AssignFine(src: Source, c: nat, memValid: u16)
    requires src.WellFormed() && src.At(c).Assign?
    ensures src.Encodable(c) == ValidAssign(src.At(c).left, src.At(c).op, src.At(c).right)
    ensures src.Encodable(c) ==> src.Resolved(c) == src.At(c)
    ensures Here(src, c, memValid) ==> var b := src.At(c);
              src.Fine(c) == (ValidAssign(b.left, b.op, b.right) &&
                              (b.op.Equal? && !b.left.MemWord? && b.right.MemWord? ==> Bit(memValid, b.right.k)))
  {
  }

  /** The distance of an arm, in 16 bits. */
  function Distance(d: u16, c: nat): u16
    requires c < 0x1_0000
  {
    (d + 0x1_0000 - c - 1) % 0x1_0000
  }

  /** resolver: true when the program has an error; a program without statements is given up. */
  method Resolve(ghost src: Source, text: array<Statement>, code: seq<nat>, table: map<string, u16>) returns (hasError: bool)
    requires src.WellFormed() && text[..] == src.text && code == src.code && table == src.table
    modifies text
    ensures hasError == !src.Accepted()
    ensures !hasError ==> ResolvedText(src, text[..], |code|)
  {
    if |code| == 1 {
      return true;
    }
    CodeFits(src.text, src.code, |code| - 1);
    var r := new Resolver(text, code, table);
    r.Run(src);
    hasError := r.hasError;
  }
}
