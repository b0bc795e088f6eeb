/** Which programs the resolver is to accept: every statement has a valid instruction, every
    jump a later label close enough, every scratch word is written on all ways to a read of
    it, and the last statement returns. */
module Acceptance {
  import opened Word
  import opened Bpf
  import opened Parser
  import opened Statements

  /** An assignment that stands for an instruction the kernel accepts. */
  predicate ValidAssign(left: Obj, op: AssignOp, right: Obj) {
    AssignInstr(left, op, right).Some? && ValidInstr(AssignInstr(left, op, right).value, 0, 1)
  }

  datatype Source = Source(text: seq<Statement>, code: seq<nat>, table: map<string, u16>) {

    /** What the parser hands over. */
    ghost predicate WellFormed() {
      && Numbered(text, code) && Declared(text, code, table)
      && |text| <= 4 * BPF_MAXINSNS + 3
      && (forall t :: 0 < t < |text| ==> Grammatical(text[t].body))
    }

    /** The number of statements, counted from one. */
    function Len(): nat
      requires |code| >= 1
    {
      |code| - 1
    }

    function At(c: nat): Body {
      if 0 < c < |code| && code[c] < |text| then text[code[c]].body else Bad
    }

    /** The statement number of a label; the next statement for an arm left out. */
    function Dest(l: Label, c: nat): nat {
      if l.key == "" then c + 1
      else if l.key in table then table[l.key]
      else 0xffff
    }

    /** A jump at `c` has an arm to `d`. */
    predicate Reaches(c: nat, d: nat) {
      var b := At(c);
      b.Jump? && (d == Dest(b.jt, c) || (b.conditional && d == Dest(b.jf, c)))
    }

    /** Control as the resolver follows it, where a return is followed by the next statement. */
    predicate Flows(p: nat, c: nat) {
      if At(p).Jump? then Reaches(p, c) else c == p + 1
    }

    /** Word `k` has been written on every way from the first statement to `c`. */
    predicate Written(c: nat, k: nat)
      decreases c
    {
      c > 1 && forall p :: 1 <= p < c && Flows(p, c) ==> WritesMem(At(p), k) || Written(p, k)
    }

    predicate Near(d: nat, c: nat, conditional: bool)
      requires |code| >= 1
    {
      c < d <= Len() && (conditional ==> d - c - 1 <= 0xff)
    }

    /** The statement can be encoded as an instruction the kernel accepts. */
    predicate Encodable(c: nat)
      requires |code| >= 1
    {
      var b := At(c);
      match b
      case Assign(left, op, right) => ValidAssign(left, op, right)
      case Jump(_, conditional, _, _, jt, jf) =>
        Near(Dest(jt, c), c, conditional) && (conditional ==> Near(Dest(jf, c), c, true))
      case Return(_, _) => InstrOf(b).Some?
      case _ => false
    }

    predicate Fine(c: nat)
      requires |code| >= 1
    {
      Encodable(c) && forall k :: 0 <= k < MEMWORDS && ReadsMem(At(c), k) ==> Written(c, k)
    }

    predicate Accepted() {
      && |code| >= 1
      && Len() > 0
      && (forall c :: 0 < c < |code| ==> Fine(c))
      && At(Len()).Return?
    }

    /** A statement with the distances of its arms filled in. */
    function Resolved(c: nat): Body
      requires |code| >= 1 && Encodable(c)
    {
      var b := At(c);
      match b
      case Jump(_, conditional, _, _, jt, jf) =>
        var near := b.(jt := Label(jt.key, Dest(jt, c) - c - 1));
        if conditional then near.(jf := Label(jf.key, Dest(jf, c) - c - 1)) else near
      case _ => b
    }
  }

  lemma AtStatement(src: Source, c: nat)
    requires src.WellFormed() && 0 < c < |src.code|
    ensures 0 < src.code[c] < |src.text|
    ensures src.text[src.code[c]].codeNr == c && src.text[src.code[c]].textNr == src.code[c]
    ensures src.At(c) == src.text[src.code[c]].body && !src.At(c).Empty? && Grammatical(src.At(c))
  {
    assert CodeAt(src.text, src.code, c);
    assert LineAt(src.text, src.code, src.code[c]);
  }

  lemma ResolvedOther(src: Source, c: nat)
    requires |src.code| >= 1 && src.Encodable(c) && !src.At(c).Jump?
    ensures src.Resolved(c) == src.At(c)
  {
  }
}
