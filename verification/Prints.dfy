/** What the printer writes, as text. */
module Prints {
  import opened Word
  import opened Bpf
  import opened Statements
  import opened Scanner
  import opened Formatter

  lemma {:induction false} PrintedCons(p: Piece, ps: seq<Piece>)
    ensures Printed([p] + ps) == Text(p) + Printed(ps)
  {
    assert ([p] + ps)[1..] == ps;
  }

  lemma Printed1(p: Piece)
    ensures Printed([p]) == Text(p)
  {
    PrintedCons(p, []);
    assert [p] + [] == [p];
  }

  /** Pieces of which the first is followed by others, as text. */
  lemma {:induction false} Begun(ps: seq<Piece>, p: Piece, rest: seq<Piece>, text: string)
    requires ps == [p] + rest && Printed(rest) == text
    ensures Printed(ps) == Text(p) + text
  {
    PrintedCons(p, rest);
  }

  // ----- numbers -----

  /** Digits in lower case, the last one first: what is left after it is before it. */
  lemma {:induction false} DigitsText(k: nat)
    ensures k < 16 ==> ToDigits(k, 16) == ["0123456789abcdef"[k]]
    ensures k >= 16 ==> ToDigits(k, 16) == ToDigits(k / 16, 16) + ["0123456789abcdef"[k % 16]]
    ensures k < 10 ==> ToDigits(k, 10) == ["0123456789"[k]]
    ensures k >= 10 ==> ToDigits(k, 10) == ToDigits(k / 10, 10) + ["0123456789"[k % 10]]
  {
    hide DigitChar;
    DigitText(k % 16);
    DigitText(k % 10);
  }

  lemma DigitText(d: nat)
    requires d < 16
    ensures DigitChar(d) == "0123456789abcdef"[d] && (d < 10 ==> DigitChar(d) == "0123456789"[d])
  {
  }

  /** Numbers have a prefix and as many zeros as their width asks for. */
  lemma {:induction false} NumberTexts(k: u32, s: string)
    ensures Text(Hex(k, 0)) == "0x" + ToDigits(k, 16) && Text(Dec(k)) == ToDigits(k, 10)
    ensures Padded(s, 2) == (if |s| == 0 then "00" else if |s| == 1 then "0" + s else s)
    ensures |s| >= 4 ==> Padded(s, 4) == s
    ensures |s| < 4 ==> |Padded(s, 4)| == 4 && Padded(s, 4)[4 - |s|..] == s && forall i :: 0 <= i < 4 - |s| ==> Padded(s, 4)[i] == '0'
  {
    var z := ToDigits(k, 16);
    assert Padded(z, 0) == z;
    assert Zeros(0) == "" && Zeros(1) == "0" && Zeros(2) == "00" && Zeros(3) == "000" && Zeros(4) == "0000";
    assert "00" + "" == "00";
  }

  // ----- operands and operators -----

  lemma ObjText(o: Obj, p: Piece)
    requires ObjPieces(o) == [p]
    ensures Printed(ObjPieces(o)) == Text(p)
  {
    Printed1(p);
  }

  lemma RegisterTexts(k: u32)
    ensures Printed(ObjPieces(VarA)) == "$A" && Printed(ObjPieces(VarX)) == "$X" && Printed(ObjPieces(Obj.Number(k))) == Text(Hex(k, 0))
  {
    hide Printed, ToDigits, Padded;
    ObjText(VarA, Tok(TA));
    ObjText(VarX, Tok(TX));
    ObjText(Obj.Number(k), Hex(k, 0));
  }

  lemma AttributeTexts()
    ensures Printed(ObjPieces(DataLen)) == "$scmp_data_len" && Printed(ObjPieces(SyscallNr)) == "$syscall_nr"
    ensures Printed(ObjPieces(ArchNr)) == "$arch" && Printed(ObjPieces(LowPc)) == "$low_pc" && Printed(ObjPieces(HighPc)) == "$high_pc"
  {
    hide Printed;
    ObjText(DataLen, Tok(TLen));
    ObjText(SyscallNr, Tok(TSyscall));
    ObjText(ArchNr, Tok(TArchAttr));
    ObjText(LowPc, Tok(TLowPc));
    ObjText(HighPc, Tok(THighPc));
  }

  lemma IndexedText(word: Token, number: Piece)
    ensures Printed([Tok(word), Tok(TLBracket), number, Tok(TRBracket)]) == Spelling(word) + ("[" + (Text(number) + "]"))
  {
    hide Printed;
    Printed1(Tok(TRBracket));
    Begun([number, Tok(TRBracket)], number, [Tok(TRBracket)], "]");
    Begun([Tok(TLBracket), number, Tok(TRBracket)], Tok(TLBracket), [number, Tok(TRBracket)], Text(number) + "]");
    var ps := [Tok(TLBracket), number, Tok(TRBracket)];
    Begun([Tok(word), Tok(TLBracket), number, Tok(TRBracket)], Tok(word), ps, "[" + (Text(number) + "]"));
  }

  lemma WordTexts()
    ensures Spelling(TMem) == "$mem" && Spelling(TLowArg) == "$low_args" && Spelling(THighArg) == "$high_args"
  {
  }

  lemma IndexedTexts(k: u32)
    ensures Printed(ObjPieces(MemWord(k))) == "$mem" + ("[" + (Text(Hex(k, 0)) + "]"))
    ensures Printed(ObjPieces(LowArg(k))) == "$low_args" + ("[" + (Text(Dec(k)) + "]"))
    ensures Printed(ObjPieces(HighArg(k))) == "$high_args" + ("[" + (Text(Dec(k)) + "]"))
  {
    hide Text, Printed, Spelling;
    WordTexts();
    IndexedText(TMem, Hex(k, 0));
    IndexedText(TLowArg, Dec(k));
    IndexedText(THighArg, Dec(k));
  }

  lemma OpTexts(o: AluOp)
    ensures Printed(OpPieces(OpTo(o))) == AluSpelling(o) + " " && Printed(OpPieces(Equal)) == "= " && Printed(OpPieces(Negative)) == "= -"
  {
    Printed1(Space);
    Begun([Tok(TAssign(o)), Space], Tok(TAssign(o)), [Space], " ");
    Begun([Tok(TEqual), Space], Tok(TEqual), [Space], " ");
    Printed1(Tok(TMinus));
    Begun([Space, Tok(TMinus)], Space, [Tok(TMinus)], "-");
    Begun([Tok(TEqual), Space, Tok(TMinus)], Tok(TEqual), [Space, Tok(TMinus)], " -");
    hide Printed, AluSpelling;
    assert "=" + " " == "= " && "=" + " -" == "= -" && " " + "-" == " -";
  }

  // ----- statements -----

  lemma AssignText(left: Obj, op: AssignOp, right: Obj, n: nat)
    ensures Printed(BodyPieces(Assign(left, op, right), n))
         == Printed(ObjPieces(left)) + " " + Printed(OpPieces(op)) + Printed(ObjPieces(right))
            + (if right.DataLen? then " # 0x40" else "")
  {
    hide ObjPieces, OpPieces, Printed;
    PrintedAppend(ObjPieces(left), [Space]);
    PrintedAppend(ObjPieces(left) + [Space], OpPieces(op));
    PrintedAppend(ObjPieces(left) + [Space] + OpPieces(op), ObjPieces(right));
    PrintedAppend(ObjPieces(left) + [Space] + OpPieces(op) + ObjPieces(right), NotePieces(right));
    Printed1(Space);
    NoteText(right);
  }

  lemma NoteText(right: Obj)
    ensures Printed(NotePieces(right)) == if right.DataLen? then " # 0x40" else ""
  {
    Printed1(Note(" 0x40"));
    Begun([Space, Note(" 0x40")], Space, [Note(" 0x40")], "# 0x40");
    assert "#" + " 0x40" == "# 0x40" && " " + "# 0x40" == " # 0x40";
  }

  lemma GotoText(l: Label, n: nat)
    ensures Printed(GotoPieces(l, n)) == "goto " + ArmLabel(l, n)
  {
    hide ArmLabel;
    var name := Tok(TIdentifier(ArmLabel(l, n)));
    Printed1(name);
    Begun([Space, name], Space, [name], ArmLabel(l, n));
    Begun([Tok(TGoto), Space, name], Tok(TGoto), [Space, name], " " + ArmLabel(l, n));
    assert "goto" + (" " + ArmLabel(l, n)) == "goto " + ArmLabel(l, n);
  }

  lemma ConditionText(cmp: Comparator, obj: Operand)
    ensures Printed(ConditionPieces(cmp, obj))
         == "($A " + CompareSpelling(cmp) + " " + (if obj.RegX? then "$X" else Text(Hex(obj.k, 0))) + ") "
  {
    hide CompareSpelling, Printed, ToDigits, Padded;
    var o := OperandPiece(obj);
    var behind := [Tok(TCompare(cmp)), Space, o, Tok(TRParen), Space];
    ComparedText(cmp, o);
    var t3 := CompareSpelling(cmp) + (" " + (Text(o) + ") "));
    Begun([Space] + behind, Space, behind, t3);
    Begun([Tok(TA)] + ([Space] + behind), Tok(TA), [Space] + behind, " " + t3);
    Begun(ConditionPieces(cmp, obj), Tok(TLParen), [Tok(TA)] + ([Space] + behind), "$A" + (" " + t3));
    Associate(CompareSpelling(cmp), Text(o));
  }

  lemma ComparedText(cmp: Comparator, o: Piece)
    ensures Printed([Tok(TCompare(cmp)), Space, o, Tok(TRParen), Space]) == CompareSpelling(cmp) + (" " + (Text(o) + ") "))
  {
    hide CompareSpelling, Printed, ToDigits, Padded;
    Printed1(Space);
    Begun([Tok(TRParen), Space], Tok(TRParen), [Space], " ");
    assert ")" + " " == ") ";
    Begun([o, Tok(TRParen), Space], o, [Tok(TRParen), Space], ") ");
    Begun([Space, o, Tok(TRParen), Space], Space, [o, Tok(TRParen), Space], Text(o) + ") ");
    Begun([Tok(TCompare(cmp)), Space, o, Tok(TRParen), Space], Tok(TCompare(cmp)), [Space, o, Tok(TRParen), Space],
          " " + (Text(o) + ") "));
  }

  lemma Associate(c: string, o: string)
    ensures "(" + ("$A" + (" " + (c + (" " + (o + ") "))))) == "($A " + c + " " + o + ") "
  {
  }

  lemma JumpText(b: Body, n: nat)
    requires b.Jump?
    ensures !b.conditional ==> Printed(BodyPieces(b, n)) == Printed(GotoPieces(b.jt, n))
    ensures b.conditional ==>
              Printed(BodyPieces(b, n)) == "if " + (if b.bang then "!" else "") + Printed(ConditionPieces(b.cmp, b.cmpobj))
                                           + Printed(GotoPieces(b.jt, n))
                                           + (if b.jf.codeNr == 0 then "" else ", else " + Printed(GotoPieces(b.jf, n)))
  {
    hide Printed, ConditionPieces, GotoPieces;
    if b.conditional {
      var opening: seq<Piece> := [Tok(TIf), Space];
      var bang: seq<Piece> := if b.bang then [Tok(TBang)] else [];
      OpeningText(b.bang);
      PrintedAppend(opening, bang);
      PrintedAppend(opening + bang, ConditionPieces(b.cmp, b.cmpobj));
      PrintedAppend(opening + bang + ConditionPieces(b.cmp, b.cmpobj), GotoPieces(b.jt, n));
      PrintedAppend(opening + bang + ConditionPieces(b.cmp, b.cmpobj) + GotoPieces(b.jt, n), ElsePieces(b.jf, n));
      ElseText(b.jf, n);
    }
  }

  lemma OpeningText(bang: bool)
    ensures Printed([Tok(TIf), Space]) == "if " && Printed(if bang then [Tok(TBang)] else []) == if bang then "!" else ""
  {
    Printed1(Space);
    Printed1(Tok(TBang));
    Begun([Tok(TIf), Space], Tok(TIf), [Space], " ");
    assert "if" + " " == "if ";
  }

  lemma ElseText(l: Label, n: nat)
    ensures Printed(ElsePieces(l, n)) == if l.codeNr == 0 then "" else ", else " + Printed(GotoPieces(l, n))
  {
    if l.codeNr != 0 {
      PrintedAppend([Tok(TComma), Space, Tok(TElse), Space], GotoPieces(l, n));
      Printed1(Space);
      Begun([Tok(TElse), Space], Tok(TElse), [Space], " ");
      Begun([Space, Tok(TElse), Space], Space, [Tok(TElse), Space], "else ");
      Begun([Tok(TComma), Space, Tok(TElse), Space], Tok(TComma), [Space, Tok(TElse), Space], " else ");
      hide Printed, GotoPieces;
      assert "else" + " " == "else " && " " + "else " == " else " && "," + " else " == ", else ";
    }
  }

  lemma ReturnText(r: RetObj, v: Verdict, n: nat)
    ensures Printed(BodyPieces(Return(r, v), n))
         == "return " + match r
                        case RetA => "$A"
                        case RetNumber(k) => Text(Hex(k, 0))
                        case RetAction(a, d) =>
                          ActionSpelling(a) + if a == Action.Trace || a == Trap || a == Errno then "(" + Text(Dec(d)) + ")" else ""
  {
    hide ActionSpelling, ToDigits, Padded;
    PrintedAppend([Tok(TReturn), Space], ReturnPieces(r));
    Printed1(Space);
    Begun([Tok(TReturn), Space], Tok(TReturn), [Space], " ");
    assert "return" + " " == "return ";
    match r
    case RetA => Printed1(Tok(TA));
    case RetNumber(k) => Printed1(Hex(k, 0));
    case RetAction(a, d) => ActionText(a, d);
  }

  lemma ActionText(a: Action, d: u32)
    ensures Printed(ReturnPieces(RetAction(a, d)))
         == ActionSpelling(a) + if a == Action.Trace || a == Trap || a == Errno then "(" + Text(Dec(d)) + ")" else ""
  {
    hide ActionSpelling, ToDigits;
    Printed1(Tok(TAction(a)));
    if a.HasData() {
      Printed1(Tok(TRParen));
      Begun([Dec(d), Tok(TRParen)], Dec(d), [Tok(TRParen)], ")");
      Begun([Tok(TLParen), Dec(d), Tok(TRParen)], Tok(TLParen), [Dec(d), Tok(TRParen)], Text(Dec(d)) + ")");
      PrintedAppend([Tok(TAction(a))], [Tok(TLParen), Dec(d), Tok(TRParen)]);
      assert "(" + (Text(Dec(d)) + ")") == "(" + Text(Dec(d)) + ")";
    } else {
      assert [Tok(TAction(a))] + [] == [Tok(TAction(a))];
    }
  }

  /** A line: the label, the four fields of the word and the statement. */
  lemma LineText(n: nat, f: Filter, b: Body)
    ensures Printed(LinePieces(n, f, b))
         == " " + (DefaultLabel(n) + ":" + (" " + (Text(Hex(CodeNumber(f.code), 2)) + (" " + (Text(Hex(f.jt, 2)) + (" "
            + (Text(Hex(f.jf, 2)) + (" " + (Text(Hex(f.k, 8)) + (" " + Printed(BodyPieces(b, n))))))))))))
  {
    hide Printed, BodyPieces, DefaultLabel, ToDigits, Padded;
    var code, jt, jf, k := Hex(CodeNumber(f.code), 2), Hex(f.jt, 2), Hex(f.jf, 2), Hex(f.k, 8);
    var behindJt := [Space] + ([jf] + ([Space] + ([k] + ([Space] + BodyPieces(b, n)))));
    FieldsText(jf, k, BodyPieces(b, n));
    var fields := [code] + ([Space] + ([jt] + behindJt));
    PrintedCons(jt, behindJt);
    PrintedCons(Space, [jt] + behindJt);
    PrintedCons(code, [Space] + ([jt] + behindJt));
    PrintedCons(Space, fields);
    PrintedCons(Tok(TLabelDecl(DefaultLabel(n))), [Space] + fields);
    PrintedCons(Space, [Tok(TLabelDecl(DefaultLabel(n)))] + ([Space] + fields));
    assert LinePieces(n, f, b) == [Space] + ([Tok(TLabelDecl(DefaultLabel(n)))] + ([Space] + fields));
  }

  lemma {:induction false} FieldsText(jf: Piece, k: Piece, body: seq<Piece>)
    ensures Printed([Space] + ([jf] + ([Space] + ([k] + ([Space] + body)))))
         == " " + (Text(jf) + (" " + (Text(k) + (" " + Printed(body)))))
  {
    hide Printed, ToDigits, Padded;
    PrintedCons(Space, body);
    PrintedCons(k, [Space] + body);
    PrintedCons(Space, [k] + ([Space] + body));
    PrintedCons(jf, [Space] + ([k] + ([Space] + body)));
    PrintedCons(Space, [jf] + ([Space] + ([k] + ([Space] + body))));
  }
}
